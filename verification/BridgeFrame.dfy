/** Bridge frames: the encoder, and what the parser decides about the bytes at
    the head of its buffer. */
module BridgeFrame {
  import opened Bytes
  import opened Crc16

  const MAGIC_0: byte := 0x43
  const MAGIC_1: byte := 0x4D
  const VERSION: byte := 0x01
  const MAX_PAYLOAD: nat := 64
  const HEADER_BYTES: nat := 8
  const CRC_BYTES: nat := 2
  const MAX_FRAME_BYTES: nat := HEADER_BYTES + MAX_PAYLOAD + CRC_BYTES

  /** The length field of the C structure is the length of `payload`. */
  datatype Frame = Frame(kind: byte, sequence: u16, payload: seq<byte>)

  predicate Encodable(f: Frame) {
    |f.payload| <= MAX_PAYLOAD
  }

  function FrameBytes(f: Frame): nat {
    HEADER_BYTES + |f.payload| + CRC_BYTES
  }

  function Header(f: Frame): (s: seq<byte>)
    requires Encodable(f)
    ensures |s| == HEADER_BYTES
  {
    [MAGIC_0, MAGIC_1, VERSION, f.kind] + U16Bytes(f.sequence) + U16Bytes(|f.payload|)
  }

  /** Everything the checksum covers. */
  function Body(f: Frame): (s: seq<byte>)
    requires Encodable(f)
    ensures |s| == FrameBytes(f) - CRC_BYTES
  {
    Header(f) + f.payload
  }

  function EncodeFrame(f: Frame): (s: seq<byte>)
    requires Encodable(f)
    ensures |s| == FrameBytes(f)
  {
    Body(f) + U16Bytes(Checksum(Body(f)))
  }

  method WriteU16(destination: array<byte>, at: nat, value: u16)
    requires at + 2 <= destination.Length
    modifies destination
    ensures destination[..at] == old(destination[..at])
    ensures destination[at..at + 2] == U16Bytes(value)
    ensures destination[at + 2..] == old(destination[at + 2..])
  {
    destination[at] := value % 0x100;
    destination[at + 1] := value / 0x100;
  }

  method WriteHeader(f: Frame, destination: array<byte>)
    requires Encodable(f) && HEADER_BYTES <= destination.Length
    modifies destination
    ensures destination[..HEADER_BYTES] == Header(f)
    ensures destination[HEADER_BYTES..] == old(destination[HEADER_BYTES..])
  {
    destination[0], destination[1] := MAGIC_0, MAGIC_1;
    destination[2], destination[3] := VERSION, f.kind;
    WriteU16(destination, 4, f.sequence);
    assert destination[..4] == [MAGIC_0, MAGIC_1, VERSION, f.kind];
    WriteU16(destination, 6, |f.payload|);
    assert destination[..HEADER_BYTES] == destination[..6][..4] + destination[..6][4..] + destination[6..8];
    assert destination[..6][..4] == destination[..4];
  }

  method WritePayload(payload: seq<byte>, destination: array<byte>)
    requires HEADER_BYTES + |payload| <= destination.Length
    modifies destination
    ensures destination[..HEADER_BYTES + |payload|] == old(destination[..HEADER_BYTES]) + payload
    ensures destination[HEADER_BYTES + |payload|..] == old(destination[HEADER_BYTES + |payload|..])
  {
    forall i | 0 <= i < |payload| {
      destination[HEADER_BYTES + i] := payload[i];
    }
  }

  /** Encodes into a caller's buffer of which `capacity` bytes may be used, and
      returns 0, having written nothing, when the frame is oversized or does
      not fit. */
  method Encode(f: Frame, destination: array<byte>, capacity: nat) returns (total: nat)
    requires capacity <= destination.Length
    modifies destination
    ensures total == if Encodable(f) && FrameBytes(f) <= capacity then FrameBytes(f) else 0
    ensures total == 0 ==> destination[..] == old(destination[..])
    ensures total > 0 ==> destination[..total] == EncodeFrame(f)
    ensures destination[total..] == old(destination[total..])
  {
    hide Checksum;
    var length := |f.payload|;
    if length > MAX_PAYLOAD {
      return 0;
    }
    total := HEADER_BYTES + length + CRC_BYTES;
    if capacity < total {
      return 0;
    }
    WriteHeader(f, destination);
    if length > 0 {
      WritePayload(f.payload, destination);
    }
    ghost var tail := destination[total..];
    assert tail == old(destination[HEADER_BYTES..])[length + CRC_BYTES..];
    assert destination[..total - CRC_BYTES] == Body(f);
    var crc := Compute(destination, total - CRC_BYTES);
    WriteU16(destination, total - CRC_BYTES, crc);
    assert destination[..total] == destination[..total - CRC_BYTES] + destination[total - CRC_BYTES..total];
  }

  /** One turn of the parser loop: wait for more bytes, drop a few, or accept. */
  datatype Verdict = NeedMore | Drop(count: nat) | Accept(frame: Frame)

  function Inspect(s: seq<byte>): (v: Verdict)
    ensures v.Drop? ==> 0 < v.count <= 2 <= |s|
    ensures v.Accept? ==> Encodable(v.frame) && FrameBytes(v.frame) <= |s|
    ensures v.NeedMore? ==> |s| < MAX_FRAME_BYTES
  {
    if |s| < 2 then NeedMore
    else if s[0] != MAGIC_0 || s[1] != MAGIC_1 then Drop(1)
    else if |s| < HEADER_BYTES then NeedMore
    else if s[2] != VERSION then Drop(2)
    else
      var length := ReadU16(s[6], s[7]);
      var total := HEADER_BYTES + length + CRC_BYTES;
      if length > MAX_PAYLOAD then Drop(2)
      else if |s| < total then NeedMore
      else if Checksum(s[..total - CRC_BYTES]) != ReadU16(s[total - 2], s[total - 1]) then Drop(1)
      else Accept(Frame(s[3], ReadU16(s[4], s[5]), s[8..8 + length]))
  }

  /** A decision once made is not changed by bytes that arrive later. */
  lemma InspectStable(s: seq<byte>, t: seq<byte>)
    requires !Inspect(s).NeedMore?
    ensures Inspect(s + t) == Inspect(s)
  {
    hide Checksum;
    if |s| >= HEADER_BYTES {
      var total := HEADER_BYTES + ReadU16(s[6], s[7]) + CRC_BYTES;
      if total <= |s| {
        assert (s + t)[..total - CRC_BYTES] == s[..total - CRC_BYTES];
        assert (s + t)[8..total - CRC_BYTES] == s[8..total - CRC_BYTES];
      }
    }
  }

  lemma U16Unique(lo: byte, hi: byte)
    ensures U16Bytes(ReadU16(lo, hi)) == [lo, hi]
  {}

  lemma AcceptedIsEncoded(s: seq<byte>)
    requires Inspect(s).Accept?
    ensures EncodeFrame(Inspect(s).frame) <= s
  {
    hide Checksum;
    var f := Inspect(s).frame;
    var total := FrameBytes(f);
    U16Unique(s[4], s[5]);
    U16Unique(s[6], s[7]);
    U16Unique(s[total - 2], s[total - 1]);
    assert s[..total - 2] == Body(f);
    assert s[..total] == s[..total - 2] + [s[total - 2], s[total - 1]];
  }

  lemma EncodedIsAccepted(f: Frame)
    requires Encodable(f)
    ensures Inspect(EncodeFrame(f)) == Accept(f)
  {
    hide Checksum;
    var s := EncodeFrame(f);
    var total := FrameBytes(f);
    assert s[..total - 2] == Body(f);
    assert ReadU16(s[4], s[5]) == f.sequence;
    assert ReadU16(s[6], s[7]) == |f.payload|;
    assert ReadU16(s[total - 2], s[total - 1]) == Checksum(Body(f));
    assert s[8..8 + |f.payload|] == f.payload;
  }

  /** The parser accepts a frame exactly when the buffer starts with that
      frame's encoding. */
  lemma AcceptsExactlyEncodings(s: seq<byte>, f: Frame)
    ensures Inspect(s) == Accept(f) <==> Encodable(f) && EncodeFrame(f) <= s
  {
    hide Checksum, Inspect, EncodeFrame;
    if Inspect(s) == Accept(f) {
      AcceptedIsEncoded(s);
    }
    if Encodable(f) && EncodeFrame(f) <= s {
      EncodedIsAccepted(f);
      InspectStable(EncodeFrame(f), s[FrameBytes(f)..]);
      assert s == EncodeFrame(f) + s[FrameBytes(f)..];
    }
  }
}
