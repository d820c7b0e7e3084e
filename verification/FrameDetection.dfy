/** Which damage to an encoded frame the parser is sure to notice. */
module FrameDetection {
  import opened Bytes
  import opened Crc16
  import opened BridgeFrame

  /** The encoding of f with the bytes at `at` overwritten. */
  function Damaged(f: Frame, at: nat, bytes: seq<byte>): (s: seq<byte>)
    requires Encodable(f) && at + |bytes| <= FrameBytes(f)
    ensures |s| == FrameBytes(f)
  {
    EncodeFrame(f)[..at] + bytes + EncodeFrame(f)[at + |bytes|..]
  }

  /** One byte outside the length field, or two adjacent bytes that both lie in
      front of the length field, both in the payload, or both in the checksum. */
  predicate Confined(f: Frame, at: nat, count: nat) {
    && 1 <= count <= 2 && at + count <= FrameBytes(f)
    && (at + count <= 6 || (8 <= at && at + count <= FrameBytes(f) - 2) || FrameBytes(f) - 2 <= at)
  }

  lemma LengthFieldKept(f: Frame, at: nat, bytes: seq<byte>, after: seq<byte>)
    requires Encodable(f) && Confined(f, at, |bytes|)
    ensures ReadU16((Damaged(f, at, bytes) + after)[6], (Damaged(f, at, bytes) + after)[7]) == |f.payload|
  {
    hide Checksum;
    var e := EncodeFrame(f);
    assert e[6] == Header(f)[6] && e[7] == Header(f)[7];
    var d := Damaged(f, at, bytes);
    assert d[6] == e[6] && d[7] == e[7];
  }

  /** What acceptance would mean for the stored checksum. */
  lemma AcceptedChecksum(d: seq<byte>, total: nat)
    requires |d| >= total >= HEADER_BYTES + CRC_BYTES && ReadU16(d[6], d[7]) == total - HEADER_BYTES - CRC_BYTES
    requires Inspect(d).Accept?
    ensures Checksum(d[..total - 2]) == ReadU16(d[total - 2], d[total - 1])
  {
    hide Checksum;
  }

  lemma EncodedChecksum(f: Frame)
    requires Encodable(f)
    ensures var e, n := EncodeFrame(f), FrameBytes(f);
      && e[..n - 2] == Body(f) && e[n - 2..] == U16Bytes(Checksum(Body(f)))
      && ReadU16(e[n - 2], e[n - 1]) == Checksum(e[..n - 2])
  {
    hide Checksum;
  }

  /** Such damage is noticed: no frame at all is accepted at that offset,
      whatever bytes follow. */
  lemma DamageDetected(f: Frame, at: nat, bytes: seq<byte>, after: seq<byte>)
    requires Encodable(f) && Confined(f, at, |bytes|)
    requires EncodeFrame(f)[at..at + |bytes|] != bytes
    ensures !Inspect(Damaged(f, at, bytes) + after).Accept?
  {
    hide Checksum, Inspect, EncodeFrame, ReadU16;
    var e, n, d := EncodeFrame(f), FrameBytes(f), Damaged(f, at, bytes) + after;
    EncodedChecksum(f);
    if Inspect(d).Accept? {
      LengthFieldKept(f, at, bytes, after);
      AcceptedChecksum(d, n);
      var intact, stop := e[at..at + |bytes|], at + |bytes|;
      if stop <= n - 2 {
        assert d[n - 2] == e[n - 2] && d[n - 1] == e[n - 1];
        assert d[..n - 2] == e[..at] + bytes + e[stop..n - 2];
        assert e[..n - 2] == e[..at] + intact + e[stop..n - 2];
        BurstChangesChecksum(e[..at], bytes, intact, e[stop..n - 2]);
      } else {
        assert d[..n - 2] == e[..n - 2];
        ChecksumFieldChanged(e, d, at, bytes);
      }
    }
  }

  lemma ChecksumFieldChanged(e: seq<byte>, d: seq<byte>, at: nat, bytes: seq<byte>)
    requires 2 <= |e| <= |d| && 1 <= |bytes| <= 2 && |e| - 2 <= at && at + |bytes| <= |e|
    requires d[..|e|] == e[..at] + bytes + e[at + |bytes|..]
    requires e[at..at + |bytes|] != bytes
    ensures ReadU16(d[|e| - 2], d[|e| - 1]) != ReadU16(e[|e| - 2], e[|e| - 1])
  {
    hide ReadU16;
    var n := |e|;
    assert d[..n][n - 2] == d[n - 2] && d[..n][n - 1] == d[n - 1];
    var i :| 0 <= i < |bytes| && e[at..at + |bytes|][i] != bytes[i];
    assert d[..n][at + i] == bytes[i];
    U16Unique(d[n - 2], d[n - 1]);
    U16Unique(e[n - 2], e[n - 1]);
  }

  // ---- The one gap: the last payload byte together with the checksum's low byte ----

  lemma StraddleBody(f: Frame, x: byte, low: byte, after: seq<byte>)
    requires Encodable(f) && f.payload != []
    ensures var n, p := FrameBytes(f), f.payload[..|f.payload| - 1] + [x];
      var d := Damaged(f, n - 3, [x, low]) + after;
      && d[..n - 2] == Body(f.(payload := p))
      && Body(f.(payload := p)) == Body(f)[..n - 3] + [x]
      && Body(f) == Body(f)[..n - 3] + [f.payload[|f.payload| - 1]]
      && d[n - 2] == low && d[n - 1] == Checksum(Body(f)) / 0x100
  {
    hide Checksum;
    var n, e := FrameBytes(f), EncodeFrame(f);
    EncodedChecksum(f);
    var p := f.payload[..|f.payload| - 1] + [x];
    var d := Damaged(f, n - 3, [x, low]) + after;
    assert e[n - 1] == e[n - 2..][1];
    assert d[n - 1] == e[n - 1];
    assert d[..n - 2] == e[..n - 3] + [x];
    assert e[..n - 3] == Body(f)[..n - 3];
    assert Body(f)[..n - 3] == Header(f) + f.payload[..|f.payload| - 1];
    assert Body(f.(payload := p)) == Header(f) + p;
  }

  lemma AcceptsByChecksum(f: Frame, d: seq<byte>)
    requires Encodable(f) && FrameBytes(f) <= |d| && d[..FrameBytes(f) - 2] == Body(f)
    ensures Inspect(d).Accept? <==>
      Checksum(Body(f)) == ReadU16(d[FrameBytes(f) - 2], d[FrameBytes(f) - 1])
  {
    hide Checksum;
    var b := Body(f);
    assert b[0] == MAGIC_0 && b[1] == MAGIC_1 && b[2] == VERSION;
    assert ReadU16(b[6], b[7]) == |f.payload|;
    assert forall i | 0 <= i < HEADER_BYTES :: d[i] == d[..FrameBytes(f) - 2][i];
  }

  /** Damage to the last payload byte and the low checksum byte passes in
      exactly one pattern besides no damage at all: three flipped payload bits
      with the matching low byte. */
  lemma StraddleExact(f: Frame, x: byte, low: byte, after: seq<byte>)
    requires Encodable(f) && f.payload != []
    ensures var last := f.payload[|f.payload| - 1];
      var changed := f.(payload := f.payload[..|f.payload| - 1] + [x]);
      Inspect(Damaged(f, FrameBytes(f) - 3, [x, low]) + after).Accept? <==>
        (x == last || Flipped(x, last)) && low == Checksum(Body(changed)) % 0x100
  {
    hide Checksum, Inspect, EncodeFrame, Flipped, Body;
    var changed := f.(payload := f.payload[..|f.payload| - 1] + [x]);
    StraddleBody(f, x, low, after);
    AcceptsByChecksum(changed, Damaged(f, FrameBytes(f) - 3, [x, low]) + after);
    LastByteAndHighHalf(Body(f)[..FrameBytes(f) - 3], x, f.payload[|f.payload| - 1]);
  }

  /** So every frame with a payload has two-byte damage that goes unnoticed. */
  lemma StraddleUndetected(f: Frame) returns (x: byte, low: byte)
    requires Encodable(f) && f.payload != []
    ensures x != f.payload[|f.payload| - 1]
    ensures Inspect(Damaged(f, FrameBytes(f) - 3, [x, low])).Accept?
  {
    hide Checksum, Inspect, EncodeFrame, Body;
    var last := f.payload[|f.payload| - 1];
    x := FlippedExists(last);
    low := Checksum(Body(f.(payload := f.payload[..|f.payload| - 1] + [x]))) % 0x100;
    XorCommutes(Word(x), Word(last));
    StraddleExact(f, x, low, []);
    assert Damaged(f, FrameBytes(f) - 3, [x, low]) + [] == Damaged(f, FrameBytes(f) - 3, [x, low]);
  }

  lemma XorCommutes(x: bv16, y: bv16)
    ensures Xor(x, y) == Xor(y, x)
  {}
}
