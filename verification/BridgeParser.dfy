/** The resynchronising parser over its fixed buffer, in place, refining the
    leftmost scan. */
module BridgeParser {
  import opened Bytes
  import opened Crc16
  import opened BridgeFrame
  import opened FrameScan

  const BUFFER_BYTES: nat := 2 * MAX_FRAME_BYTES

  /** The buffer a feed starts from: only a completely full one loses a byte. */
  function MakeRoom(buffered: seq<byte>): seq<byte> {
    if |buffered| == BUFFER_BYTES then buffered[1..] else buffered
  }

  /** A buffer as every feed leaves it has room for more than a whole frame. */
  predicate Settled(buffered: seq<byte>) {
    |buffered| < MAX_FRAME_BYTES
  }

  class Parser {
    const bytes: array<byte>
    var length: nat

    ghost predicate Valid()
      reads this
    {
      bytes.Length == BUFFER_BYTES && length <= BUFFER_BYTES
    }

    ghost function Buffered(): (s: seq<byte>)
      requires Valid()
      reads this, bytes
      ensures |s| == length
    {
      bytes[..length]
    }

    constructor ()
      ensures Valid() && fresh(bytes) && Buffered() == []
    {
      bytes := new byte[BUFFER_BYTES];
      length := 0;
    }

    method DiscardPrefix(count: nat)
      requires Valid()
      modifies this`length, bytes
      ensures Valid()
      ensures Buffered() == if count >= old(length) then [] else old(Buffered())[count..]
    {
      if count >= length {
        length := 0;
        return;
      }
      forall i | 0 <= i < length - count {
        bytes[i] := bytes[i + count];
      }
      length := length - count;
    }

    /** How many bytes precede the first magic pair, or all but the last byte. */
    method FindMagic() returns (magic: nat)
      requires Valid() && length >= 2
      ensures magic < length && Quiet(Buffered()[..magic + 1])
      ensures magic + 1 == length || (bytes[magic] == MAGIC_0 && bytes[magic + 1] == MAGIC_1)
    {
      magic := 0;
      while magic + 1 < length && (bytes[magic] != MAGIC_0 || bytes[magic + 1] != MAGIC_1)
        invariant magic < length && Quiet(Buffered()[..magic + 1])
      {
        magic := magic + 1;
      }
    }

    /** Brings the first magic pair, if there is one, to the front. */
    method Align()
      requires Valid() && length >= 2
      modifies this`length, bytes
      ensures Valid() && 1 <= length <= old(length)
      ensures Scan(Buffered()) == Scan(old(Buffered()))
      ensures length >= 2 ==> bytes[0] == MAGIC_0 && bytes[1] == MAGIC_1
    {
      hide Scan, Quiet;
      var magic := FindMagic();
      SkipTo(Buffered(), magic);
      if magic > 0 {
        DiscardPrefix(magic);
      }
      assert magic == 0 ==> Buffered()[magic..] == Buffered();
      assert length >= 2 ==> bytes[0] == Buffered()[0] && bytes[1] == Buffered()[1];
    }

    /** The decision about a buffer that starts with the magic, or is too short
        to. */
    method Decide() returns (verdict: Verdict)
      requires Valid()
      requires length >= 2 ==> bytes[0] == MAGIC_0 && bytes[1] == MAGIC_1
      ensures verdict == Inspect(Buffered())
    {
      hide Checksum;
      if length < HEADER_BYTES {
        return NeedMore;
      }
      if bytes[2] != VERSION {
        return Drop(2);
      }
      var payloadLength := ReadU16(bytes[6], bytes[7]);
      if payloadLength > MAX_PAYLOAD {
        return Drop(2);
      }
      var total := HEADER_BYTES + payloadLength + CRC_BYTES;
      if length < total {
        return NeedMore;
      }
      var expected := ReadU16(bytes[total - CRC_BYTES], bytes[total - CRC_BYTES + 1]);
      var actual := Compute(bytes, total - CRC_BYTES);
      assert bytes[..total - CRC_BYTES] == Buffered()[..total - CRC_BYTES];
      if actual != expected {
        return Drop(1);
      }
      assert bytes[8..8 + payloadLength] == Buffered()[8..8 + payloadLength];
      return Accept(Frame(bytes[3], ReadU16(bytes[4], bytes[5]), bytes[8..8 + payloadLength]));
    }

    /** One turn of the loop: the next frame, a dropped prefix, or, when more
        bytes are needed, neither. */
    method ParseOne() returns (more: bool, found: seq<Frame>)
      requires Valid() && length >= 2
      modifies this`length, bytes
      ensures Valid() && (more ==> length < old(length)) && (!more ==> found == [] && Settled(Buffered()))
      ensures found + Scan(Buffered()).frames == Scan(old(Buffered())).frames
      ensures Scan(Buffered()).rest == Scan(old(Buffered())).rest
      ensures !more ==> Scan(Buffered()) == ScanResult([], Buffered())
    {
      hide Inspect, Scan;
      Align();
      var verdict := Decide();
      ghost var aligned := Buffered();
      ScanStep(aligned);
      match verdict
      case NeedMore =>
        return false, [];
      case Drop(count) =>
        DiscardPrefix(count);
        assert Buffered() == aligned[count..];
        return true, [];
      case Accept(frame) =>
        DiscardPrefix(FrameBytes(frame));
        assert Buffered() == aligned[FrameBytes(frame)..];
        return true, [frame];
    }

    /** Parses everything that can be decided; `frames` lists the callbacks in
        the order they are made. */
    method ParseAvailable() returns (frames: seq<Frame>)
      requires Valid()
      modifies this`length, bytes
      ensures Valid() && Settled(Buffered())
      ensures ScanResult(frames, Buffered()) == Scan(old(Buffered()))
    {
      hide Inspect, Scan;
      frames := [];
      ghost var whole := Scan(Buffered());
      while length >= 2
        invariant Valid()
        invariant frames + Scan(Buffered()).frames == whole.frames
        invariant Scan(Buffered()).rest == whole.rest
        decreases length
      {
        var more, found := ParseOne();
        frames := frames + found;
        if !more {
          return;
        }
      }
      TooShort(Buffered());
      ScanStep(Buffered());
      ScanRetainsUndecided(Buffered());
    }

    /** Copies in one piece that fits, and parses. */
    method Absorb(piece: seq<byte>) returns (frames: seq<Frame>)
      requires Valid() && length + |piece| <= BUFFER_BYTES
      modifies this`length, bytes
      ensures Valid() && Settled(Buffered())
      ensures ScanResult(frames, Buffered()) == Scan(old(Buffered()) + piece)
    {
      hide Scan;
      forall i | 0 <= i < |piece| {
        bytes[length + i] := piece[i];
      }
      length := length + |piece|;
      assert Buffered() == old(Buffered()) + piece;
      frames := ParseAvailable();
    }

    /** Takes any number of bytes, copying no more at a time than the buffer has
        room for. What comes out and what is kept is one leftmost scan of the
        old buffer followed by the input. */
    method Feed(input: seq<byte>) returns (frames: seq<Frame>)
      requires Valid()
      modifies this`length, bytes
      ensures Valid()
      ensures input == [] ==> frames == [] && Buffered() == old(Buffered())
      ensures input != [] ==> Settled(Buffered())
      ensures input != [] ==> ScanResult(frames, Buffered()) == Scan(MakeRoom(old(Buffered())) + input)
    {
      hide Scan;
      frames := [];
      var offset := 0;
      ghost var start := MakeRoom(Buffered());
      while offset < |input|
        invariant Valid() && offset <= |input|
        invariant offset == 0 ==> frames == [] && Buffered() == old(Buffered())
        invariant offset > 0 ==> Settled(Buffered())
        invariant offset > 0 ==> ScanResult(frames, Buffered()) == Scan(start + input[..offset])
      {
        var available := BUFFER_BYTES - length;
        if available == 0 {
          DiscardPrefix(1);
          available := BUFFER_BYTES - length;
        }
        var chunk := |input| - offset;
        if chunk > available {
          chunk := available;
        }
        ghost var kept := Buffered();
        var more := Absorb(input[offset..offset + chunk]);
        FeedStep(start, input, offset, chunk, ScanResult(frames, kept), ScanResult(more, Buffered()));
        frames := frames + more;
        offset := offset + chunk;
      }
      assert input[..|input|] == input;
    }
  }

  /** One turn of the feed loop extends the part of the input scanned so far. */
  lemma FeedStep(start: seq<byte>, input: seq<byte>, offset: nat, chunk: nat, sofar: ScanResult, more: ScanResult)
    requires offset + chunk <= |input|
    requires if offset == 0 then sofar == ScanResult([], start) else sofar == Scan(start + input[..offset])
    requires more == Scan(sofar.rest + input[offset..offset + chunk])
    ensures ScanResult(sofar.frames + more.frames, more.rest) == Scan(start + input[..offset + chunk])
  {
    hide Scan;
    var piece := input[offset..offset + chunk];
    if offset == 0 {
      assert piece == input[..chunk];
    } else {
      ScanSplit(start + input[..offset], piece);
      assert (start + input[..offset]) + piece == start + input[..offset + chunk];
    }
  }

  /** Quiet bytes in front of a magic pair, or of the last byte, do not matter. */
  lemma {:induction false} SkipTo(s: seq<byte>, n: nat)
    requires n < |s| && Quiet(s[..n + 1])
    ensures Scan(s[n..]) == Scan(s)
    decreases n
  {
    hide Scan;
    if n == 0 {
      assert s[0..] == s;
    } else {
      assert s[..n + 1][0] == s[0] && s[..n + 1][1] == s[1];
      DropOne(s);
      assert s[1..][..n] == s[..n + 1][1..];
      SkipTo(s[1..], n - 1);
      assert s[1..][n - 1..] == s[n..];
    }
  }

  // ---- Any cutting of the stream into feeds ----

  /** What one feed does to the kept bytes, as a function. */
  function FeedOnce(kept: seq<byte>, input: seq<byte>): ScanResult {
    if input == [] then ScanResult([], kept) else Scan(MakeRoom(kept) + input)
  }

  function FeedEach(kept: seq<byte>, pieces: seq<seq<byte>>): ScanResult
    decreases |pieces|
  {
    if pieces == [] then ScanResult([], kept)
    else
      var first := FeedOnce(kept, pieces[0]);
      var later := FeedEach(first.rest, pieces[1..]);
      ScanResult(first.frames + later.frames, later.rest)
  }

  lemma EmptyScan()
    ensures Scan([]) == ScanResult([], [])
  {
    hide Scan;
    TooShort([]);
    ScanStep([]);
  }

  lemma {:induction false} CutsFrom(before: seq<byte>, pieces: seq<seq<byte>>)
    ensures var all, r := Scan(before + Flatten(pieces)), FeedEach(Scan(before).rest, pieces);
      all.frames == Scan(before).frames + r.frames && all.rest == r.rest
    decreases |pieces|
  {
    hide Scan;
    if pieces == [] {
      assert before + Flatten(pieces) == before;
    } else {
      var here := before + pieces[0];
      assert before + Flatten(pieces) == here + Flatten(pieces[1..]);
      CutsFrom(here, pieces[1..]);
      ScanRetainsUndecided(before);
      ScanSplit(before, pieces[0]);
      if pieces[0] == [] {
        assert here == before;
      }
    }
  }

  /** However a stream is cut, feeding the pieces to a fresh parser makes the
      callbacks, and keeps the bytes, of one scan of the whole stream. */
  lemma CutsDoNotMatter(pieces: seq<seq<byte>>)
    ensures FeedEach([], pieces) == Scan(Flatten(pieces))
  {
    EmptyScan();
    CutsFrom([], pieces);
    assert [] + Flatten(pieces) == Flatten(pieces);
  }
}
