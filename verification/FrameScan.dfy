/** The leftmost scan: what the resynchronising parser makes of a whole byte
    stream, independently of buffers and of how the stream is cut. */
module FrameScan {
  import opened Bytes
  import opened Crc16
  import opened BridgeFrame

  datatype ScanResult = ScanResult(frames: seq<Frame>, rest: seq<byte>)

  function Scan(s: seq<byte>): (r: ScanResult)
    ensures |r.rest| <= |s|
    decreases |s|
  {
    match Inspect(s)
    case NeedMore => ScanResult([], s)
    case Drop(count) => Scan(s[count..])
    case Accept(f) =>
      var r := Scan(s[FrameBytes(f)..]);
      r.(frames := [f] + r.frames)
  }

  /** One turn of the scan, for use where the definition is hidden. */
  lemma ScanStep(s: seq<byte>)
    ensures Inspect(s).NeedMore? ==> Scan(s) == ScanResult([], s)
    ensures Inspect(s).Drop? ==> Scan(s) == Scan(s[Inspect(s).count..])
    ensures Inspect(s).Accept? ==>
      var f := Inspect(s).frame;
      && Scan(s).frames == [f] + Scan(s[FrameBytes(f)..]).frames
      && Scan(s).rest == Scan(s[FrameBytes(f)..]).rest
  {
    hide Inspect;
  }

  /** What a scan retains is the unread end of the stream. */
  lemma {:induction false} ScanRetainsSuffix(s: seq<byte>)
    ensures Scan(s).rest == s[|s| - |Scan(s).rest|..]
    decreases |s|
  {
    hide Inspect, Scan;
    ScanStep(s);
    match Inspect(s)
    case NeedMore =>
    case Drop(count) => ScanRetainsSuffix(s[count..]);
    case Accept(f) => ScanRetainsSuffix(s[FrameBytes(f)..]);
  }

  /** What a scan retains can only be decided by bytes still to come, so it is
      shorter than one maximal frame. */
  lemma {:induction false} ScanRetainsUndecided(s: seq<byte>)
    ensures Inspect(Scan(s).rest).NeedMore?
    ensures |Scan(s).rest| < MAX_FRAME_BYTES
    decreases |s|
  {
    hide Inspect;
    match Inspect(s)
    case NeedMore =>
    case Drop(count) => ScanRetainsUndecided(s[count..]);
    case Accept(f) => ScanRetainsUndecided(s[FrameBytes(f)..]);
  }

  /** Chunk independence: scanning s and then carrying on with t sees what one
      scan of the whole stream sees. */
  lemma {:induction false} ScanSplit(s: seq<byte>, t: seq<byte>)
    ensures Scan(s + t).frames == Scan(s).frames + Scan(Scan(s).rest + t).frames
    ensures Scan(s + t).rest == Scan(Scan(s).rest + t).rest
    decreases |s|
  {
    hide Inspect, Scan;
    ScanStep(s);
    if !Inspect(s).NeedMore? {
      InspectStable(s, t);
      ScanStep(s + t);
    }
    match Inspect(s)
    case NeedMore =>
    case Drop(count) =>
      assert (s + t)[count..] == s[count..] + t;
      ScanSplit(s[count..], t);
    case Accept(f) =>
      var n := FrameBytes(f);
      assert (s + t)[n..] == s[n..] + t;
      ScanSplit(s[n..], t);
      var later := Scan(Scan(s).rest + t).frames;
      assert [f] + (Scan(s[n..]).frames + later) == ([f] + Scan(s[n..]).frames) + later;
  }

  // ---- Exact emission ----

  /** Where in the stream each emitted frame starts. */
  function Starts(s: seq<byte>, base: nat): (at: seq<nat>)
    ensures |at| == |Scan(s).frames|
    decreases |s|
  {
    match Inspect(s)
    case NeedMore => []
    case Drop(count) => Starts(s[count..], base + count)
    case Accept(f) => [base] + Starts(s[FrameBytes(f)..], base + FrameBytes(f))
  }

  /** A complete valid frame starts at position p. */
  ghost predicate FrameAt(s: seq<byte>, p: nat, f: Frame) {
    p <= |s| && Encodable(f) && EncodeFrame(f) <= s[p..]
  }

  /** Emitted frames are valid where they are said to start, disjoint, in
      stream order, and end before the retained bytes. */
  ghost predicate InOrder(s: seq<byte>, base: nat, frames: seq<Frame>, at: seq<nat>, end: nat) {
    && |frames| == |at|
    && (forall i | 0 <= i < |at| :: base <= at[i] && FrameAt(s, at[i] - base, frames[i]))
    && (forall i | 0 <= i < |at| - 1 :: at[i] + FrameBytes(frames[i]) <= at[i + 1])
    && (forall i | 0 <= i < |at| :: at[i] + FrameBytes(frames[i]) <= end)
  }

  /** Position p lies strictly inside emitted frame number i. */
  predicate Inside(p: nat, frames: seq<Frame>, at: seq<nat>, i: nat)
    requires i < |at| == |frames|
  {
    at[i] < p < at[i] + FrameBytes(frames[i])
  }

  lemma StartsStep(s: seq<byte>, base: nat)
    ensures Inspect(s).NeedMore? ==> Starts(s, base) == []
    ensures Inspect(s).Drop? ==> Starts(s, base) == Starts(s[Inspect(s).count..], base + Inspect(s).count)
    ensures Inspect(s).Accept? ==>
      var n := FrameBytes(Inspect(s).frame);
      Starts(s, base) == [base] + Starts(s[n..], base + n)
  {
    hide Inspect, Scan;
  }

  /** Dropping bytes in front moves positions, not frames. */
  lemma InOrderShift(s: seq<byte>, n: nat, base: nat, frames: seq<Frame>, at: seq<nat>, end: nat)
    requires n <= |s| && InOrder(s[n..], base + n, frames, at, end)
    ensures InOrder(s, base, frames, at, end)
    ensures forall i | 0 <= i < |at| :: base + n <= at[i]
  {
    hide EncodeFrame;
    forall i | 0 <= i < |at|
      ensures base <= at[i] && FrameAt(s, at[i] - base, frames[i])
    {
      assert FrameAt(s[n..], at[i] - (base + n), frames[i]);
      assert s[at[i] - base..] == s[n..][at[i] - (base + n)..];
    }
  }

  lemma InOrderNil(s: seq<byte>, base: nat, end: nat)
    ensures InOrder(s, base, [], [], end)
  {}

  lemma InOrderCons(s: seq<byte>, f: Frame, base: nat, frames: seq<Frame>, at: seq<nat>, end: nat)
    requires Encodable(f) && EncodeFrame(f) <= s && base + FrameBytes(f) <= end
    requires InOrder(s, base, frames, at, end)
    requires forall i | 0 <= i < |at| :: base + FrameBytes(f) <= at[i]
    ensures InOrder(s, base, [f] + frames, [base] + at, end)
  {
    hide EncodeFrame;
    assert s[0..] == s;
  }

  lemma {:induction false} EmissionInOrder(s: seq<byte>, base: nat)
    ensures InOrder(s, base, Scan(s).frames, Starts(s, base), base + |s| - |Scan(s).rest|)
    decreases |s|
  {
    hide Inspect, EncodeFrame, Scan, Starts, InOrder;
    ScanStep(s);
    StartsStep(s, base);
    match Inspect(s)
    case NeedMore => InOrderNil(s, base, base);
    case Drop(n) =>
      EmissionInOrder(s[n..], base + n);
      InOrderShift(s, n, base, Scan(s).frames, Starts(s, base), base + |s| - |Scan(s).rest|);
    case Accept(f) =>
      var n := FrameBytes(f);
      var r, at := Scan(s[n..]), Starts(s[n..], base + n);
      AcceptsExactlyEncodings(s, f);
      EmissionInOrder(s[n..], base + n);
      InOrderShift(s, n, base, r.frames, at, base + |s| - |r.rest|);
      InOrderCons(s, f, base, r.frames, at, base + |s| - |r.rest|);
  }

  lemma EncodingStartsWithMagic(f: Frame, s: seq<byte>)
    requires Encodable(f) && EncodeFrame(f) <= s
    ensures |s| >= HEADER_BYTES && s[0] == MAGIC_0 && s[1] == MAGIC_1
  {
    hide Checksum;
    assert EncodeFrame(f)[0] == MAGIC_0 && EncodeFrame(f)[1] == MAGIC_1;
  }

  /** No valid frame starts among dropped bytes: not where a check failed, and
      not at the second magic byte that goes with it. */
  lemma DropsSkipNothing(s: seq<byte>, p: nat, f: Frame)
    requires Inspect(s).Drop? && p < Inspect(s).count
    ensures !FrameAt(s, p, f)
  {
    hide Checksum;
    if FrameAt(s, p, f) {
      EncodingStartsWithMagic(f, s[p..]);
      if p == 0 {
        assert s[0..] == s;
        AcceptsExactlyEncodings(s, f);
      }
    }
  }

  /** Position p is where frame f was emitted, or lies inside another one. */
  ghost predicate Explained(p: nat, f: Frame, frames: seq<Frame>, at: seq<nat>)
    requires |at| == |frames|
  {
    exists i: nat :: i < |at| && ((at[i] == p && frames[i] == f) || Inside(p, frames, at, i))
  }

  lemma ExplainedCons(p: nat, f: Frame, frames: seq<Frame>, at: seq<nat>, g: Frame, start: nat)
    requires |at| == |frames| && Explained(p, f, frames, at)
    ensures Explained(p, f, [g] + frames, [start] + at)
  {
    var i: nat :| i < |at| && ((at[i] == p && frames[i] == f) || Inside(p, frames, at, i));
    assert ([start] + at)[i + 1] == at[i] && ([g] + frames)[i + 1] == frames[i];
    assert Inside(p, frames, at, i) ==> Inside(p, [g] + frames, [start] + at, i + 1);
  }

  /** Every valid frame that starts before the retained bytes is emitted, or
      starts strictly inside an emitted one. */
  lemma {:induction false} EmissionComplete(s: seq<byte>, base: nat, p: nat, f: Frame)
    requires base <= p < base + |s| - |Scan(s).rest| && FrameAt(s, p - base, f)
    ensures Explained(p, f, Scan(s).frames, Starts(s, base))
    decreases |s|
  {
    hide Inspect, EncodeFrame, Scan, Starts;
    ScanStep(s);
    StartsStep(s, base);
    match Inspect(s)
    case NeedMore =>
    case Drop(n) =>
      if p < base + n {
        DropsSkipNothing(s, p - base, f);
      } else {
        assert s[n..][p - base - n..] == s[p - base..];
        EmissionComplete(s[n..], base + n, p, f);
      }
    case Accept(g) =>
      var n := FrameBytes(g);
      var r, at := Scan(s[n..]), Starts(s[n..], base + n);
      if p == base {
        assert s[0..] == s;
        AcceptsExactlyEncodings(s, f);
        assert Starts(s, base)[0] == p && Scan(s).frames[0] == f;
      } else if p < base + n {
        assert Inside(p, Scan(s).frames, Starts(s, base), 0);
      } else {
        assert s[n..][p - base - n..] == s[p - base..];
        EmissionComplete(s[n..], base + n, p, f);
        ExplainedCons(p, f, r.frames, at, g, base);
      }
  }

  lemma {:induction false} InOrderApart(s: seq<byte>, frames: seq<Frame>, at: seq<nat>, end: nat, i: nat, j: nat)
    requires InOrder(s, 0, frames, at, end) && i < j < |at|
    ensures at[i] + FrameBytes(frames[i]) <= at[j]
    decreases j
  {
    if i < j - 1 {
      InOrderApart(s, frames, at, end, i, j - 1);
    }
  }

  /** A valid frame at position p of the consumed stream is emitted if and only
      if p is not strictly inside another emitted frame. */
  lemma ExactEmission(s: seq<byte>, p: nat, f: Frame)
    requires p < |s| - |Scan(s).rest| && FrameAt(s, p, f)
    ensures InOrder(s, 0, Scan(s).frames, Starts(s, 0), |s| - |Scan(s).rest|)
    ensures (exists i: nat :: i < |Starts(s, 0)| && Starts(s, 0)[i] == p && Scan(s).frames[i] == f)
        <==> !exists i: nat :: i < |Starts(s, 0)| && Inside(p, Scan(s).frames, Starts(s, 0), i)
  {
    hide Inspect, EncodeFrame, Scan, Starts;
    var frames, at, end := Scan(s).frames, Starts(s, 0), |s| - |Scan(s).rest|;
    EmissionInOrder(s, 0);
    EmissionComplete(s, 0, p, f);
    forall i: nat, j: nat | i < |at| && j < |at| && at[i] == p
      ensures !Inside(p, frames, at, j)
    {
      if i < j { InOrderApart(s, frames, at, end, i, j); }
      if j < i { InOrderApart(s, frames, at, end, j, i); }
    }
  }

  // ---- Round trip through noise ----

  /** No two adjacent bytes look like the magic. */
  predicate Quiet(noise: seq<byte>) {
    forall i | 0 <= i < |noise| - 1 :: noise[i] != MAGIC_0 || noise[i + 1] != MAGIC_1
  }

  /** A first byte that opens no magic is dropped. */
  lemma DropOne(s: seq<byte>)
    requires |s| >= 2 && (s[0] != MAGIC_0 || s[1] != MAGIC_1)
    ensures Scan(s) == Scan(s[1..])
  {
    hide Checksum, Scan;
    ScanStep(s);
  }

  lemma TooShort(s: seq<byte>)
    requires |s| < 2
    ensures Inspect(s) == NeedMore
  {}

  lemma {:induction false} SkipNoise(noise: seq<byte>, t: seq<byte>)
    requires Quiet(noise) && |t| > 0 && t[0] != MAGIC_1
    ensures Scan(noise + t) == Scan(t)
    decreases |noise|
  {
    hide Scan;
    if noise == [] {
      assert noise + t == t;
    } else {
      assert (noise + t)[1..] == noise[1..] + t;
      assert (noise + t)[0] != MAGIC_0 || (noise + t)[1] != MAGIC_1;
      DropOne(noise + t);
      SkipNoise(noise[1..], t);
    }
  }

  lemma {:induction false} NoiseAlone(noise: seq<byte>)
    requires Quiet(noise)
    ensures Scan(noise).frames == [] && |Scan(noise).rest| <= 1
    decreases |noise|
  {
    hide Scan, Inspect;
    if |noise| >= 2 {
      DropOne(noise);
      NoiseAlone(noise[1..]);
    } else {
      TooShort(noise);
      ScanStep(noise);
    }
  }

  /** Frames, each preceded by noise. */
  function NoisyStream(noise: seq<seq<byte>>, frames: seq<Frame>): seq<byte>
    requires |noise| == |frames|
    requires forall f | f in frames :: Encodable(f)
  {
    if frames == [] then []
    else noise[0] + (EncodeFrame(frames[0]) + NoisyStream(noise[1..], frames[1..]))
  }

  lemma NoisyFrame(noise: seq<byte>, f: Frame, after: seq<byte>)
    requires Quiet(noise) && Encodable(f)
    ensures Scan(noise + (EncodeFrame(f) + after)).frames == [f] + Scan(after).frames
    ensures Scan(noise + (EncodeFrame(f) + after)).rest == Scan(after).rest
  {
    hide EncodeFrame, Inspect, Scan;
    var s := EncodeFrame(f) + after;
    EncodingStartsWithMagic(f, s);
    SkipNoise(noise, s);
    AcceptsExactlyEncodings(s, f);
    ScanStep(s);
    assert s[FrameBytes(f)..] == after;
  }

  /** Encoded frames interleaved with quiet noise come back exactly, in order;
      at most one byte of the trailing noise is retained. */
  lemma {:induction false} NoisyRoundTrip(noise: seq<seq<byte>>, frames: seq<Frame>, tail: seq<byte>)
    requires |noise| == |frames|
    requires forall f | f in frames :: Encodable(f)
    requires (forall g | g in noise :: Quiet(g)) && Quiet(tail)
    ensures Scan(NoisyStream(noise, frames) + tail).frames == frames
    ensures |Scan(NoisyStream(noise, frames) + tail).rest| <= 1
    decreases |frames|
  {
    hide EncodeFrame, Scan, Quiet;
    if frames == [] {
      assert NoisyStream(noise, frames) + tail == tail;
      NoiseAlone(tail);
    } else {
      var e := EncodeFrame(frames[0]);
      var after := NoisyStream(noise[1..], frames[1..]) + tail;
      assert NoisyStream(noise, frames) + tail == noise[0] + (e + after);
      NoisyFrame(noise[0], frames[0], after);
      NoisyRoundTrip(noise[1..], frames[1..], tail);
    }
  }

  /** Frames sent back to back. */
  function Wire(frames: seq<Frame>): seq<byte>
    requires forall f | f in frames :: Encodable(f)
  {
    if frames == [] then [] else EncodeFrame(frames[0]) + Wire(frames[1..])
  }

  /** A clean stream decodes to exactly the frames that were sent, and leaves
      nothing behind. */
  lemma {:induction false} WireRoundTrip(frames: seq<Frame>)
    requires forall f | f in frames :: Encodable(f)
    ensures Scan(Wire(frames)) == ScanResult(frames, [])
    decreases |frames|
  {
    hide Checksum, EncodeFrame, Inspect;
    if frames == [] {
      TooShort([]);
    } else {
      var e := EncodeFrame(frames[0]);
      AcceptsExactlyEncodings(e + Wire(frames[1..]), frames[0]);
      assert (e + Wire(frames[1..]))[FrameBytes(frames[0])..] == Wire(frames[1..]);
      WireRoundTrip(frames[1..]);
    }
  }

  lemma {:induction false} WireSnoc(frames: seq<Frame>, f: Frame)
    requires (forall g | g in frames :: Encodable(g)) && Encodable(f)
    ensures Wire(frames + [f]) == Wire(frames) + EncodeFrame(f)
    decreases |frames|
  {
    hide EncodeFrame;
    if frames == [] {
      assert [f][1..] == [];
      assert EncodeFrame(f) + [] == EncodeFrame(f);
    } else {
      assert (frames + [f])[1..] == frames[1..] + [f];
      WireSnoc(frames[1..], f);
    }
  }
}
