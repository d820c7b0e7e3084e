/** The bridge checksum: polynomial 0x1021, most significant bit first,
    register preset to 0xFFFF, no final complement. */
module Crc16 {
  import opened Bytes
  import opened Iteration

  const PRESET: bv16 := 0xffff

  function BitStep(crc: bv16): bv16 {
    if crc & 0x8000 != 0 then (crc << 1) ^ 0x1021 else crc << 1
  }

  function Xor(x: bv16, y: bv16): bv16 {
    x ^ y
  }

  /** A byte widened to a register word, nibble by nibble. */
  function Word(b: byte): bv16 {
    (((b / 16) as bv16) << 4) | ((b % 16) as bv16)
  }

  /** One byte as it enters the register: in the high half. */
  function High(b: byte): bv16 {
    Word(b) << 8
  }

  function Shift(crc: bv16): bv16 {
    Iterate(BitStep, 8, crc)
  }

  function ByteStep(crc: bv16, b: byte): bv16 {
    Shift(Xor(crc, High(b)))
  }

  function Register(crc: bv16, s: seq<byte>): bv16 {
    if s == [] then crc else ByteStep(Register(crc, s[..|s| - 1]), s[|s| - 1])
  }

  /** The final register as a number, reached in `steps` steps. The steps compute
      nothing: with them, a contract or a proof that mentions a checksum does not
      by itself unfold to bit vectors, also where `hide` cannot be written. */
  function Folded(s: seq<byte>, steps: nat): u16
    decreases steps, |s|
  {
    if steps == 0 then Register(PRESET, s) as int else Folded(s, steps - 1)
  }

  /** The checksum as the 16-bit number that goes on the wire. */
  function Checksum(s: seq<byte>): u16 {
    Folded(s, 3)
  }

  lemma {:induction false} FoldedIsRegister(s: seq<byte>, steps: nat)
    ensures Folded(s, steps) == Register(PRESET, s) as int
    decreases steps
  {
    if steps == 0 {
    } else {
      FoldedIsRegister(s, steps - 1);
    }
  }

  lemma ChecksumIsRegister(s: seq<byte>)
    ensures Checksum(s) == Register(PRESET, s) as int
  {
    FoldedIsRegister(s, 3);
  }

  /** The nested loops, run over the first `length` bytes of a buffer. */
  method Compute(bytes: array<byte>, length: nat) returns (checksum: u16)
    requires length <= bytes.Length
    ensures checksum == Checksum(bytes[..length])
  {
    var crc := PRESET;
    for index := 0 to length
      invariant crc == Register(PRESET, bytes[..index])
    {
      assert bytes[..index + 1][..index] == bytes[..index];
      crc := MixByte(crc, bytes[index]);
    }
    checksum := crc as int;
    ChecksumIsRegister(bytes[..length]);
  }

  /** One turn of the outer loop. */
  method MixByte(crc: bv16, b: byte) returns (next: bv16)
    ensures next == ByteStep(crc, b)
  {
    next := crc ^ (Word(b) << 8);
    ghost var mixed := next;
    for bit := 0 to 8
      invariant Iterate(BitStep, 8 - bit, next) == Iterate(BitStep, 8, mixed)
    {
      next := if next & 0x8000 != 0 then (next << 1) ^ 0x1021 else next << 1;
    }
  }

  // ---- The bit step is linear over exclusive or, and one-to-one ----

  /** The bit step without its branch: the top bit feeds bits 0, 5 and 12. */
  function Feedback(x: bv16): bv16 {
    var top := x >> 15;
    (x << 1) ^ (top | (top << 5) | (top << 12))
  }

  lemma TopBitClear(x: bv16)
    requires x & 0x8000 == 0
    ensures x >> 15 == 0
  {}

  lemma TopBitSet(x: bv16)
    requires x & 0x8000 != 0
    ensures x >> 15 == 1
  {}

  lemma FeedbackIsBitStep(x: bv16)
    ensures Feedback(x) == BitStep(x)
  {
    if x & 0x8000 == 0 { TopBitClear(x); } else { TopBitSet(x); }
  }

  lemma FeedbackLinear(x: bv16, y: bv16)
    ensures Feedback(x ^ y) == Feedback(x) ^ Feedback(y)
  {}

  lemma BitStepDistributes(x: bv16, y: bv16)
    ensures BitStep(x ^ y) == BitStep(x) ^ BitStep(y)
  {
    FeedbackIsBitStep(x);
    FeedbackIsBitStep(y);
    FeedbackIsBitStep(x ^ y);
    FeedbackLinear(x, y);
  }

  lemma BitStepLinear()
    ensures Additive(BitStep, Xor)
  {
    forall x, y
      ensures BitStep(Xor(x, y)) == Xor(BitStep(x), BitStep(y))
    {
      BitStepDistributes(x, y);
    }
  }

  /** Undoes one step: the bit that was shifted out is now bit 0. */
  function StepBack(y: bv16): bv16 {
    var low := y & 1;
    ((y ^ (low | (low << 5) | (low << 12))) >> 1) | (low << 15)
  }

  lemma StepBackUndoes(x: bv16)
    ensures StepBack(Feedback(x)) == x
  {}

  lemma BitStepInjective()
    ensures Injective(BitStep)
  {
    forall x, y | BitStep(x) == BitStep(y)
      ensures x == y
    {
      hide BitStep, Feedback, StepBack;
      FeedbackIsBitStep(x);
      FeedbackIsBitStep(y);
      StepBackUndoes(x);
      StepBackUndoes(y);
    }
  }

  /** A byte's worth of bit steps is linear ... */
  lemma ShiftLinear(x: bv16, y: bv16)
    ensures Shift(Xor(x, y)) == Xor(Shift(x), Shift(y))
  {
    BitStepLinear();
    IterateAdditive(BitStep, Xor, 8, x, y);
  }

  /** ... and one-to-one. */
  lemma ShiftInjective(x: bv16, y: bv16)
    requires x != y
    ensures Shift(x) != Shift(y)
  {
    BitStepInjective();
    IterateInjective(BitStep, 8, x, y);
  }

  // ---- What eight bit steps do to a difference in the high half ----

  function Feedback8(x: bv16): bv16 {
    Feedback(Feedback(Feedback(Feedback(Feedback(Feedback(Feedback(Feedback(x))))))))
  }

  lemma {:induction false} IterateFeedback(x: bv16, n: nat)
    ensures Iterate(BitStep, n, x) == Iterate(Feedback, n, x)
    decreases n
  {
    if n == 0 {
    } else {
      FeedbackIsBitStep(x);
      IterateFeedback(Feedback(x), n - 1);
    }
  }

  lemma Unroll<T>(f: T -> T, x: T)
    ensures Iterate(f, 8, x) == f(f(f(f(f(f(f(f(x))))))))
  {
    var y := f(f(f(f(x))));
    assert Iterate(f, 6, f(f(x))) == Iterate(f, 4, y);
    assert Iterate(f, 2, f(f(y))) == f(f(f(f(y))));
  }

  lemma ShiftIsFeedback8(x: bv16)
    ensures Shift(x) == Feedback8(x)
  {
    IterateFeedback(x, 8);
    Unroll(Feedback, x);
  }

  lemma Feedback8OfHighHalf(d: bv16)
    requires d & 0xff == 0
    ensures Feedback8(d) & 0xff == 0 ==> d == 0
    ensures Feedback8(d) & 0xff00 == 0 ==> d == 0 || d == 0x8900
  {}

  lemma Feedback8Of8900()
    ensures Feedback8(0x8900) == 0xa1
  {}

  // ---- Bytes and words in the register ----

  lemma NibbleRoundTrip(n: nat)
    requires n < 16
    ensures (n as bv16) as int == n
    ensures (n as bv16) < 16
  {}

  lemma NibblesFit(p: bv16, q: bv16)
    requires p < 16 && q < 16
    ensures (p << 4) | q < 0x100
    ensures ((p << 4) | q) >> 4 == p && ((p << 4) | q) & 0xf == q
  {}

  lemma WordInjective(a: byte, b: byte)
    requires Word(a) == Word(b)
    ensures a == b
  {
    NibbleRoundTrip(a / 16);
    NibbleRoundTrip(a % 16);
    NibbleRoundTrip(b / 16);
    NibbleRoundTrip(b % 16);
    NibblesFit((a / 16) as bv16, (a % 16) as bv16);
    NibblesFit((b / 16) as bv16, (b % 16) as bv16);
  }

  lemma WordFits(b: byte)
    ensures Word(b) < 0x100
  {
    NibbleRoundTrip(b / 16);
    NibbleRoundTrip(b % 16);
    NibblesFit((b / 16) as bv16, (b % 16) as bv16);
  }

  lemma WordRoundTrip(w: bv16)
    ensures (w as int) as bv16 == w
  {}

  lemma HighHalfRoundTrip(x: bv16)
    requires x < 0x100
    ensures (x << 8) >> 8 == x && (x << 8) & 0xff == 0
  {}

  lemma HighInjective(a: byte, b: byte)
    ensures High(a) & 0xff == 0
    ensures a != b ==> High(a) != High(b)
  {
    WordFits(a);
    WordFits(b);
    HighHalfRoundTrip(Word(a));
    HighHalfRoundTrip(Word(b));
    if Word(a) == Word(b) { WordInjective(a, b); }
  }

  lemma XorCancelLeft(x: bv16, y: bv16)
    ensures Xor(Xor(x, y), x) == y
  {}

  lemma XorCancelRight(x: bv16, y: bv16)
    ensures Xor(Xor(x, y), y) == x
  {}

  lemma XorPairs(x: bv16, y: bv16, z: bv16)
    ensures Xor(Xor(x, y), Xor(x, z)) == Xor(y, z)
  {}

  lemma XorZero(x: bv16, y: bv16)
    requires Xor(x, y) == 0
    ensures x == y
  {}

  lemma XorLowHalf(x: bv16, y: bv16)
    requires x & 0xff == 0 && y & 0xff == 0
    ensures Xor(x, y) & 0xff == 0
  {}

  /** Words whose low halves differ stay different when bytes are mixed into
      their high halves. */
  lemma LowHalvesDiffer(x: bv16, y: bv16, p: bv16, q: bv16)
    requires Xor(x, y) & 0xff != 0
    requires p & 0xff == 0 && q & 0xff == 0
    ensures Xor(x, p) != Xor(y, q)
  {}

  lemma ByteDecides(c: bv16, a: byte, b: byte)
    requires a != b
    ensures ByteStep(c, a) != ByteStep(c, b)
  {
    HighInjective(a, b);
    XorCancelLeft(c, High(a));
    XorCancelLeft(c, High(b));
    ShiftInjective(Xor(c, High(a)), Xor(c, High(b)));
  }

  lemma RegisterDecides(c: bv16, d: bv16, a: byte)
    requires c != d
    ensures ByteStep(c, a) != ByteStep(d, a)
  {
    XorCancelRight(c, High(a));
    XorCancelRight(d, High(a));
    ShiftInjective(Xor(c, High(a)), Xor(d, High(a)));
  }

  /** For a fixed register the new register determines the byte, and for a
      fixed byte it determines the old register. */
  lemma ByteStepBijective(c: bv16, d: bv16, a: byte, b: byte)
    ensures a != b ==> ByteStep(c, a) != ByteStep(c, b)
    ensures c != d ==> ByteStep(c, a) != ByteStep(d, a)
  {
    if a != b { ByteDecides(c, a, b); }
    if c != d { RegisterDecides(c, d, a); }
  }

  /** The difference of two one-byte steps depends only on the difference of
      the two bytes, not on the register. */
  lemma ByteStepDifference(c: bv16, a: byte, b: byte)
    ensures Xor(ByteStep(c, a), ByteStep(c, b)) == Shift(Xor(High(a), High(b)))
  {
    ShiftLinear(Xor(c, High(a)), Xor(c, High(b)));
    XorPairs(c, High(a), High(b));
  }

  lemma FirstOfTwoBytes(c: bv16, a: byte, b: byte, x: byte, y: byte)
    requires a != x
    ensures Xor(ByteStep(c, a), High(b)) != Xor(ByteStep(c, x), High(y))
  {
    HighInjective(a, x);
    HighInjective(x, a);
    HighInjective(b, y);
    HighInjective(y, b);
    ByteStepDifference(c, a, x);
    OneByteDifference(High(a), High(x));
    LowHalvesDiffer(ByteStep(c, a), ByteStep(c, x), High(b), High(y));
  }

  /** Two changed bytes in a row always leave a trace. */
  lemma TwoByteBurst(c: bv16, a: byte, b: byte, x: byte, y: byte)
    requires a != x || b != y
    ensures ByteStep(ByteStep(c, a), b) != ByteStep(ByteStep(c, x), y)
  {
    if a == x {
      ByteDecides(ByteStep(c, a), b, y);
    } else {
      FirstOfTwoBytes(c, a, b, x, y);
      ShiftInjective(Xor(ByteStep(c, a), High(b)), Xor(ByteStep(c, x), High(y)));
    }
  }

  lemma OneByteDifference(p: bv16, q: bv16)
    requires p & 0xff == 0 && q & 0xff == 0 && p != q
    ensures Shift(Xor(p, q)) & 0xff != 0
    ensures Shift(Xor(p, q)) & 0xff00 == 0 ==> Xor(p, q) == 0x8900
  {
    XorLowHalf(p, q);
    if Xor(p, q) == 0 { XorZero(p, q); }
    ShiftIsFeedback8(Xor(p, q));
    Feedback8OfHighHalf(Xor(p, q));
  }

  lemma {:induction false} RegisterSplit(c: bv16, s: seq<byte>, t: seq<byte>)
    ensures Register(c, s + t) == Register(Register(c, s), t)
  {
    if t == [] {
      assert s + t == s;
    } else {
      assert (s + t)[..|s + t| - 1] == s + t[..|t| - 1];
      RegisterSplit(c, s, t[..|t| - 1]);
    }
  }

  lemma {:induction false} RegisterInjective(c: bv16, d: bv16, s: seq<byte>)
    requires c != d
    ensures Register(c, s) != Register(d, s)
  {
    if s == [] {
    } else {
      RegisterInjective(c, d, s[..|s| - 1]);
      RegisterDecides(Register(c, s[..|s| - 1]), Register(d, s[..|s| - 1]), s[|s| - 1]);
    }
  }

  lemma RegisterShort(c: bv16, a: byte, b: byte)
    ensures Register(c, [a]) == ByteStep(c, a)
    ensures Register(c, [a, b]) == ByteStep(ByteStep(c, a), b)
  {
    assert [a][..0] == [];
    assert [a, b][..1] == [a];
  }

  lemma ShortBurst(c: bv16, x: seq<byte>, y: seq<byte>)
    requires |x| == |y| <= 2 && x != y
    ensures Register(c, x) != Register(c, y)
  {
    if |x| == 1 {
      assert x == [x[0]] && y == [y[0]];
      RegisterShort(c, x[0], x[0]);
      RegisterShort(c, y[0], y[0]);
      ByteDecides(c, x[0], y[0]);
    } else {
      assert x == [x[0], x[1]] && y == [y[0], y[1]];
      RegisterShort(c, x[0], x[1]);
      RegisterShort(c, y[0], y[1]);
      TwoByteBurst(c, x[0], x[1], y[0], y[1]);
    }
  }

  /** A change confined to one byte, or to two adjacent bytes, changes the
      checksum, whatever surrounds it. */
  lemma BurstChangesChecksum(before: seq<byte>, x: seq<byte>, y: seq<byte>, after: seq<byte>)
    requires |x| == |y| <= 2 && x != y
    ensures Checksum(before + x + after) != Checksum(before + y + after)
  {
    hide Checksum;
    ChecksumIsRegister(before + x + after);
    ChecksumIsRegister(before + y + after);
    var c := Register(PRESET, before);
    ShortBurst(c, x, y);
    RegisterSplit(PRESET, before, x);
    RegisterSplit(PRESET, before, y);
    RegisterSplit(PRESET, before + x, after);
    RegisterSplit(PRESET, before + y, after);
    RegisterInjective(Register(c, x), Register(c, y), after);
    WordRoundTrip(Register(PRESET, before + x + after));
    WordRoundTrip(Register(PRESET, before + y + after));
  }

  // ---- One changed byte, seen in the two halves of the checksum ----

  lemma Halves(w: bv16)
    ensures (w as int) == 0x100 * ((w >> 8) as int) + ((w & 0xff) as int)
  {}

  lemma HalvesFit(w: bv16)
    ensures ((w >> 8) as int) < 0x100 && ((w & 0xff) as int) < 0x100
  {}

  lemma HighHalfDifference(x: bv16, y: bv16)
    ensures x >> 8 == y >> 8 <==> Xor(x, y) & 0xff00 == 0
  {}

  lemma HighByte(w: bv16)
    ensures (w as int) / 0x100 == (w >> 8) as int
  {
    Halves(w);
    HalvesFit(w);
  }

  lemma WordsAsInts(x: bv16, y: bv16)
    ensures x as int == y as int <==> x == y
  {
    WordRoundTrip(x);
    WordRoundTrip(y);
  }

  lemma HighHalfAsByte(x: bv16, y: bv16)
    ensures (x as int) / 0x100 == (y as int) / 0x100 <==> Xor(x, y) & 0xff00 == 0
  {
    hide Xor;
    HighByte(x);
    HighByte(y);
    WordsAsInts(x >> 8, y >> 8);
    HighHalfDifference(x, y);
  }

  lemma XorOfHighs(x: bv16, y: bv16)
    ensures Xor(x << 8, y << 8) == Xor(x, y) << 8
  {}

  lemma ShiftedPattern(x: bv16)
    requires x < 0x100
    ensures x << 8 == 0x8900 <==> x == 0x89
  {}

  lemma XorFits(x: bv16, y: bv16)
    requires x < 0x100 && y < 0x100
    ensures Xor(x, y) < 0x100
  {}

  /** The one non-trivial byte difference that leaves the high half alone. */
  predicate Flipped(a: byte, b: byte) {
    Xor(Word(a), Word(b)) == 0x89
  }

  lemma HighsDifference(a: byte, b: byte)
    ensures Xor(High(a), High(b)) == Xor(Word(a), Word(b)) << 8
  {
    hide Xor, Word;
    XorOfHighs(Word(a), Word(b));
  }

  lemma FlippedIsPattern(a: byte, b: byte)
    ensures Flipped(a, b) <==> Xor(High(a), High(b)) == 0x8900
  {
    hide Xor, Word, High;
    WordFits(a);
    WordFits(b);
    XorFits(Word(a), Word(b));
    HighsDifference(a, b);
    ShiftedPattern(Xor(Word(a), Word(b)));
  }

  lemma ShiftOfPattern()
    ensures Shift(0x8900) & 0xff00 == 0
  {
    ShiftIsFeedback8(0x8900);
    Feedback8Of8900();
  }

  lemma HighHalfKept(c: bv16, a: byte, b: byte)
    requires a != b
    ensures Xor(ByteStep(c, a), ByteStep(c, b)) & 0xff00 == 0 <==> Flipped(a, b)
  {
    hide Xor, Shift, ByteStep, Word;
    ByteStepDifference(c, a, b);
    HighInjective(a, b);
    HighInjective(b, a);
    OneByteDifference(High(a), High(b));
    FlippedIsPattern(a, b);
    ShiftOfPattern();
  }

  /** Changing the last byte leaves the high byte of the checksum alone in
      exactly one case. */
  lemma LastByteAndHighHalf(before: seq<byte>, a: byte, b: byte)
    ensures Checksum(before + [a]) / 0x100 == Checksum(before + [b]) / 0x100 <==> a == b || Flipped(a, b)
  {
    ChecksumIsRegister(before + [a]);
    ChecksumIsRegister(before + [b]);
    hide Checksum;
    hide Xor, ByteStep, Flipped;
    var c := Register(PRESET, before);
    assert (before + [a])[..|before|] == before && (before + [b])[..|before|] == before;
    HighHalfAsByte(ByteStep(c, a), ByteStep(c, b));
    if a != b {
      HighHalfKept(c, a, b);
    }
  }

  lemma Nibbles(w: bv16)
    requires w < 0x100
    ensures (w as int) == 16 * ((w >> 4) as int) + ((w & 0xf) as int)
    ensures ((w & 0xf) as int) < 16 && ((w >> 4) as int) < 16
  {}

  lemma NibblesJoin(w: bv16)
    ensures ((w >> 4) << 4) | (w & 0xf) == w
  {}

  lemma NibblesAsInts(w: bv16)
    requires w < 0x100
    ensures 0 <= w as int < 0x100
    ensures (w as int) / 16 == (w >> 4) as int && (w as int) % 16 == (w & 0xf) as int
  {
    Nibbles(w);
  }

  lemma WordFromNibbles(n: byte, high: bv16, low: bv16)
    requires n / 16 == high as int && n % 16 == low as int
    ensures Word(n) == (high << 4) | low
  {
    WordRoundTrip(high);
    WordRoundTrip(low);
  }

  lemma WordOfInt(w: bv16)
    requires w < 0x100
    ensures 0 <= w as int < 0x100 && Word(w as int) == w
  {
    hide Word;
    NibblesAsInts(w);
    WordFromNibbles(w as int, w >> 4, w & 0xf);
    NibblesJoin(w);
  }

  /** Every byte has such a partner. */
  lemma FlippedExists(a: byte) returns (b: byte)
    ensures Flipped(a, b) && a != b
  {
    hide Word;
    WordFits(a);
    XorFits(Word(a), 0x89);
    WordOfInt(Xor(Word(a), 0x89));
    b := Xor(Word(a), 0x89) as int;
    XorCancelLeft(Word(a), 0x89);
    XorSelf(Word(a));
  }

  lemma XorSelf(x: bv16)
    ensures Xor(x, x) == 0
    ensures Xor(x, Xor(x, 0x89)) == 0x89
  {}
}
