/** Byte-level vocabulary shared by the serial codec and the HID report layer. */
module Bytes {

  type byte = b: int | 0 <= b < 0x100

  type u16 = n: int | 0 <= n < 0x1_0000

  datatype Option<+T> = None | Some(value: T)

  /** Little-endian read of two bytes. */
  function ReadU16(lo: byte, hi: byte): u16 {
    lo + 0x100 * hi
  }

  /** Little-endian write: low byte first. */
  function U16Bytes(value: u16): (s: seq<byte>)
    ensures |s| == 2 && ReadU16(s[0], s[1]) == value
  {
    [value % 0x100, value / 0x100]
  }

  function Min(a: nat, b: nat): nat {
    if a < b then a else b
  }

  function Flatten<T>(parts: seq<seq<T>>): seq<T> {
    if parts == [] then [] else parts[0] + Flatten(parts[1..])
  }

  lemma {:induction false} FlattenAppend<T>(xs: seq<seq<T>>, ys: seq<seq<T>>)
    ensures Flatten(xs + ys) == Flatten(xs) + Flatten(ys)
  {
    if xs == [] {
      assert xs + ys == ys;
    } else {
      assert (xs + ys)[1..] == xs[1..] + ys;
      FlattenAppend(xs[1..], ys);
    }
  }
}
