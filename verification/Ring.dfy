/** The firmware's fixed-capacity ring buffers. */
module Ring {

  lemma Wrap(a: nat, n: nat)
    requires a < 2 * n
    ensures a % n == if a < n then a else a - n
  {
    if a >= n {
      assert a == n + (a - n);
    }
  }

  class Ring<T(0)> {
    const slots: array<T>
    var head: nat
    var count: nat

    ghost predicate Valid()
      reads this
    {
      slots.Length > 0 && head < slots.Length && count <= slots.Length
    }

    /** The queued items, oldest first. */
    ghost function Contents(): (s: seq<T>)
      requires Valid()
      reads this, slots
      ensures |s| == count
    {
      if head + count <= slots.Length then slots[head..head + count]
      else slots[head..] + slots[..head + count - slots.Length]
    }

    constructor (capacity: nat)
      requires capacity > 0
      ensures Valid() && fresh(slots) && slots.Length == capacity && Contents() == []
    {
      slots := new T[capacity];
      head, count := 0, 0;
    }

    method Push(x: T) returns (ok: bool)
      requires Valid()
      modifies this`count, slots
      ensures Valid()
      ensures ok == (|old(Contents())| < slots.Length)
      ensures Contents() == if ok then old(Contents()) + [x] else old(Contents())
    {
      if count == slots.Length {
        return false;
      }
      Wrap(head + count, slots.Length);
      slots[(head + count) % slots.Length] := x;
      count := count + 1;
      return true;
    }

    method Front() returns (x: T)
      requires Valid() && count > 0
      ensures x == Contents()[0]
    {
      x := slots[head];
    }

    method Pop()
      requires Valid()
      modifies this`head, this`count
      ensures Valid()
      ensures Contents() == if old(Contents()) == [] then [] else old(Contents())[1..]
    {
      if count == 0 {
        return;
      }
      Wrap(head + 1, slots.Length);
      head := (head + 1) % slots.Length;
      count := count - 1;
    }
  }
}
