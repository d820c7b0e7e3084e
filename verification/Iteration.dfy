/** Repeating a step, for any step that is one-to-one or that distributes over
    an operation. */
module Iteration {

  function Iterate<T>(f: T -> T, n: nat, x: T): T {
    if n == 0 then x else Iterate(f, n - 1, f(x))
  }

  ghost predicate Injective<T(!new)>(f: T -> T) {
    forall x, y :: f(x) == f(y) ==> x == y
  }

  ghost predicate Additive<T(!new)>(f: T -> T, plus: (T, T) -> T) {
    forall x, y :: f(plus(x, y)) == plus(f(x), f(y))
  }

  lemma {:induction false} IterateInjective<T(!new)>(f: T -> T, n: nat, x: T, y: T)
    requires Injective(f) && x != y
    ensures Iterate(f, n, x) != Iterate(f, n, y)
    decreases n
  {
    if n == 0 {
    } else {
      IterateInjective(f, n - 1, f(x), f(y));
    }
  }

  lemma {:induction false} IterateAdditive<T(!new)>(f: T -> T, plus: (T, T) -> T, n: nat, x: T, y: T)
    requires Additive(f, plus)
    ensures Iterate(f, n, plus(x, y)) == plus(Iterate(f, n, x), Iterate(f, n, y))
    decreases n
  {
    if n == 0 {
    } else {
      IterateAdditive(f, plus, n - 1, f(x), f(y));
    }
  }
}
