/** Types and functions shared by the models. */
module Common {

  datatype Option<T> = None | Some(value: T)

  type Byte = b: int | 0 <= b < 256

  function Min(a: nat, b: nat): nat
  {
    if a <= b then a else b
  }

  lemma {:induction false} Regroup<T>(a: seq<T>, b: seq<T>, c: seq<T>)
    ensures a + (b + c) == (a + b) + c
  {
  }

  /** `n` steps of `f` from `s`. */
  function Iterate<S>(f: S -> S, s: S, n: nat): S
    decreases n
  {
    if n == 0 then s else Iterate(f, f(s), n - 1)
  }

  lemma {:induction false} IterateAdd<S>(f: S -> S, s: S, n: nat, m: nat)
    ensures Iterate(f, s, n + m) == Iterate(f, Iterate(f, s, n), m)
    decreases n
  {
    if 0 < n {
      IterateAdd(f, f(s), n - 1, m);
    }
  }

  lemma {:induction false} IterateFixed<S>(f: S -> S, s: S, n: nat)
    requires f(s) == s
    ensures Iterate(f, s, n) == s
  {
    if 0 < n {
      IterateFixed(f, s, n - 1);
    }
  }
}
