/** Finite sums of reals. */
module Sums {

  /** f(0) + ... + f(n - 1). */
  function Sum(n: nat, f: nat -> real): real {
    if n == 0 then 0.0 else Sum(n - 1, f) + f(n - 1)
  }

  lemma {:induction false} SumExt(n: nat, f: nat -> real, g: nat -> real)
    requires forall i: nat :: i < n ==> f(i) == g(i)
    ensures Sum(n, f) == Sum(n, g)
  {
    if n > 0 {
      SumExt(n - 1, f, g);
    }
  }

  lemma {:induction false} SumPlus(n: nat, f: nat -> real, g: nat -> real, h: nat -> real)
    requires forall i: nat :: i < n ==> h(i) == f(i) + g(i)
    ensures Sum(n, h) == Sum(n, f) + Sum(n, g)
  {
    if n > 0 {
      SumPlus(n - 1, f, g, h);
    }
  }

  lemma {:induction false} SumMinusScaled(n: nat, f: nat -> real, g: nat -> real, c: real, h: nat -> real)
    requires forall i: nat :: i < n ==> h(i) == f(i) - c * g(i)
    ensures Sum(n, h) == Sum(n, f) - c * Sum(n, g)
  {
    if n > 0 {
      SumMinusScaled(n - 1, f, g, c, h);
      assert c * Sum(n, g) == c * Sum(n - 1, g) + c * g(n - 1);
    }
  }

  /** g is f except at p. */
  lemma {:induction false} SumPoint(n: nat, f: nat -> real, g: nat -> real, p: nat)
    requires p < n && forall i: nat :: i < n && i != p ==> g(i) == f(i)
    ensures Sum(n, g) == Sum(n, f) + g(p) - f(p)
  {
    if p == n - 1 {
      SumExt(n - 1, f, g);
    } else {
      SumPoint(n - 1, f, g, p);
    }
  }

  lemma {:induction false} SumZero(n: nat, f: nat -> real)
    requires forall i: nat :: i < n ==> f(i) == 0.0
    ensures Sum(n, f) == 0.0
  {
    if n > 0 {
      SumZero(n - 1, f);
    }
  }
}
