/** Finite sums of reals over an index range, and the facts about them that
    the probability and back-projection proofs rely on. */
module Sums {

  /** x * y, named so that products of equal factors are recognised as
      equal without arithmetic. */
  function Times(x: real, y: real): real
  {
    x * y
  }

  /** f(0) + f(1) + ... + f(n - 1). */
  function Sum(n: nat, f: nat -> real): real
  {
    if n == 0 then 0.0 else Sum(n - 1, f) + f(n - 1)
  }

  /** The function k => f(m + k): a window of f starting at m. */
  function Shifted(f: nat -> real, m: nat): nat -> real
  {
    (k: nat) => f(m + k)
  }

  lemma {:induction false} SumExt(n: nat, f: nat -> real, g: nat -> real)
    requires forall k: nat :: k < n ==> f(k) == g(k)
    ensures Sum(n, f) == Sum(n, g)
  {
    if n > 0 {
      SumExt(n - 1, f, g);
    }
  }

  lemma {:induction false} SumScale(n: nat, f: nat -> real, g: nat -> real, c: real)
    requires forall k: nat :: k < n ==> g(k) == Times(f(k), c)
    ensures Sum(n, g) == Times(Sum(n, f), c)
  {
    if n > 0 {
      SumScale(n - 1, f, g, c);
      TimesAdd(Sum(n - 1, f), f(n - 1), c);
    }
  }

  lemma {:induction false} SumAdd(n: nat, f: nat -> real, g: nat -> real, h: nat -> real)
    requires forall k: nat :: k < n ==> h(k) == f(k) + g(k)
    ensures Sum(n, h) == Sum(n, f) + Sum(n, g)
  {
    if n > 0 {
      SumAdd(n - 1, f, g, h);
    }
  }

  lemma {:induction false} SumNonNegative(n: nat, f: nat -> real)
    requires forall k: nat :: k < n ==> 0.0 <= f(k)
    ensures 0.0 <= Sum(n, f)
  {
    if n > 0 {
      SumNonNegative(n - 1, f);
    }
  }

  lemma {:induction false} SumMonotone(n: nat, f: nat -> real, g: nat -> real)
    requires forall k: nat :: k < n ==> f(k) <= g(k)
    ensures Sum(n, f) <= Sum(n, g)
  {
    if n > 0 {
      SumMonotone(n - 1, f, g);
    }
  }

  /** A non-negative term never exceeds the whole sum. */
  lemma {:induction false} TermAtMostSum(n: nat, f: nat -> real, k: nat)
    requires forall j: nat :: j < n ==> 0.0 <= f(j)
    requires k < n
    ensures f(k) <= Sum(n, f)
  {
    if k < n - 1 {
      TermAtMostSum(n - 1, f, k);
    } else {
      SumNonNegative(n - 1, f);
    }
  }

  /** Splitting a range at m. */
  lemma {:induction false} SumShift(m: nat, c: nat, f: nat -> real)
    ensures Sum(m + c, f) == Sum(m, f) + Sum(c, Shifted(f, m))
  {
    if c > 0 {
      SumShift(m, c - 1, f);
      assert Shifted(f, m)(c - 1) == f(m + c - 1);
    }
  }

  /** A sum over c * d indices whose term at q * c + r factors as
      e(r) * g(q) is the product of the two sums. */
  lemma {:induction false} SumProduct(c: nat, d: nat, f: nat -> real, e: nat -> real, g: nat -> real)
    requires forall q: nat, r: nat {:trigger Shifted(f, q * c)(r)} ::
      q < d && r < c ==> Shifted(f, q * c)(r) == Times(e(r), g(q))
    ensures Sum(c * d, f) == Times(Sum(c, e), Sum(d, g))
  {
    if d > 0 {
      SumProduct(c, d - 1, f, e, g);
      var m := LastBlockSum(c, d, f, e, g);
      SumShift(m, c, f);
      Distribute(Sum(m, f), Sum(c, Shifted(f, m)), Sum(c, e), Sum(d - 1, g), g(d - 1));
    }
  }

  /** The last of d blocks of c indices starts at m and sums to
      Sum(c, e) * g(d - 1). */
  lemma LastBlockSum(c: nat, d: nat, f: nat -> real, e: nat -> real, g: nat -> real) returns (m: nat)
    requires d > 0
    requires forall q: nat, r: nat {:trigger Shifted(f, q * c)(r)} ::
      q < d && r < c ==> Shifted(f, q * c)(r) == Times(e(r), g(q))
    ensures m == c * (d - 1) && c * d == m + c
    ensures Sum(c, Shifted(f, m)) == Times(Sum(c, e), g(d - 1))
  {
    m := (d - 1) * c;
    assert m == c * (d - 1);
    SumScale(c, e, Shifted(f, m), g(d - 1));
  }

  /** SumProduct with the length of the range named separately. */
  lemma SumProductOver(n: nat, c: nat, d: nat, f: nat -> real, e: nat -> real, g: nat -> real)
    requires n == c * d
    requires forall q: nat, r: nat {:trigger Shifted(f, q * c)(r)} ::
      q < d && r < c ==> Shifted(f, q * c)(r) == Times(e(r), g(q))
    ensures Sum(n, f) == Times(Sum(c, e), Sum(d, g))
  {
    SumProduct(c, d, f, e, g);
  }

  /** Entry r of the window of f starting at m is f(m + r). */
  lemma ShiftedAt(f: nat -> real, m: nat, r: nat)
    ensures Shifted(f, m)(r) == f(m + r)
  {
  }

  /** x * y + x * z == x * (y + z), with the products that need congruence
      written as Times. */
  lemma Distribute(a: real, b: real, x: real, y: real, z: real)
    requires a == Times(x, y) && b == Times(x, z)
    ensures a + b == Times(x, y + z)
  {
  }

  /** (a + b) * p == a * p + b * p. */
  lemma TimesAdd(a: real, b: real, p: real)
    ensures Times(a + b, p) == Times(a, p) + Times(b, p)
  {
  }

  /** A value between lo and hi, weighted by a non-negative p, lies between
      the two bounds weighted by p. */
  lemma TimesBetween(v: real, p: real, lo: real, hi: real)
    requires 0.0 <= p && lo <= v <= hi
    ensures Times(p, lo) <= Times(v, p) <= Times(p, hi)
  {
    assert Times(v, p) - Times(p, lo) == (v - lo) * p;
    assert Times(p, hi) - Times(v, p) == (hi - v) * p;
  }
}
