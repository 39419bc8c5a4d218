/** Counting and summing over an initial segment of the naturals. */
module Counting {

  /** How many `i < n` satisfy `p`. */
  function Count(n: nat, p: nat -> bool): (c: nat)
    ensures c <= n
  {
    if n == 0 then 0 else Count(n - 1, p) + (if p(n - 1) then 1 else 0)
  }

  function Sum(n: nat, f: nat -> int): int {
    if n == 0 then 0 else Sum(n - 1, f) + f(n - 1)
  }

  lemma {:induction false} CountZero(n: nat, p: nat -> bool)
    ensures Count(n, p) == 0 <==> forall i :: 0 <= i < n ==> !p(i)
  {
    if n > 0 {
      CountZero(n - 1, p);
    }
  }

  lemma {:induction false} CountMonotone(n: nat, p: nat -> bool, q: nat -> bool)
    requires forall i :: 0 <= i < n && p(i) ==> q(i)
    ensures Count(n, p) <= Count(n, q)
  {
    if n > 0 {
      CountMonotone(n - 1, p, q);
    }
  }

  lemma {:induction false} SumMonotone(n: nat, f: nat -> int, g: nat -> int)
    requires forall i :: 0 <= i < n ==> f(i) <= g(i)
    ensures Sum(n, f) <= Sum(n, g)
  {
    if n > 0 {
      SumMonotone(n - 1, f, g);
    }
  }

  lemma {:induction false} SumConstant(n: nat, f: nat -> int, c: int)
    requires forall i :: 0 <= i < n ==> f(i) == c
    ensures Sum(n, f) == n * c
  {
    if n > 0 {
      SumConstant(n - 1, f, c);
      assert (n - 1) * c + c == n * c;
    }
  }

  /** Two sums that differ in exactly one term. */
  lemma {:induction false} SumChanged(n: nat, f: nat -> int, g: nat -> int, k: nat)
    requires k < n && forall i :: 0 <= i < n && i != k ==> f(i) == g(i)
    ensures Sum(n, g) == Sum(n, f) + g(k) - f(k)
  {
    if k == n - 1 {
      SumMonotone(n - 1, f, g);
      SumMonotone(n - 1, g, f);
    } else {
      SumChanged(n - 1, f, g, k);
    }
  }

  /** The `n` integers after `lo`. */
  function Range(lo: int, n: nat): (r: set<int>)
    ensures |r| == n && forall k :: k in r <==> lo < k <= lo + n
  {
    if n == 0 then {} else Range(lo, n - 1) + {lo + n}
  }
}
