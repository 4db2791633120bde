/** Facts about quotients and multiples. */
module Arithmetic {

  function Min(a: nat, b: nat): nat {
    if a < b then a else b
  }

  function Max(a: int, b: int): int {
    if a < b then b else a
  }

  lemma SmallerQuotient(p: nat, q: nat, m: nat)
    ensures p <= q ==> p * m <= q * m
    ensures p > q ==> p * m >= (q + 1) * m
  {
    if p <= q {
      assert (q - p) * m >= 0;
    } else {
      assert (p - q - 1) * m >= 0;
    }
  }

  lemma QuotientMonotone(a: nat, b: nat, m: nat)
    requires m >= 1 && a <= b
    ensures a / m <= b / m && a / m * m <= b / m * m
  {
    var p, q := a / m, b / m;
    assert a == p * m + a % m && b == q * m + b % m;
    SmallerQuotient(p, q, m);
  }

  lemma OneMore(k: nat, p: nat)
    ensures k * p + p == (k + 1) * p && p * k + p == p * (k + 1)
  {
  }

  lemma DivisionIsUnique(a: nat, m: nat, q: nat, r: nat)
    requires a == q * m + r && r < m
    ensures a / m == q && a % m == r
  {
    SmallerQuotient(a / m, q, m);
    SmallerQuotient(q, a / m, m);
  }

  /** m is the least multiple of `multiple` that is not below n. */
  ghost predicate IsLeastMultiple(m: nat, n: nat, multiple: nat)
    requires multiple >= 1
  {
    m % multiple == 0 && n <= m && forall q: nat :: n <= q * multiple ==> m <= q * multiple
  }

  /** A length rounded up to a multiple. */
  function PadTo(n: nat, multiple: nat): nat
    requires multiple >= 1
  {
    (n + multiple - 1) / multiple * multiple
  }

  lemma PadToIsLeast(n: nat, multiple: nat)
    requires multiple >= 1
    ensures IsLeastMultiple(PadTo(n, multiple), n, multiple)
  {
    var q := (n + multiple - 1) / multiple;
    assert n + multiple - 1 == q * multiple + (n + multiple - 1) % multiple;
    MultipleHasNoRest(q, multiple);
    forall k: nat | n <= k * multiple ensures PadTo(n, multiple) <= k * multiple {
      NoSmallerMultiple(n, multiple, q, k);
    }
  }

  lemma MultipleHasNoRest(q: nat, multiple: nat)
    requires multiple >= 1
    ensures q * multiple % multiple == 0
  {
    DivisionIsUnique(q * multiple, multiple, q, 0);
  }

  /** No smaller multiple covers a length. */
  lemma NoSmallerMultiple(n: nat, multiple: nat, q: nat, k: nat)
    requires multiple >= 1 && q * multiple < n + multiple && n <= k * multiple
    ensures q * multiple <= k * multiple
  {
    if k < q {
      SmallerQuotient(k + 1, q, multiple);
      OneMore(k, multiple);
    } else {
      SmallerQuotient(q, k, multiple);
    }
  }
}
