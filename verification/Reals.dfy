/** Sums of sequences of reals. */
module Reals {
  import opened Sequences

  function Total(s: seq<real>): real {
    if s == [] then 0.0 else s[0] + Total(s[1..])
  }

  lemma {:induction false} TotalAppend(a: seq<real>, b: seq<real>)
    ensures Total(a + b) == Total(a) + Total(b)
  {
    if a == [] {
      assert a + b == b;
    } else {
      assert (a + b)[1..] == a[1..] + b;
      TotalAppend(a[1..], b);
    }
  }

  lemma TotalSnoc(a: seq<real>, x: real)
    ensures Total(a + [x]) == Total(a) + x
  {
    TotalAppend(a, [x]);
    assert Total([x]) == x + Total([]);
  }

  lemma TotalWithout(s: seq<real>, k: nat)
    requires k < |s|
    ensures Total(Without(s, k)) == Total(s) - s[k]
  {
    TotalAppend(s[..k], s[k + 1..]);
    TotalAppend(s[..k], s[k..]);
    assert s[..k] + s[k..] == s;
    assert s[k..][1..] == s[k + 1..];
  }

  lemma {:induction false} TotalOfMultiset(a: seq<real>, b: seq<real>)
    requires multiset(a) == multiset(b)
    ensures Total(a) == Total(b)
    decreases |a|
  {
    assert |a| == |multiset(a)| == |multiset(b)| == |b|;
    if a == [] {
    } else {
      var k := MatchFirst(a, b);
      TotalOfMultiset(a[1..], Without(b, k));
      TotalWithout(b, k);
    }
  }

  lemma MatchFirst(a: seq<real>, b: seq<real>) returns (k: nat)
    requires multiset(a) == multiset(b) && a != []
    ensures k < |b| && b[k] == a[0] && multiset(a[1..]) == multiset(Without(b, k))
  {
    assert a[0] in multiset(b);
    k :| 0 <= k < |b| && b[k] == a[0];
    assert a == [a[0]] + a[1..];
    MultisetWithout(b, k);
    CancelCommon(multiset(a[1..]), multiset(Without(b, k)), multiset{a[0]});
  }
}
