/** Concatenation, permutations and sums of sequences. */
module Sequences {

  function Flat<T>(ss: seq<seq<T>>): seq<T> {
    if ss == [] then [] else ss[0] + Flat(ss[1..])
  }

  function Iota(n: nat): (r: seq<nat>) {
    seq(n, i => i)
  }

  function Sum(s: seq<int>): int {
    if s == [] then 0 else s[0] + Sum(s[1..])
  }

  /** The elements of s at the given positions, in that order. */
  function Gather<T>(s: seq<T>, indices: seq<nat>): (r: seq<T>)
    requires AllBelow(indices, |s|)
  {
    seq(|indices|, i requires 0 <= i < |indices| => s[indices[i]])
  }

  predicate AllBelow(s: seq<nat>, n: nat) {
    forall i :: 0 <= i < |s| ==> s[i] < n
  }

  ghost predicate Distinct<T>(s: seq<T>) {
    forall i, j :: 0 <= i < j < |s| ==> s[i] != s[j]
  }

  ghost predicate Ascends(s: seq<int>) {
    forall i, j :: 0 <= i < j < |s| ==> s[i] <= s[j]
  }

  ghost predicate Increasing(s: seq<int>) {
    forall i, j :: 0 <= i < j < |s| ==> s[i] < s[j]
  }

  /** s lists every number below n exactly once. */
  ghost predicate IsPermutation(s: seq<nat>, n: nat) {
    |s| == n && AllBelow(s, n) && Distinct(s)
  }

  lemma PrefixGrows<X>(xs: seq<X>, a: nat, b: nat)
    requires a <= b <= |xs|
    ensures xs[..a] + xs[a..b] == xs[..b]
  {
  }

  lemma GatherSlice<T>(s: seq<T>, indices: seq<nat>, a: nat, b: nat)
    requires AllBelow(indices, |s|) && a <= b <= |indices|
    ensures AllBelow(indices[a..b], |s|)
    ensures Gather(s, indices)[a..b] == Gather(s, indices[a..b])
  {
  }

  lemma SliceOfSlice<T>(s: seq<T>, start: nat, size: nat, a: nat, b: nat)
    requires start + size <= |s| && a <= b <= size
    ensures s[start..start + size][a..b] == s[start + a..start + b]
  {
    var whole := s[start..start + size];
    forall i | 0 <= i < b - a ensures whole[a..b][i] == s[start + a..start + b][i] {}
  }

  lemma {:induction false} FlatAppend<T>(a: seq<seq<T>>, b: seq<seq<T>>)
    ensures Flat(a + b) == Flat(a) + Flat(b)
  {
    if a == [] {
      assert a + b == b;
    } else {
      assert (a + b)[1..] == a[1..] + b;
      FlatAppend(a[1..], b);
    }
  }

  lemma FlatSingle<T>(s: seq<T>)
    ensures Flat([s]) == s
  {
    assert [s][1..] == [];
  }

  lemma FlatSnoc<T>(a: seq<seq<T>>, s: seq<T>)
    ensures Flat(a + [s]) == Flat(a) + s
  {
    FlatAppend(a, [s]);
    FlatSingle(s);
  }

  lemma FlatNext<T>(parts: seq<seq<T>>, c: nat)
    requires c < |parts|
    ensures Flat(parts[..c + 1]) == Flat(parts[..c]) + parts[c]
  {
    assert parts[..c + 1] == parts[..c] + [parts[c]];
    FlatSnoc(parts[..c], parts[c]);
  }

  lemma {:induction false} FlatOfNothing<X>(xs: seq<seq<X>>)
    requires forall i :: 0 <= i < |xs| ==> xs[i] == []
    ensures Flat(xs) == []
  {
    if xs == [] {
    } else {
      FlatOfNothing(xs[1..]);
    }
  }

  // ----- parts of equal size -----

  lemma {:induction false} FlatLength<X>(blocks: seq<seq<X>>, g: nat)
    requires forall i :: 0 <= i < |blocks| ==> |blocks[i]| == g
    ensures |Flat(blocks)| == |blocks| * g
  {
    if blocks == [] {
    } else {
      FlatLength(blocks[1..], g);
      assert |blocks| * g == g + |blocks[1..]| * g;
    }
  }

  lemma FlatPrefix<X>(blocks: seq<seq<X>>, g: nat, n: nat)
    requires n <= |blocks| && forall i :: 0 <= i < |blocks| ==> |blocks[i]| == g
    ensures n * g <= |Flat(blocks)| && Flat(blocks)[..n * g] == Flat(blocks[..n])
  {
    FlatLength(blocks[..n], g);
    FlatAppend(blocks[..n], blocks[n..]);
    assert blocks == blocks[..n] + blocks[n..];
  }

  /** Where each of the equal parts lies. */
  lemma EqualParts<X>(parts: seq<seq<X>>, size: nat, i: nat)
    requires i < |parts| && forall k :: 0 <= k < |parts| ==> |parts[k]| == size
    ensures |Flat(parts)| == |parts| * size
    ensures 0 <= i * size <= (i + 1) * size <= |Flat(parts)|
    ensures Flat(parts)[i * size..(i + 1) * size] == parts[i]
  {
    FlatLength(parts, size);
    FlatPrefix(parts, size, i);
    FlatPrefix(parts, size, i + 1);
    FlatNext(parts, i);
    assert (i + 1) * size == i * size + size;
  }

  /** Replacing one part exchanges its elements for the new part's elements. */
  lemma FlatReplace<T>(ss: seq<seq<T>>, i: nat, x: seq<T>)
    requires i < |ss|
    ensures multiset(Flat(ss[i := x])) + multiset(ss[i]) == multiset(Flat(ss)) + multiset(x)
  {
    FlatAround(ss, i);
    FlatAround(ss[i := x], i);
    assert ss[i := x][..i] == ss[..i] && ss[i := x][i + 1..] == ss[i + 1..];
  }

  lemma CancelCommon<T>(a: multiset<T>, b: multiset<T>, common: multiset<T>)
    requires a + common == b + common
    ensures a == b
  {
    forall v ensures a[v] == b[v] {
      assert (a + common)[v] == (b + common)[v];
    }
  }

  lemma FlatAround<T>(ss: seq<seq<T>>, i: nat)
    requires i < |ss|
    ensures Flat(ss) == Flat(ss[..i]) + ss[i] + Flat(ss[i + 1..])
  {
    assert ss == ss[..i] + ss[i..];
    FlatAppend(ss[..i], ss[i..]);
    assert ss[i..][1..] == ss[i + 1..];
    assert Flat(ss[i..]) == ss[i] + Flat(ss[i + 1..]);
  }

  lemma FlatMember<T>(ss: seq<seq<T>>, i: nat, k: nat)
    requires i < |ss| && k < |ss[i]|
    ensures ss[i][k] in Flat(ss)
  {
    FlatAround(ss, i);
    var f := Flat(ss[..i]);
    assert Flat(ss)[|f| + k] == ss[i][k];
  }

  lemma {:induction false} FlatElement<T>(ss: seq<seq<T>>, x: T) returns (i: nat, k: nat)
    requires x in Flat(ss)
    ensures i < |ss| && k < |ss[i]| && ss[i][k] == x
  {
    if x in ss[0] {
      i := 0;
      k :| 0 <= k < |ss[0]| && ss[0][k] == x;
    } else {
      i, k := FlatElement(ss[1..], x);
      i := i + 1;
    }
  }

  lemma {:induction false} FlatAllBelow(ss: seq<seq<nat>>, n: nat)
    requires forall i :: 0 <= i < |ss| ==> AllBelow(ss[i], n)
    ensures AllBelow(Flat(ss), n)
  {
    if ss == [] {
    } else {
      FlatAllBelow(ss[1..], n);
    }
  }

  lemma {:induction false} FlatGather<T>(s: seq<T>, ss: seq<seq<nat>>)
    requires forall i :: 0 <= i < |ss| ==> AllBelow(ss[i], |s|)
    ensures AllBelow(Flat(ss), |s|)
    ensures Flat(seq(|ss|, i requires 0 <= i < |ss| => Gather(s, ss[i]))) == Gather(s, Flat(ss))
  {
    FlatAllBelow(ss, |s|);
    var parts := seq(|ss|, i requires 0 <= i < |ss| => Gather(s, ss[i]));
    if ss == [] {
    } else {
      FlatGather(s, ss[1..]);
      assert parts[1..] == seq(|ss[1..]|, i requires 0 <= i < |ss[1..]| => Gather(s, ss[1..][i]));
      assert Gather(s, Flat(ss)) == Gather(s, ss[0]) + Gather(s, Flat(ss[1..]));
    }
  }

  lemma {:induction false} SumAppend(a: seq<int>, b: seq<int>)
    ensures Sum(a + b) == Sum(a) + Sum(b)
  {
    if a == [] {
      assert a + b == b;
    } else {
      assert (a + b)[1..] == a[1..] + b;
      SumAppend(a[1..], b);
    }
  }

  lemma SumSnoc(a: seq<int>, x: int)
    ensures Sum(a + [x]) == Sum(a) + x
  {
    SumAppend(a, [x]);
    assert Sum([x]) == x + Sum([]);
  }

  // ----- permutations -----

  function Elements<T>(s: seq<T>): set<T> {
    set i | 0 <= i < |s| :: s[i]
  }

  lemma {:induction false} DistinctCount<T>(s: seq<T>)
    requires Distinct(s)
    ensures |Elements(s)| == |s|
  {
    if s == [] {
    } else {
      var init, last := s[..|s| - 1], s[|s| - 1];
      DistinctCount(init);
      assert Elements(s) == Elements(init) + {last};
      assert last !in Elements(init);
    }
  }

  ghost function Below(n: nat): (r: set<nat>)
    ensures forall k :: k in r <==> 0 <= k < n
    ensures |r| == n
  {
    if n == 0 then {} else Below(n - 1) + {n - 1}
  }

  lemma PermutationCovers(s: seq<nat>, n: nat, v: nat)
    requires IsPermutation(s, n) && v < n
    ensures exists i :: 0 <= i < n && s[i] == v
  {
    DistinctCount(s);
    if v !in Elements(s) {
      assert Elements(s) <= Below(n) - {v};
      CardinalityMonotone(Elements(s), Below(n) - {v});
    }
  }

  lemma {:induction false} CardinalityMonotone<T>(a: set<T>, b: set<T>)
    requires a <= b
    ensures |a| <= |b|
    decreases b
  {
    if a == {} {
    } else {
      var x :| x in a;
      CardinalityMonotone(a - {x}, b - {x});
    }
  }

  lemma PermutationIffMultiset(s: seq<nat>, n: nat)
    ensures IsPermutation(s, n) <==> multiset(s) == multiset(Iota(n))
  {
    if IsPermutation(s, n) {
      forall v: nat ensures multiset(s)[v] == multiset(Iota(n))[v] {
        DistinctOnce(s, v);
        DistinctOnce(Iota(n), v);
        if v in s { assert Iota(n)[v] == v; }
        if v in Iota(n) { PermutationCovers(s, n, v); }
      }
    }
    if multiset(s) == multiset(Iota(n)) {
      assert |s| == |multiset(s)| == |multiset(Iota(n))| == n;
      forall i | 0 <= i < |s| ensures s[i] < n {
        assert s[i] in multiset(s);
        assert s[i] in Iota(n);
      }
      forall i, j | 0 <= i < j < |s| ensures s[i] != s[j] {
        DistinctOnce(Iota(n), s[i]);
        if s[i] == s[j] { TwiceCounts(s, i, j); }
      }
    }
  }

  lemma {:induction false} DistinctOnce<T>(s: seq<T>, v: T)
    requires Distinct(s)
    ensures multiset(s)[v] == if v in s then 1 else 0
  {
    if s == [] {
    } else {
      assert s == [s[0]] + s[1..];
      DistinctOnce(s[1..], v);
    }
  }

  lemma TwiceCounts<T>(s: seq<T>, i: nat, j: nat)
    requires i < j < |s| && s[i] == s[j]
    ensures multiset(s)[s[i]] >= 2
  {
    assert s == s[..i] + [s[i]] + s[i + 1..j] + [s[j]] + s[j + 1..];
  }

  /** Rows gathered along a permutation are the same rows. */
  lemma {:induction false} GatherMultiset<T>(s: seq<T>, a: seq<nat>, b: seq<nat>)
    requires AllBelow(a, |s|) && AllBelow(b, |s|) && multiset(a) == multiset(b)
    ensures multiset(Gather(s, a)) == multiset(Gather(s, b))
  {
    if a == [] {
      assert |multiset(b)| == 0;
    } else {
      assert a == [a[0]] + a[1..];
      assert a[0] in multiset(b);
      var k :| 0 <= k < |b| && b[k] == a[0];
      var rest := Without(b, k);
      MultisetWithout(b, k);
      CancelCommon(multiset(a[1..]), multiset(rest), multiset{a[0]});
      GatherMultiset(s, a[1..], rest);
      GatherAt(s, a, 0);
      assert Without(a, 0) == a[1..];
      GatherAt(s, b, k);
    }
  }

  function Without<T>(s: seq<T>, k: nat): (r: seq<T>)
    requires k < |s|
  {
    s[..k] + s[k + 1..]
  }

  lemma MultisetSnoc<T>(s: seq<T>, n: nat)
    requires 1 <= n <= |s|
    ensures multiset(s[..n]) == multiset(s[..n - 1]) + multiset([s[n - 1]])
  {
    assert s[..n] == s[..n - 1] + [s[n - 1]];
  }

  lemma MultisetWithout<T>(s: seq<T>, k: nat)
    requires k < |s|
    ensures multiset(s) == multiset(Without(s, k)) + multiset{s[k]}
  {
    assert s == s[..k] + [s[k]] + s[k + 1..];
  }

  lemma GatherAt<T>(s: seq<T>, a: seq<nat>, k: nat)
    requires AllBelow(a, |s|) && k < |a|
    ensures AllBelow(Without(a, k), |s|)
    ensures multiset(Gather(s, a)) == multiset(Gather(s, Without(a, k))) + multiset{s[a[k]]}
  {
    MultisetWithout(Gather(s, a), k);
    assert Gather(s, Without(a, k)) == Without(Gather(s, a), k);
  }

  lemma GatherIota<T>(s: seq<T>)
    ensures Gather(s, Iota(|s|)) == s
  {
  }

  lemma GatherPermutation<T>(s: seq<T>, p: seq<nat>)
    requires IsPermutation(p, |s|)
    ensures multiset(Gather(s, p)) == multiset(s)
  {
    PermutationIffMultiset(p, |s|);
    GatherMultiset(s, p, Iota(|s|));
    GatherIota(s);
  }
}
