/** Stable sorting of positions by key, as the built-in sort of the implementation language does it. */
module Sorting {
  import opened Sequences

  ghost predicate TotalPreorder<K(!new)>(le: (K, K) -> bool) {
    && (forall a, b :: le(a, b) || le(b, a))
    && (forall a, b, c :: le(a, b) && le(b, c) ==> le(a, c))
  }

  /** Positions ordered by key; positions with equivalent keys stay in increasing order. */
  ghost predicate StablySorted<K>(keys: seq<K>, le: (K, K) -> bool, p: seq<nat>)
    requires AllBelow(p, |keys|)
  {
    forall i, j :: 0 <= i < j < |p| ==>
      le(keys[p[i]], keys[p[j]]) && (le(keys[p[j]], keys[p[i]]) ==> p[i] < p[j])
  }

  /** Puts position x before the first position whose key is greater. */
  function Insert<K>(keys: seq<K>, le: (K, K) -> bool, p: seq<nat>, x: nat): (r: seq<nat>)
    requires AllBelow(p, |keys|) && x < |keys|
    ensures multiset(r) == multiset(p) + multiset{x}
    ensures AllBelow(r, |keys|) && |r| == |p| + 1
  {
    if p == [] then [x]
    else
      assert p == [p[0]] + p[1..];
      if le(keys[p[0]], keys[x]) then [p[0]] + Insert(keys, le, p[1..], x) else [x] + p
  }

  function SortFirst<K>(keys: seq<K>, le: (K, K) -> bool, n: nat): (p: seq<nat>)
    requires n <= |keys|
    ensures |p| == n && AllBelow(p, n)
  {
    if n == 0 then []
    else
      var p := Insert(keys, le, SortFirst(keys, le, n - 1), n - 1);
      InsertBelow(keys, le, SortFirst(keys, le, n - 1), n - 1, n);
      p
  }

  lemma {:induction false} InsertBelow<K>(keys: seq<K>, le: (K, K) -> bool, p: seq<nat>, x: nat, n: nat)
    requires AllBelow(p, n) && x < n <= |keys|
    ensures AllBelow(Insert(keys, le, p, x), n)
  {
    if p == [] {
    } else {
      InsertBelow(keys, le, p[1..], x, n);
    }
  }

  function ArgSort<K>(keys: seq<K>, le: (K, K) -> bool): (p: seq<nat>)
    ensures |p| == |keys| && AllBelow(p, |keys|)
  {
    SortFirst(keys, le, |keys|)
  }

  lemma {:induction false} InsertSorted<K(!new)>(keys: seq<K>, le: (K, K) -> bool, p: seq<nat>, x: nat)
    requires TotalPreorder(le) && AllBelow(p, x) && x < |keys| && StablySorted(keys, le, p)
    ensures StablySorted(keys, le, Insert(keys, le, p, x))
  {
    if p == [] {
    } else if le(keys[p[0]], keys[x]) {
      InsertSorted(keys, le, p[1..], x);
      var rest := Insert(keys, le, p[1..], x);
      forall j | 0 <= j < |rest| ensures Before(keys, le, p[0], rest[j]) {
        InsertMember(keys, le, p[1..], x, j);
        if rest[j] != x {
          var k :| 0 <= k < |p[1..]| && p[1..][k] == rest[j];
          assert p[k + 1] == rest[j];
        }
      }
      SortedCons(keys, le, p[0], rest);
    } else {
      forall j | 0 <= j < |p| ensures Before(keys, le, x, p[j]) {
        assert le(keys[p[0]], keys[p[j]]);
      }
      SortedCons(keys, le, x, p);
    }
  }

  ghost predicate Before<K>(keys: seq<K>, le: (K, K) -> bool, a: nat, b: nat)
    requires a < |keys| && b < |keys|
  {
    le(keys[a], keys[b]) && (le(keys[b], keys[a]) ==> a < b)
  }

  lemma SortedCons<K>(keys: seq<K>, le: (K, K) -> bool, x: nat, p: seq<nat>)
    requires AllBelow(p, |keys|) && x < |keys| && StablySorted(keys, le, p)
    requires forall j :: 0 <= j < |p| ==> Before(keys, le, x, p[j])
    ensures StablySorted(keys, le, [x] + p)
  {
  }

  lemma InsertMember<K>(keys: seq<K>, le: (K, K) -> bool, p: seq<nat>, x: nat, j: nat)
    requires AllBelow(p, |keys|) && x < |keys| && j < |Insert(keys, le, p, x)|
    ensures Insert(keys, le, p, x)[j] == x || Insert(keys, le, p, x)[j] in p
  {
    assert Insert(keys, le, p, x)[j] in multiset(p) + multiset{x};
  }

  lemma {:induction false} SortFirstSorted<K(!new)>(keys: seq<K>, le: (K, K) -> bool, n: nat)
    requires TotalPreorder(le) && n <= |keys|
    ensures StablySorted(keys, le, SortFirst(keys, le, n))
  {
    if n == 0 {
    } else {
      SortFirstSorted(keys, le, n - 1);
      var p := SortFirst(keys, le, n - 1);
      assert SortFirst(keys, le, n) == Insert(keys, le, p, n - 1);
      InsertSorted(keys, le, p, n - 1);
    }
  }

  lemma SortFirstNext<K>(keys: seq<K>, le: (K, K) -> bool, n: nat)
    requires n < |keys|
    ensures multiset(SortFirst(keys, le, n + 1)) == multiset(SortFirst(keys, le, n)) + multiset{n}
  {
    assert SortFirst(keys, le, n + 1) == Insert(keys, le, SortFirst(keys, le, n), n);
  }

  lemma IotaNext(n: nat)
    ensures multiset(Iota(n + 1)) == multiset(Iota(n)) + multiset{n}
  {
    assert Iota(n + 1) == Iota(n) + [n];
  }

  lemma {:induction false} SortFirstPermutes<K>(keys: seq<K>, le: (K, K) -> bool, n: nat)
    requires n <= |keys|
    ensures multiset(SortFirst(keys, le, n)) == multiset(Iota(n))
  {
    if n == 0 {
    } else {
      SortFirstPermutes(keys, le, n - 1);
      SortFirstNext(keys, le, n - 1);
      IotaNext(n - 1);
    }
  }

  /** Sorting yields a permutation of the positions that is ordered by key and stable. */
  lemma ArgSortCorrect<K(!new)>(keys: seq<K>, le: (K, K) -> bool)
    requires TotalPreorder(le)
    ensures IsPermutation(ArgSort(keys, le), |keys|)
    ensures StablySorted(keys, le, ArgSort(keys, le))
  {
    SortFirstSorted(keys, le, |keys|);
    SortFirstPermutes(keys, le, |keys|);
    PermutationIffMultiset(ArgSort(keys, le), |keys|);
  }

  predicate AtMost(a: int, b: int) { a <= b }

  /** The positions of integers in ascending order; equal ones stay in increasing order. */
  function AscendingPositions(keys: seq<int>): (p: seq<nat>)
    ensures IsPermutation(p, |keys|)
    ensures forall i, j :: 0 <= i < j < |keys| ==>
              keys[p[i]] <= keys[p[j]] && (keys[p[i]] == keys[p[j]] ==> p[i] < p[j])
  {
    ArgSortCorrect(keys, AtMost);
    ArgSort(keys, AtMost)
  }
}
