/** Dealing a sequence out to shards, and grids of parts: one row per chunk, one column per shard,
    read chunk by chunk or shard by shard. */
module Grids {
  import opened Arithmetic
  import opened Sequences

  /** The elements among the first n whose position is s modulo shards, in order. */
  function Deal<X>(xs: seq<X>, shards: nat, s: nat, n: nat): seq<X>
    requires shards >= 1 && n <= |xs|
  {
    if n == 0 then []
    else if (n - 1) % shards == s then Deal(xs, shards, s, n - 1) + [xs[n - 1]]
    else Deal(xs, shards, s, n - 1)
  }

  function DealAll<X>(xs: seq<X>, shards: nat, n: nat): seq<seq<X>>
    requires shards >= 1 && n <= |xs|
  {
    seq(shards, s requires 0 <= s < shards => Deal(xs, shards, s, n))
  }

  /** After q full rounds and r more elements, shard s holds q elements, and one more if s < r; the k-th
      of them is element s + k * shards. */
  lemma {:induction false} DealMeaning<X>(xs: seq<X>, shards: nat, s: nat, q: nat, r: nat)
    requires shards >= 1 && s < shards && r < shards && q * shards + r <= |xs|
    ensures var d := Deal(xs, shards, s, q * shards + r);
      && |d| == q + (if s < r then 1 else 0)
      && forall k :: 0 <= k < |d| ==> 0 <= s + k * shards < q * shards + r && d[k] == xs[s + k * shards]
    decreases q, r
  {
    var n := q * shards + r;
    if r > 0 {
      DivisionIsUnique(n - 1, shards, q, r - 1);
      DealMeaning(xs, shards, s, q, r - 1);
    } else if q > 0 {
      assert q * shards == (q - 1) * shards + shards;
      DivisionIsUnique(n - 1, shards, q - 1, shards - 1);
      DealMeaning(xs, shards, s, q - 1, shards - 1);
      DealLast(xs, shards, s, q);
    }
  }

  /** The last element of a full round goes to the last shard. */
  lemma DealLast<X>(xs: seq<X>, shards: nat, s: nat, q: nat)
    requires shards >= 1 && s < shards && 1 <= q && q * shards <= |xs| && q * shards - 1 >= 0
    requires (q * shards - 1) % shards == shards - 1
    requires var d := Deal(xs, shards, s, q * shards - 1);
      && |d| == (q - 1) + (if s < shards - 1 then 1 else 0)
      && forall k :: 0 <= k < |d| ==> 0 <= s + k * shards < q * shards - 1 && d[k] == xs[s + k * shards]
    ensures var d := Deal(xs, shards, s, q * shards);
      && |d| == q
      && forall k :: 0 <= k < |d| ==> 0 <= s + k * shards < q * shards && d[k] == xs[s + k * shards]
  {
    OneMore(q - 1, shards);
    var end := q * shards;
    if s == shards - 1 {
      assert Deal(xs, shards, s, end) == Deal(xs, shards, s, end - 1) + [xs[end - 1]];
    } else {
      assert Deal(xs, shards, s, end) == Deal(xs, shards, s, end - 1);
    }
  }

  /** Dealing evenly gives every shard the same number of elements. */
  lemma DealEven<X>(xs: seq<X>, shards: nat, s: nat, size: nat)
    requires shards >= 1 && s < shards && |xs| == size * shards
    ensures var d := Deal(xs, shards, s, |xs|);
      && |d| == size
      && forall k :: 0 <= k < size ==> 0 <= s + k * shards < |xs| && d[k] == xs[s + k * shards]
  {
    DealMeaning(xs, shards, s, size, 0);
  }

  /** Nothing is lost or duplicated by dealing lists out and concatenating what each shard got. */
  lemma {:induction false} DealKeepsAll<X>(xs: seq<seq<X>>, shards: nat, n: nat)
    requires shards >= 1 && n <= |xs|
    ensures multiset(Flat(FlatEach(DealAll(xs, shards, n)))) == multiset(Flat(xs[..n]))
  {
    hide DealAll, FlatEach, Flat;
    if n == 0 {
      DealtNothing(xs, shards);
    } else {
      DealKeepsAll(xs, shards, n - 1);
      DealtOneMore(xs, shards, n - 1);
      CountNext(xs, n - 1);
    }
  }

  lemma DealtNothing<X>(xs: seq<seq<X>>, shards: nat)
    requires shards >= 1
    ensures Flat(FlatEach(DealAll(xs, shards, 0))) == [] == Flat(xs[..0])
  {
    FlatOfNothing(FlatEach(DealAll(xs, shards, 0)));
  }

  lemma DealtOneMore<X>(xs: seq<seq<X>>, shards: nat, n: nat)
    requires shards >= 1 && n < |xs|
    ensures multiset(Flat(FlatEach(DealAll(xs, shards, n + 1)))) ==
            multiset(Flat(FlatEach(DealAll(xs, shards, n)))) + multiset(xs[n])
  {
    hide DealAll, FlatEach, Flat;
    var s := DealNext(xs, shards, n);
    DealtGrow(DealAll(xs, shards, n), s, xs[n]);
  }

  lemma CountNext<X>(xs: seq<seq<X>>, n: nat)
    requires n < |xs|
    ensures multiset(Flat(xs[..n + 1])) == multiset(Flat(xs[..n])) + multiset(xs[n])
  {
    FlatNext(xs, n);
  }

  lemma DealtGrow<X>(parts: seq<seq<seq<X>>>, s: nat, x: seq<X>)
    requires s < |parts|
    ensures multiset(Flat(FlatEach(parts[s := parts[s] + [x]]))) == multiset(Flat(FlatEach(parts))) + multiset(x)
  {
    hide Flat;
    FlatEachGrow(parts, s, x);
    FlatGrow(FlatEach(parts), s, x);
  }

  /** Dealing out one more element appends it to one shard. */
  lemma DealNext<X>(xs: seq<X>, shards: nat, n: nat) returns (s: nat)
    requires shards >= 1 && n < |xs|
    ensures s < shards && |DealAll(xs, shards, n)| == shards
    ensures DealAll(xs, shards, n + 1) == DealAll(xs, shards, n)[s := DealAll(xs, shards, n)[s] + [xs[n]]]
  {
    s := n % shards;
    var before, after := DealAll(xs, shards, n), DealAll(xs, shards, n + 1);
    forall t | 0 <= t < shards ensures after[t] == before[s := before[s] + [xs[n]]][t] {
      assert after[t] == Deal(xs, shards, t, n + 1) && before[t] == Deal(xs, shards, t, n);
    }
  }

  lemma FlatEachGrow<X>(parts: seq<seq<seq<X>>>, s: nat, x: seq<X>)
    requires s < |parts|
    ensures FlatEach(parts[s := parts[s] + [x]]) == FlatEach(parts)[s := FlatEach(parts)[s] + x]
  {
    hide Flat;
    FlatSnoc(parts[s], x);
  }

  function FlatEach<X>(xss: seq<seq<seq<X>>>): seq<seq<X>> {
    seq(|xss|, i requires 0 <= i < |xss| => Flat(xss[i]))
  }

  lemma FlatGrow<X>(xs: seq<seq<X>>, i: nat, more: seq<X>)
    requires i < |xs|
    ensures multiset(Flat(xs[i := xs[i] + more])) == multiset(Flat(xs)) + multiset(more)
  {
    FlatReplace(xs, i, xs[i] + more);
    assert multiset(xs[i] + more) == multiset(xs[i]) + multiset(more);
    var a, b := multiset(Flat(xs[i := xs[i] + more])), multiset(Flat(xs)) + multiset(more);
    CancelCommon(a, b, multiset(xs[i]));
  }

  /** Dealing single elements. */
  lemma {:induction false} DealSinglesKeepsAll<X>(xs: seq<X>, shards: nat, n: nat)
    requires shards >= 1 && n <= |xs|
    ensures multiset(Flat(DealAll(xs, shards, n))) == multiset(xs[..n])
  {
    hide DealAll, Flat;
    if n == 0 {
      NoSinglesDealt(xs, shards);
    } else {
      DealSinglesKeepsAll(xs, shards, n - 1);
      OneSingleMore(xs, shards, n - 1);
      MultisetSnoc(xs, n);
    }
  }

  lemma NoSinglesDealt<X>(xs: seq<X>, shards: nat)
    requires shards >= 1
    ensures Flat(DealAll(xs, shards, 0)) == []
  {
    FlatOfNothing(DealAll(xs, shards, 0));
  }

  lemma OneSingleMore<X>(xs: seq<X>, shards: nat, n: nat)
    requires shards >= 1 && n < |xs|
    ensures multiset(Flat(DealAll(xs, shards, n + 1))) == multiset(Flat(DealAll(xs, shards, n))) + multiset{xs[n]}
  {
    hide DealAll, Flat;
    var s := DealNext(xs, shards, n);
    FlatGrow(DealAll(xs, shards, n), s, [xs[n]]);
  }

  // ----- grids -----

  ghost predicate IsGrid<X>(grid: seq<seq<seq<X>>>, shards: nat) {
    forall c :: 0 <= c < |grid| ==> |grid[c]| == shards
  }

  /** What shard s holds: its part of every chunk, in chunk order. */
  function Column<X>(grid: seq<seq<seq<X>>>, shards: nat, s: nat): seq<X>
    requires IsGrid(grid, shards) && s < shards
  {
    if grid == [] then [] else Column(grid[..|grid| - 1], shards, s) + grid[|grid| - 1][s]
  }

  /** What shard s holds, chunk by chunk. */
  function ColumnParts<X>(grid: seq<seq<seq<X>>>, shards: nat, s: nat): (r: seq<seq<X>>)
    requires IsGrid(grid, shards) && s < shards
    ensures |r| == |grid|
  {
    seq(|grid|, c requires 0 <= c < |grid| => grid[c][s])
  }

  lemma {:induction false} ColumnIsFlat<X>(grid: seq<seq<seq<X>>>, shards: nat, s: nat)
    requires IsGrid(grid, shards) && s < shards
    ensures Column(grid, shards, s) == Flat(ColumnParts(grid, shards, s))
  {
    if grid == [] {
    } else {
      var last := |grid| - 1;
      ColumnIsFlat(grid[..last], shards, s);
      FlatSnoc(ColumnParts(grid[..last], shards, s), grid[last][s]);
      assert ColumnParts(grid, shards, s) == ColumnParts(grid[..last], shards, s) + [grid[last][s]];
    }
  }

  function Columns<X>(grid: seq<seq<seq<X>>>, shards: nat): seq<seq<X>>
    requires IsGrid(grid, shards)
  {
    seq(shards, s requires 0 <= s < shards => Column(grid, shards, s))
  }

  function ChunkMajor<X>(grid: seq<seq<seq<X>>>): seq<X> {
    Flat(FlatEach(grid))
  }

  function ShardMajor<X>(grid: seq<seq<seq<X>>>, shards: nat): seq<X>
    requires IsGrid(grid, shards)
  {
    Flat(Columns(grid, shards))
  }

  lemma {:induction false} PairwiseAppend<X>(a: seq<seq<X>>, b: seq<seq<X>>, ab: seq<seq<X>>)
    requires |a| == |b| == |ab|
    requires forall i :: 0 <= i < |a| ==> ab[i] == a[i] + b[i]
    ensures multiset(Flat(ab)) == multiset(Flat(a)) + multiset(Flat(b))
  {
    if a == [] {
    } else {
      PairwiseAppend(a[1..], b[1..], ab[1..]);
      assert multiset(ab[0]) == multiset(a[0]) + multiset(b[0]);
    }
  }

  /** Both readings of a grid hold the same elements. */
  lemma {:induction false} ReadingsAgree<X>(grid: seq<seq<seq<X>>>, shards: nat)
    requires IsGrid(grid, shards)
    ensures multiset(ShardMajor(grid, shards)) == multiset(ChunkMajor(grid))
  {
    if grid == [] {
      FlatOfNothing(Columns(grid, shards));
    } else {
      var n := |grid| - 1;
      ReadingsAgree(grid[..n], shards);
      PairwiseAppend(Columns(grid[..n], shards), grid[n], Columns(grid, shards));
      LastChunk(grid);
    }
  }

  lemma LastChunk<X>(grid: seq<seq<seq<X>>>)
    requires grid != []
    ensures ChunkMajor(grid) == ChunkMajor(grid[..|grid| - 1]) + Flat(grid[|grid| - 1])
  {
    var n := |grid| - 1;
    assert FlatEach(grid) == FlatEach(grid[..n]) + [Flat(grid[n])];
    FlatSnoc(FlatEach(grid[..n]), Flat(grid[n]));
  }

  /** With one chunk, or with one shard, both readings are the same sequence. */
  lemma {:induction false} ReadingsEqual<X>(grid: seq<seq<seq<X>>>, shards: nat)
    requires IsGrid(grid, shards) && (|grid| == 1 || shards == 1)
    ensures ShardMajor(grid, shards) == ChunkMajor(grid)
  {
    if |grid| == 1 {
      forall s | 0 <= s < shards ensures Columns(grid, shards)[s] == grid[0][s] {
        assert grid[..0] == [];
        assert Column(grid, shards, s) == [] + grid[0][s];
      }
      assert Columns(grid, shards) == grid[0];
      assert FlatEach(grid) == [Flat(grid[0])];
      FlatSingle(Flat(grid[0]));
    } else {
      assert Columns(grid, 1) == [Column(grid, 1, 0)];
      FlatSingle(Column(grid, 1, 0));
      OneColumn(grid);
    }
  }

  lemma {:induction false} OneColumn<X>(grid: seq<seq<seq<X>>>)
    requires IsGrid(grid, 1)
    ensures Column(grid, 1, 0) == ChunkMajor(grid)
  {
    if grid == [] {
    } else {
      var n := |grid| - 1;
      OneColumn(grid[..n]);
      LastChunk(grid);
      assert grid[n] == [grid[n][0]];
      FlatSingle(grid[n][0]);
    }
  }

  /** With several chunks and several shards the readings part ways after the first part: one goes on
      with the first chunk, the other with the first shard. */
  lemma ReadingsDiffer<X>(grid: seq<seq<seq<X>>>, shards: nat, size: nat)
    requires IsGrid(grid, shards) && |grid| >= 2 && shards >= 2 && size >= 1
    requires forall c, s :: 0 <= c < |grid| && 0 <= s < shards ==> |grid[c][s]| == size
    ensures |ShardMajor(grid, shards)| > size && |ChunkMajor(grid)| > size
    ensures ShardMajor(grid, shards)[size] == grid[1][0][0]
    ensures ChunkMajor(grid)[size] == grid[0][1][0]
  {
    ColumnStart(grid, shards, 0);
    assert Flat(Columns(grid, shards)) == Column(grid, shards, 0) + Flat(Columns(grid, shards)[1..]);
    var first := grid[0];
    assert Flat(first) == first[0] + (first[1] + Flat(first[1..][1..]));
    assert Flat(FlatEach(grid)) == Flat(first) + Flat(FlatEach(grid)[1..]);
  }

  lemma {:induction false} ColumnStart<X>(grid: seq<seq<seq<X>>>, shards: nat, s: nat)
    requires IsGrid(grid, shards) && |grid| >= 2 && s < shards
    ensures grid[0][s] + grid[1][s] <= Column(grid, shards, s)
  {
    if |grid| == 2 {
      assert grid[..1][..0] == [];
      assert Column(grid[..1], shards, s) == [] + grid[0][s];
    } else {
      ColumnStart(grid[..|grid| - 1], shards, s);
    }
  }
}
