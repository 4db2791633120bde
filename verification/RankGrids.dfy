/** N-dimensional arrays of ranks: their flat order, and selecting along some of their axes. */
module RankGrids {
  import opened Options
  import opened Sequences
  import Arithmetic

  // ----- arrays of ranks -----

  datatype Grid = Cell(rank: int) | Line(cells: seq<Grid>)

  predicate HasShape(g: Grid, shape: seq<nat>)
    decreases |shape|
  {
    if shape == [] then g.Cell?
    else g.Line? && |g.cells| == shape[0] && forall i :: 0 <= i < |g.cells| ==> HasShape(g.cells[i], shape[1..])
  }

  predicate IsIndex(index: seq<nat>, shape: seq<nat>) {
    |index| == |shape| && forall i :: 0 <= i < |index| ==> index[i] < shape[i]
  }

  lemma IndexTail(index: seq<nat>, shape: seq<nat>)
    requires IsIndex(index, shape) && shape != []
    ensures IsIndex(index[1..], shape[1..])
  {
  }

  function At(g: Grid, shape: seq<nat>, index: seq<nat>): int
    requires HasShape(g, shape) && IsIndex(index, shape)
    decreases |shape|
  {
    if shape == [] then g.rank
    else
      IndexTail(index, shape);
      At(g.cells[index[0]], shape[1..], index[1..])
  }

  ghost predicate DistinctRanks(g: Grid, shape: seq<nat>)
    requires HasShape(g, shape)
  {
    forall a, b :: IsIndex(a, shape) && IsIndex(b, shape) && At(g, shape, a) == At(g, shape, b) ==> a == b
  }

  // ----- the flat order of an array -----

  function FlatLines(cells: seq<Grid>): (r: seq<seq<int>>)
    ensures |r| == |cells|
    decreases cells, 1
  {
    seq(|cells|, i requires 0 <= i < |cells| => Flatten(cells[i]))
  }

  function Flatten(g: Grid): seq<int>
    decreases g, 0
  {
    match g
    case Cell(rank) => [rank]
    case Line(cells) => Flat(FlatLines(cells))
  }

  function Size(shape: seq<nat>): nat {
    if shape == [] then 1 else shape[0] * Size(shape[1..])
  }

  /** The place of an index in the flat order: its digits, in a base for every axis. */
  function Position(index: seq<nat>, shape: seq<nat>): nat
    requires IsIndex(index, shape)
  {
    if shape == [] then 0
    else
      IndexTail(index, shape);
      index[0] * Size(shape[1..]) + Position(index[1..], shape[1..])
  }

  lemma {:induction false} FlattenLength(g: Grid, shape: seq<nat>)
    requires HasShape(g, shape)
    ensures |Flatten(g)| == Size(shape)
    decreases |shape|
  {
    if shape == [] {
    } else {
      var lines := FlatLines(g.cells);
      forall i | 0 <= i < |lines| ensures |lines[i]| == Size(shape[1..]) {
        FlattenLength(g.cells[i], shape[1..]);
      }
      FlatLength(lines, Size(shape[1..]));
    }
  }

  lemma PositionStep(i: nat, n: nat, k: nat, size: nat)
    requires i < n && k < size
    ensures i * size + k < (i + 1) * size <= n * size
  {
    assert (i + 1) * size == i * size + size;
    Arithmetic.SmallerQuotient(i + 1, n, size);
  }

  lemma {:induction false} PositionInside(index: seq<nat>, shape: seq<nat>)
    requires IsIndex(index, shape)
    ensures Position(index, shape) < Size(shape)
    decreases |shape|
  {
    if shape == [] {
    } else {
      IndexTail(index, shape);
      PositionInside(index[1..], shape[1..]);
      PositionStep(index[0], shape[0], Position(index[1..], shape[1..]), Size(shape[1..]));
    }
  }

  /** Flattening puts every rank at its position. */
  lemma {:induction false} FlattenAt(g: Grid, shape: seq<nat>, index: seq<nat>)
    requires HasShape(g, shape) && IsIndex(index, shape)
    ensures |Flatten(g)| == Size(shape) && Position(index, shape) < Size(shape)
    ensures Flatten(g)[Position(index, shape)] == At(g, shape, index)
    decreases |shape|
  {
    FlattenLength(g, shape);
    PositionInside(index, shape);
    if shape == [] {
    } else {
      IndexTail(index, shape);
      var i, rest := index[0], shape[1..];
      FlattenAt(g.cells[i], rest, index[1..]);
      LineAt(g, rest, i, Position(index[1..], rest));
    }
  }

  lemma LineAt(g: Grid, rest: seq<nat>, i: nat, k: nat)
    requires g.Line? && i < |g.cells| && k < Size(rest)
    requires forall j :: 0 <= j < |g.cells| ==> HasShape(g.cells[j], rest)
    ensures |Flatten(g.cells[i])| == Size(rest)
    ensures i * Size(rest) + k < |Flatten(g)| && Flatten(g)[i * Size(rest) + k] == Flatten(g.cells[i])[k]
  {
    var lines, size := FlatLines(g.cells), Size(rest);
    forall j | 0 <= j < |lines| ensures |lines[j]| == size {
      FlattenLength(g.cells[j], rest);
    }
    EqualParts(lines, size, i);
    PositionStep(i, i + 1, k, size);
    assert Flat(lines)[i * size..(i + 1) * size][k] == Flat(lines)[i * size + k];
  }

  lemma Digits(p: nat, n: nat, size: nat)
    requires p < n * size
    ensures size > 0 && p / size < n && p % size < size && p == p / size * size + p % size
  {
    assert size == 0 ==> n * size == 0;
    if p / size >= n {
      Arithmetic.SmallerQuotient(n, p / size, size);
    }
  }

  /** The index at a position. */
  function Unravel(shape: seq<nat>, p: nat): (index: seq<nat>)
    requires p < Size(shape)
    decreases |shape|
  {
    if shape == [] then []
    else
      var size := Size(shape[1..]);
      Digits(p, shape[0], size);
      [p / size] + Unravel(shape[1..], p % size)
  }

  /** Every position is that of some index... */
  lemma {:induction false} PositionOfUnraveled(shape: seq<nat>, p: nat)
    requires p < Size(shape)
    ensures IsIndex(Unravel(shape, p), shape) && Position(Unravel(shape, p), shape) == p
    decreases |shape|
  {
    if shape == [] {
    } else {
      var size := Size(shape[1..]);
      Digits(p, shape[0], size);
      PositionOfUnraveled(shape[1..], p % size);
      assert Unravel(shape, p)[1..] == Unravel(shape[1..], p % size);
    }
  }

  /** ... and of one only. */
  lemma {:induction false} PositionIsInjective(a: seq<nat>, b: seq<nat>, shape: seq<nat>)
    requires IsIndex(a, shape) && IsIndex(b, shape) && Position(a, shape) == Position(b, shape)
    ensures a == b
    decreases |shape|
  {
    if shape == [] {
    } else {
      IndexTail(a, shape);
      IndexTail(b, shape);
      var size := Size(shape[1..]);
      PositionInside(a[1..], shape[1..]);
      PositionInside(b[1..], shape[1..]);
      Arithmetic.DivisionIsUnique(Position(a, shape), size, a[0], Position(a[1..], shape[1..]));
      Arithmetic.DivisionIsUnique(Position(b, shape), size, b[0], Position(b[1..], shape[1..]));
      PositionIsInjective(a[1..], b[1..], shape[1..]);
      assert a == [a[0]] + a[1..] && b == [b[0]] + b[1..];
    }
  }

  lemma FlatDistinctIff(g: Grid, shape: seq<nat>)
    requires HasShape(g, shape)
    ensures Distinct(Flatten(g)) <==> DistinctRanks(g, shape)
  {
    var flat := Flatten(g);
    FlattenLength(g, shape);
    if Distinct(flat) {
      forall a, b | IsIndex(a, shape) && IsIndex(b, shape) && At(g, shape, a) == At(g, shape, b) ensures a == b {
        FlattenAt(g, shape, a);
        FlattenAt(g, shape, b);
        PositionIsInjective(a, b, shape);
      }
    }
    if DistinctRanks(g, shape) {
      forall p, q | 0 <= p < q < |flat| ensures flat[p] != flat[q] {
        var a, b := Unravel(shape, p), Unravel(shape, q);
        PositionOfUnraveled(shape, p);
        PositionOfUnraveled(shape, q);
        FlattenAt(g, shape, a);
        FlattenAt(g, shape, b);
      }
    }
  }

  /** The ranks of an array are those at its indices. */
  lemma FlatHolds(g: Grid, shape: seq<nat>, rank: int)
    requires HasShape(g, shape)
    ensures rank in Flatten(g) <==> exists a :: IsIndex(a, shape) && At(g, shape, a) == rank
  {
    FlattenLength(g, shape);
    if rank in Flatten(g) {
      var p :| 0 <= p < |Flatten(g)| && Flatten(g)[p] == rank;
      var a := Unravel(shape, p);
      PositionOfUnraveled(shape, p);
      FlattenAt(g, shape, a);
    }
    if a :| IsIndex(a, shape) && At(g, shape, a) == rank {
      FlattenAt(g, shape, a);
    }
  }

  // ----- selecting along axes -----

  /** For every axis, the coordinate it is fixed at, if it is. */
  type Selection = seq<Option<nat>>

  predicate Matches(index: seq<nat>, sel: Selection)
    requires |index| == |sel|
  {
    forall i :: 0 <= i < |sel| && sel[i].Some? ==> index[i] == sel[i].value
  }

  predicate InBounds(sel: Selection, shape: seq<nat>) {
    |sel| == |shape| && forall i :: 0 <= i < |sel| && sel[i].Some? ==> sel[i].value < shape[i]
  }

  /** The entries of the axes that are not fixed. */
  function Kept<X>(xs: seq<X>, sel: Selection): seq<X>
    requires |xs| == |sel|
  {
    if sel == [] then []
    else if sel[0].Some? then Kept(xs[1..], sel[1..])
    else [xs[0]] + Kept(xs[1..], sel[1..])
  }

  /** Indexing an array with the fixed coordinates, leaving the other axes whole. */
  function Subset(g: Grid, shape: seq<nat>, sel: Selection): (r: Grid)
    requires HasShape(g, shape) && InBounds(sel, shape)
    ensures HasShape(r, Kept(shape, sel))
    decreases |shape|
  {
    if shape == [] then g
    else if sel[0].Some? then Subset(g.cells[sel[0].value], shape[1..], sel[1..])
    else
      var cells := seq(|g.cells|, i requires 0 <= i < |g.cells| => Subset(g.cells[i], shape[1..], sel[1..]));
      assert Kept(shape, sel)[1..] == Kept(shape[1..], sel[1..]);
      Line(cells)
  }

  lemma {:induction false} KeptIndex(a: seq<nat>, shape: seq<nat>, sel: Selection)
    requires IsIndex(a, shape) && |sel| == |shape|
    ensures IsIndex(Kept(a, sel), Kept(shape, sel))
  {
    if sel == [] {
    } else {
      IndexTail(a, shape);
      KeptIndex(a[1..], shape[1..], sel[1..]);
    }
  }

  /** The subset holds the ranks at the matching indices, each at what is left of its index... */
  lemma {:induction false} SubsetAt(g: Grid, shape: seq<nat>, sel: Selection, a: seq<nat>)
    requires HasShape(g, shape) && InBounds(sel, shape) && IsIndex(a, shape) && Matches(a, sel)
    ensures IsIndex(Kept(a, sel), Kept(shape, sel))
    ensures At(Subset(g, shape, sel), Kept(shape, sel), Kept(a, sel)) == At(g, shape, a)
    decreases |shape|
  {
    KeptIndex(a, shape, sel);
    if shape == [] {
    } else {
      IndexTail(a, shape);
      SubsetAt(g.cells[a[0]], shape[1..], sel[1..], a[1..]);
      if sel[0].None? {
        assert Kept(shape, sel)[1..] == Kept(shape[1..], sel[1..]);
        assert Kept(a, sel)[1..] == Kept(a[1..], sel[1..]);
      }
    }
  }

  /** ... and nothing else. */
  lemma {:induction false} Whole(rest: seq<nat>, shape: seq<nat>, sel: Selection) returns (a: seq<nat>)
    requires InBounds(sel, shape) && IsIndex(rest, Kept(shape, sel))
    ensures IsIndex(a, shape) && Matches(a, sel) && Kept(a, sel) == rest
    decreases |shape|
  {
    if sel == [] {
      a := [];
    } else if sel[0].Some? {
      var b := Whole(rest, shape[1..], sel[1..]);
      a := [sel[0].value] + b;
      assert a[1..] == b;
    } else {
      IndexTail(rest, Kept(shape, sel));
      assert Kept(shape, sel)[1..] == Kept(shape[1..], sel[1..]);
      var b := Whole(rest[1..], shape[1..], sel[1..]);
      a := [rest[0]] + b;
      assert a[1..] == b;
    }
  }

  lemma SubsetHolds(g: Grid, shape: seq<nat>, sel: Selection, rank: int)
    requires HasShape(g, shape) && InBounds(sel, shape)
    ensures rank in Flatten(Subset(g, shape, sel)) <==>
            exists a :: IsIndex(a, shape) && Matches(a, sel) && At(g, shape, a) == rank
  {
    var sub, rest := Subset(g, shape, sel), Kept(shape, sel);
    FlatHolds(sub, rest, rank);
    if b :| IsIndex(b, rest) && At(sub, rest, b) == rank {
      var a := Whole(b, shape, sel);
      SubsetAt(g, shape, sel, a);
    }
    if a :| IsIndex(a, shape) && Matches(a, sel) && At(g, shape, a) == rank {
      SubsetAt(g, shape, sel, a);
    }
  }

  lemma SubsetIsDistinct(g: Grid, shape: seq<nat>, sel: Selection)
    requires HasShape(g, shape) && InBounds(sel, shape) && DistinctRanks(g, shape)
    ensures DistinctRanks(Subset(g, shape, sel), Kept(shape, sel))
  {
    var sub, rest := Subset(g, shape, sel), Kept(shape, sel);
    forall a, b | IsIndex(a, rest) && IsIndex(b, rest) && At(sub, rest, a) == At(sub, rest, b) ensures a == b {
      var wa := Whole(a, shape, sel);
      var wb := Whole(b, shape, sel);
      SubsetAt(g, shape, sel, wa);
      SubsetAt(g, shape, sel, wb);
    }
  }

  // ----- selecting twice -----

  /** First fixes some axes, then some of those left. */
  function Combined(first: Selection, second: Selection): (r: Selection)
    requires |second| == |Kept(first, first)|
    ensures |r| == |first|
  {
    if first == [] then []
    else if first[0].Some? then [first[0]] + Combined(first[1..], second)
    else [second[0]] + Combined(first[1..], second[1..])
  }

  lemma {:induction false} KeptLength<X, Y>(xs: seq<X>, ys: seq<Y>, sel: Selection)
    requires |xs| == |ys| == |sel|
    ensures |Kept(xs, sel)| == |Kept(ys, sel)|
  {
    if sel == [] {
    } else {
      KeptLength(xs[1..], ys[1..], sel[1..]);
    }
  }

  lemma {:induction false} KeptTwice<X>(xs: seq<X>, first: Selection, second: Selection)
    requires |xs| == |first| && |second| == |Kept(first, first)|
    ensures |Kept(xs, first)| == |second|
    ensures Kept(Kept(xs, first), second) == Kept(xs, Combined(first, second))
  {
    KeptLength(xs, first, first);
    if first == [] {
    } else {
      if first[0].Some? {
        assert Combined(first, second)[1..] == Combined(first[1..], second);
        KeptTwice(xs[1..], first[1..], second);
      } else {
        assert Combined(first, second)[1..] == Combined(first[1..], second[1..]);
        assert Kept(xs, first)[1..] == Kept(xs[1..], first[1..]);
        KeptTwice(xs[1..], first[1..], second[1..]);
      }
    }
  }

  lemma {:induction false} CombinedInBounds(shape: seq<nat>, first: Selection, second: Selection)
    requires InBounds(first, shape) && |second| == |Kept(first, first)|
    requires |Kept(shape, first)| == |second| && InBounds(second, Kept(shape, first))
    ensures InBounds(Combined(first, second), shape)
  {
    if first == [] {
    } else {
      if first[0].Some? {
        CombinedInBounds(shape[1..], first[1..], second);
      } else {
        assert Kept(shape, first)[1..] == Kept(shape[1..], first[1..]);
        KeptLength(shape[1..], first[1..], first[1..]);
        CombinedInBounds(shape[1..], first[1..], second[1..]);
      }
    }
  }

  lemma {:induction false} SubsetTwice(g: Grid, shape: seq<nat>, first: Selection, second: Selection)
    requires HasShape(g, shape) && InBounds(first, shape) && |second| == |Kept(first, first)|
    requires InBounds(second, Kept(shape, first)) && InBounds(Combined(first, second), shape)
    ensures Subset(Subset(g, shape, first), Kept(shape, first), second) == Subset(g, shape, Combined(first, second))
    decreases |shape|
  {
    if shape == [] {
    } else {
      var rest := shape[1..];
      if first[0].Some? {
        assert Combined(first, second)[1..] == Combined(first[1..], second);
        SubsetTwice(g.cells[first[0].value], rest, first[1..], second);
      } else {
        assert Combined(first, second)[1..] == Combined(first[1..], second[1..]);
        assert Kept(shape, first)[1..] == Kept(rest, first[1..]);
        KeptLength(rest, first[1..], first[1..]);
        forall i | 0 <= i < |g.cells|
          ensures Subset(Subset(g.cells[i], rest, first[1..]), Kept(rest, first[1..]), second[1..])
               == Subset(g.cells[i], rest, Combined(first[1..], second[1..]))
        {
          SubsetTwice(g.cells[i], rest, first[1..], second[1..]);
        }
      }
    }
  }
}
