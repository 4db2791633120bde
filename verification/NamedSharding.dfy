/** Layouts of ranks whose axes have names, and fixing coordinates along named axes. */
module NamedSharding {
  import opened Options
  import opened Sequences
  import opened RankGrids

  datatype Sharding = Sharding(shape: seq<nat>, grid: Grid, names: seq<string>)

  ghost predicate Valid(s: Sharding) {
    HasShape(s.grid, s.shape) && |s.shape| == |s.names| && DistinctRanks(s.grid, s.shape)
  }

  // ----- construction -----

  datatype Created = Ok(sharding: Sharding) | WrongDimensions | DuplicateRanks(duplicates: set<int>)

  lemma DuplicatesIff(flat: seq<int>, duplicates: set<int>)
    requires duplicates == set r | r in flat && multiset(flat)[r] > 1
    ensures duplicates == {} <==> Distinct(flat)
  {
    if Distinct(flat) {
      forall r | r in flat ensures multiset(flat)[r] == 1 {
        DistinctOnce(flat, r);
      }
    } else {
      var i, j :| 0 <= i < j < |flat| && flat[i] == flat[j];
      TwiceCounts(flat, i, j);
      assert flat[i] in duplicates;
    }
  }

  /** Refuses a layout whose dimensions do not match the names or in which a rank occurs twice. */
  method Create(shape: seq<nat>, grid: Grid, names: seq<string>) returns (created: Created)
    requires HasShape(grid, shape)
    ensures created.Ok? <==> Valid(Sharding(shape, grid, names))
    ensures created.Ok? ==> created.sharding == Sharding(shape, grid, names)
    ensures created.WrongDimensions? <==> |shape| != |names|
    ensures created.DuplicateRanks? ==>
              forall r :: r in created.duplicates <==> r in Flatten(grid) && multiset(Flatten(grid))[r] > 1
  {
    if |shape| != |names| {
      return WrongDimensions;
    }
    var flat := Flatten(grid);
    var duplicates := set r | r in flat && multiset(flat)[r] > 1;
    DuplicatesIff(flat, duplicates);
    FlatDistinctIff(grid, shape);
    if duplicates != {} {
      return DuplicateRanks(duplicates);
    }
    return Ok(Sharding(shape, grid, names));
  }

  // ----- names and axes -----

  type Coordinates = map<string, int>

  /** The axis a name stands for: the last one with that name. */
  function AxisOf(names: seq<string>, name: string): (axis: nat)
    requires name in names
    ensures axis < |names| && names[axis] == name
    ensures forall i :: axis < i < |names| ==> names[i] != name
  {
    if names[|names| - 1] == name then |names| - 1 else AxisOf(names[..|names| - 1], name)
  }

  predicate InRange(s: Sharding, name: string, index: int)
    requires |s.shape| == |s.names|
  {
    name in s.names && 0 <= index < s.shape[AxisOf(s.names, name)]
  }

  predicate AllInRange(s: Sharding, coords: Coordinates)
    requires |s.shape| == |s.names|
  {
    forall name :: name in coords ==> InRange(s, name, coords[name])
  }

  /** Every named axis is fixed at its coordinate. */
  function Select(s: Sharding, coords: Coordinates): (sel: Selection)
    requires |s.shape| == |s.names| && AllInRange(s, coords)
    ensures InBounds(sel, s.shape)
  {
    seq(|s.names|, i requires 0 <= i < |s.names| =>
      if s.names[i] in coords && AxisOf(s.names, s.names[i]) == i then
        assert InRange(s, s.names[i], coords[s.names[i]]);
        Some(coords[s.names[i]] as nat)
      else None)
  }

  datatype Ranks =
    | Rank(rank: int)
    | Sub(sharding: Sharding)
    | InvalidAxis(name: string)
    | OutOfBounds(name: string)

  /** The ranks at the given coordinates over the axes that are left, or the one rank if none is. */
  function Fixed(s: Sharding, coords: Coordinates): Ranks
    requires HasShape(s.grid, s.shape) && |s.shape| == |s.names| && AllInRange(s, coords)
  {
    var sel := Select(s, coords);
    var names, shape, grid := Kept(s.names, sel), Kept(s.shape, sel), Subset(s.grid, s.shape, sel);
    KeptLength(s.names, s.shape, sel);
    if names == [] then Rank(grid.rank) else Sub(Sharding(shape, grid, names))
  }

  /** The selection once the names outside todo have been looked up. */
  ghost predicate SelectsDone(s: Sharding, coords: Coordinates, todo: set<string>, sel: Selection)
    requires |s.shape| == |s.names|
  {
    && (forall name :: name in coords && name !in todo ==> InRange(s, name, coords[name]))
    && |sel| == |s.names|
    && forall i :: 0 <= i < |sel| ==>
         sel[i] == if s.names[i] in coords && s.names[i] !in todo && AxisOf(s.names, s.names[i]) == i
                   then Some(if coords[s.names[i]] >= 0 then coords[s.names[i]] as nat else 0) else None
  }

  lemma SelectName(s: Sharding, coords: Coordinates, todo: set<string>, sel: Selection, name: string)
    requires |s.shape| == |s.names| && SelectsDone(s, coords, todo, sel)
    requires name in todo && name in coords && InRange(s, name, coords[name])
    ensures SelectsDone(s, coords, todo - {name}, sel[AxisOf(s.names, name) := Some(coords[name] as nat)])
  {
  }

  lemma SelectsAll(s: Sharding, coords: Coordinates, sel: Selection)
    requires |s.shape| == |s.names| && SelectsDone(s, coords, {}, sel)
    ensures AllInRange(s, coords) && sel == Select(s, coords)
  {
    forall i | 0 <= i < |sel| ensures sel[i] == Select(s, coords)[i] {
      if s.names[i] in coords {
        assert InRange(s, s.names[i], coords[s.names[i]]);
      }
    }
  }

  /** Looks the given names up in any order, then indexes the array. */
  method GetRanks(s: Sharding, coords: Coordinates) returns (ranks: Ranks)
    requires Valid(s)
    ensures AllInRange(s, coords) ==> ranks == Fixed(s, coords)
    ensures !AllInRange(s, coords) ==> ranks.InvalidAxis? || ranks.OutOfBounds?
    ensures ranks.InvalidAxis? ==> ranks.name in coords && ranks.name !in s.names
    ensures ranks.OutOfBounds? ==>
              ranks.name in coords && ranks.name in s.names && !InRange(s, ranks.name, coords[ranks.name])
  {
    var sel: Selection := seq(|s.names|, _ => None);
    var todo := coords.Keys;
    while todo != {}
      invariant todo <= coords.Keys
      invariant SelectsDone(s, coords, todo, sel)
    {
      var name :| name in todo;
      if name !in s.names {
        return InvalidAxis(name);
      }
      var axis := AxisOf(s.names, name);
      if !(0 <= coords[name] < s.shape[axis]) {
        return OutOfBounds(name);
      }
      SelectName(s, coords, todo, sel, name);
      sel := sel[axis := Some(coords[name] as nat)];
      todo := todo - {name};
    }
    SelectsAll(s, coords, sel);
    var subset := Subset(s.grid, s.shape, sel);
    var remaining := Kept(s.names, sel);
    KeptLength(s.names, s.shape, sel);
    if remaining == [] {
      return Rank(subset.rank);
    }
    return Sub(Sharding(Kept(s.shape, sel), subset, remaining));
  }

  // ----- all ranks at some coordinates -----

  datatype Matching = Ranks(ranks: seq<int>) | UnknownAxis(name: string)

  function Insert(s: seq<int>, x: int): (r: seq<int>)
    requires Increasing(s)
    ensures Increasing(r)
    ensures forall y :: y in r <==> y in s || y == x
  {
    if s == [] then [x]
    else if x < s[0] then [x] + s
    else if x == s[0] then s
    else
      var rest := Insert(s[1..], x);
      assert forall i :: 0 <= i < |rest| ==> rest[i] in rest && (rest[i] in s[1..] || rest[i] == x);
      [s[0]] + rest
  }

  function SortedUnique(s: seq<int>): (r: seq<int>)
    ensures Increasing(r)
    ensures forall y :: y in r <==> y in s
  {
    if s == [] then [] else Insert(SortedUnique(s[1..]), s[0])
  }

  /** All ranks whose indices match the coordinates, in ascending order; none if a coordinate is out of bounds. */
  method GetRanksByCoord(s: Sharding, coords: Coordinates) returns (matching: Matching)
    requires Valid(s)
    ensures matching.UnknownAxis? ==> matching.name in coords && matching.name !in s.names
    ensures (forall name :: name in coords ==> name in s.names) ==> matching.Ranks?
    ensures matching.Ranks? && !AllInRange(s, coords) ==> matching.ranks == []
    ensures AllInRange(s, coords) ==>
              && matching.Ranks? && Increasing(matching.ranks)
              && forall rank :: rank in matching.ranks <==>
                   exists a :: IsIndex(a, s.shape) && Matches(a, Select(s, coords)) && At(s.grid, s.shape, a) == rank
  {
    var sel: Selection := seq(|s.names|, _ => None);
    var todo := coords.Keys;
    while todo != {}
      invariant todo <= coords.Keys
      invariant SelectsDone(s, coords, todo, sel)
    {
      var name :| name in todo;
      if name !in s.names {
        return UnknownAxis(name);
      }
      var axis := AxisOf(s.names, name);
      if !(0 <= coords[name] < s.shape[axis]) {
        return Ranks([]);
      }
      SelectName(s, coords, todo, sel, name);
      sel := sel[axis := Some(coords[name] as nat)];
      todo := todo - {name};
    }
    SelectsAll(s, coords, sel);
    forall rank
      ensures rank in Flatten(Subset(s.grid, s.shape, sel)) <==>
              exists a :: IsIndex(a, s.shape) && Matches(a, sel) && At(s.grid, s.shape, a) == rank
    {
      SubsetHolds(s.grid, s.shape, sel, rank);
    }
    return Ranks(SortedUnique(Flatten(Subset(s.grid, s.shape, sel))));
  }

  // ----- a worker's coordinates -----

  datatype Found = Coords(coords: Coordinates) | NotFound

  /** The coordinates under the axes' names of an index; of axes with one name the last counts. */
  function Named(names: seq<string>, index: seq<nat>): Coordinates
    requires |names| == |index|
  {
    if names == [] then map[]
    else Named(names[..|names| - 1], index[..|names| - 1])[names[|names| - 1] := index[|names| - 1]]
  }

  method GetWorkerCoords(s: Sharding, worker: int) returns (found: Found)
    requires Valid(s)
    ensures found.NotFound? <==> worker !in Flatten(s.grid)
    ensures found.Coords? ==>
              exists a :: IsIndex(a, s.shape) && At(s.grid, s.shape, a) == worker && found.coords == Named(s.names, a)
  {
    var flat := Flatten(s.grid);
    FlattenLength(s.grid, s.shape);
    var p := 0;
    while p < |flat| && flat[p] != worker
      invariant 0 <= p <= |flat|
      invariant worker !in flat[..p]
    {
      p := p + 1;
    }
    if p == |flat| {
      assert flat[..p] == flat;
      return NotFound;
    }
    var index := Unravel(s.shape, p);
    PositionOfUnraveled(s.shape, p);
    FlattenAt(s.grid, s.shape, index);
    var coords: Coordinates := map[];
    for i := 0 to |s.names|
      invariant coords == Named(s.names[..i], index[..i])
    {
      assert s.names[..i + 1][..i] == s.names[..i] && index[..i + 1][..i] == index[..i];
      coords := coords[s.names[i] := index[i]];
    }
    assert s.names[..|s.names|] == s.names && index[..|s.names|] == index;
    return Coords(coords);
  }

  // ----- with distinct names -----

  lemma AxisIsOwn(names: seq<string>, i: nat)
    requires Distinct(names) && i < |names|
    ensures AxisOf(names, names[i]) == i
  {
  }

  lemma {:induction false} NamedAt(names: seq<string>, index: seq<nat>)
    requires |names| == |index| && Distinct(names)
    ensures forall i :: 0 <= i < |names| ==>
              names[i] in Named(names, index) && Named(names, index)[names[i]] == index[i]
    ensures forall name :: name in Named(names, index) ==> name in names
  {
    if names == [] {
    } else {
      NamedAt(names[..|names| - 1], index[..|names| - 1]);
    }
  }

  lemma {:induction false} FixedAll<X>(xs: seq<X>, sel: Selection)
    requires |xs| == |sel| && forall i :: 0 <= i < |sel| ==> sel[i].Some?
    ensures Kept(xs, sel) == []
  {
    if sel == [] {
    } else {
      FixedAll(xs[1..], sel[1..]);
    }
  }

  lemma NamedSelects(s: Sharding, a: seq<nat>)
    requires Valid(s) && Distinct(s.names) && IsIndex(a, s.shape)
    ensures AllInRange(s, Named(s.names, a))
    ensures forall i :: 0 <= i < |a| ==> Select(s, Named(s.names, a))[i] == Some(a[i])
  {
    var coords := Named(s.names, a);
    NamedAt(s.names, a);
    forall name | name in coords ensures InRange(s, name, coords[name]) {
      assert coords[s.names[AxisOf(s.names, name)]] == a[AxisOf(s.names, name)];
    }
    forall i | 0 <= i < |a| ensures Select(s, coords)[i] == Some(a[i]) {
      AxisIsOwn(s.names, i);
    }
  }

  /** Fixing every axis at a worker's coordinates finds that worker, and no other coordinates do. */
  lemma WorkerCoordsInvert(s: Sharding, a: seq<nat>, b: seq<nat>)
    requires Valid(s) && Distinct(s.names) && IsIndex(a, s.shape) && IsIndex(b, s.shape)
    ensures AllInRange(s, Named(s.names, b))
    ensures Fixed(s, Named(s.names, b)) == Rank(At(s.grid, s.shape, a)) <==> a == b
  {
    FixNamed(s, b);
  }

  lemma FixNamed(s: Sharding, a: seq<nat>)
    requires Valid(s) && Distinct(s.names) && IsIndex(a, s.shape)
    ensures AllInRange(s, Named(s.names, a))
    ensures Fixed(s, Named(s.names, a)) == Rank(At(s.grid, s.shape, a))
  {
    NamedSelects(s, a);
    var sel := Select(s, Named(s.names, a));
    FixedAll(s.names, sel);
    FixedAll(s.shape, sel);
    FixedAll(a, sel);
    SubsetAt(s.grid, s.shape, sel, a);
  }

  // ----- fixing axes one after another -----

  lemma {:induction false} KeptMember<X>(xs: seq<X>, sel: Selection, x: X)
    requires |xs| == |sel|
    ensures x in Kept(xs, sel) <==> exists i :: 0 <= i < |xs| && sel[i].None? && xs[i] == x
  {
    if xs == [] {
    } else {
      KeptMember(xs[1..], sel[1..], x);
      if i :| 0 <= i < |xs| && sel[i].None? && xs[i] == x {
        if i > 0 {
          assert xs[1..][i - 1] == x && sel[1..][i - 1].None?;
        }
      }
      if i :| 0 <= i < |xs[1..]| && sel[1..][i].None? && xs[1..][i] == x {
        assert xs[i + 1] == x && sel[i + 1].None?;
      }
    }
  }

  lemma {:induction false} KeptDistinct(names: seq<string>, sel: Selection)
    requires |names| == |sel| && Distinct(names)
    ensures Distinct(Kept(names, sel))
  {
    if names == [] {
    } else {
      KeptDistinct(names[1..], sel[1..]);
      KeptMember(names[1..], sel[1..], names[0]);
    }
  }

  /** How a selection by name reads: some axes at their coordinates, the others whole. */
  ghost predicate Reads(names: seq<string>, coords: Coordinates, sel: Selection) {
    |sel| == |names| && forall i :: 0 <= i < |names| ==>
      sel[i] == if names[i] in coords && coords[names[i]] >= 0 then Some(coords[names[i]] as nat) else None
  }

  lemma SelectReads(s: Sharding, coords: Coordinates)
    requires |s.shape| == |s.names| && AllInRange(s, coords) && Distinct(s.names)
    ensures Reads(s.names, coords, Select(s, coords))
  {
    forall i | 0 <= i < |s.names| ensures AxisOf(s.names, s.names[i]) == i {
      AxisIsOwn(s.names, i);
    }
    assert forall name :: name in coords ==> InRange(s, name, coords[name]);
  }

  lemma {:induction false} ReadsCombined(
      names: seq<string>, a: Coordinates, b: Coordinates, sa: Selection, sb: Selection)
    requires Reads(names, a, sa) && Reads(Kept(names, sa), b, sb) && |sb| == |Kept(sa, sa)|
    requires a.Keys !! b.Keys
    requires forall name :: name in a ==> a[name] >= 0
    ensures Reads(names, a + b, Combined(sa, sb))
  {
    if names == [] {
    } else {
      KeptLength(names[1..], sa[1..], sa[1..]);
      if sa[0].Some? {
        ReadsCombined(names[1..], a, b, sa[1..], sb);
      } else {
        assert Kept(names, sa)[1..] == Kept(names[1..], sa[1..]);
        assert Kept(names, sa)[0] == names[0];
        ReadsCombined(names[1..], a, b, sa[1..], sb[1..]);
      }
      assert Combined(sa, sb) == [Combined(sa, sb)[0]] + Combined(sa, sb)[1..];
    }
  }

  lemma SameReading(names: seq<string>, coords: Coordinates, x: Selection, y: Selection)
    requires Reads(names, coords, x) && Reads(names, coords, y)
    ensures x == y
  {
  }

  lemma {:induction false} KeptEntry<X, Y>(xs: seq<X>, ys: seq<Y>, sel: Selection, j: nat) returns (i: nat)
    requires |xs| == |ys| == |sel| && j < |Kept(xs, sel)|
    ensures |Kept(ys, sel)| == |Kept(xs, sel)|
    ensures i < |sel| && sel[i].None? && Kept(xs, sel)[j] == xs[i] && Kept(ys, sel)[j] == ys[i]
  {
    KeptLength(xs, ys, sel);
    if sel[0].None? && j == 0 {
      i := 0;
    } else {
      i := KeptEntry(xs[1..], ys[1..], sel[1..], if sel[0].None? then j - 1 else j);
      i := i + 1;
    }
  }

  /** An axis that is left keeps its size. */
  lemma LeftInRange(s: Sharding, a: Coordinates, name: string, index: int)
    requires Valid(s) && Distinct(s.names) && AllInRange(s, a) && Fixed(s, a).Sub?
    requires |Fixed(s, a).sharding.shape| == |Fixed(s, a).sharding.names|
    requires InRange(Fixed(s, a).sharding, name, index)
    ensures name !in a && InRange(s, name, index)
  {
    var sel, sub := Select(s, a), Fixed(s, a).sharding;
    SelectReads(s, a);
    var i := KeptEntry(s.names, s.shape, sel, AxisOf(sub.names, name));
    AxisIsOwn(s.names, i);
    assert forall other :: other in a ==> InRange(s, other, a[other]);
  }

  /** And every axis that is not fixed is left. */
  lemma UnfixedIsLeft(s: Sharding, a: Coordinates, name: string, index: int)
    requires Valid(s) && Distinct(s.names) && AllInRange(s, a) && InRange(s, name, index) && name !in a
    ensures Fixed(s, a).Sub? && |Fixed(s, a).sharding.shape| == |Fixed(s, a).sharding.names|
    ensures InRange(Fixed(s, a).sharding, name, index)
  {
    var sel := Select(s, a);
    SelectReads(s, a);
    KeptLength(s.names, s.shape, sel);
    KeptMember(s.names, sel, name);
    assert sel[AxisOf(s.names, name)].None?;
    assert name in Kept(s.names, sel);
    var sub := Fixed(s, a).sharding;
    var i := KeptEntry(s.names, s.shape, sel, AxisOf(sub.names, name));
    AxisIsOwn(s.names, i);
  }

  /** Fixing some axes and then others is fixing all of them at once. */
  lemma FixTwice(s: Sharding, a: Coordinates, b: Coordinates)
    requires Valid(s) && Distinct(s.names) && AllInRange(s, a) && Fixed(s, a).Sub?
    requires Valid(Fixed(s, a).sharding) && AllInRange(Fixed(s, a).sharding, b)
    ensures a.Keys !! b.Keys && AllInRange(s, a + b)
    ensures Fixed(Fixed(s, a).sharding, b) == Fixed(s, a + b)
  {
    var sub := Fixed(s, a).sharding;
    FixTwiceInRange(s, a, b);
    SubIsValid(s, a);
    SelectTwice(s, a, b);
    var sa, sb := Select(s, a), Select(sub, b);
    KeptTwice(s.names, sa, sb);
    KeptTwice(s.shape, sa, sb);
    SubsetTwice(s.grid, s.shape, sa, sb);
  }

  lemma FixTwiceInRange(s: Sharding, a: Coordinates, b: Coordinates)
    requires Valid(s) && Distinct(s.names) && AllInRange(s, a) && Fixed(s, a).Sub?
    requires Valid(Fixed(s, a).sharding) && AllInRange(Fixed(s, a).sharding, b)
    ensures a.Keys !! b.Keys && AllInRange(s, a + b)
  {
    forall name | name in b ensures name !in a && InRange(s, name, b[name]) {
      LeftInRange(s, a, name, b[name]);
    }
  }

  lemma SelectTwice(s: Sharding, a: Coordinates, b: Coordinates)
    requires Valid(s) && Distinct(s.names) && AllInRange(s, a) && Fixed(s, a).Sub?
    requires Valid(Fixed(s, a).sharding) && Distinct(Fixed(s, a).sharding.names)
    requires AllInRange(Fixed(s, a).sharding, b) && a.Keys !! b.Keys && AllInRange(s, a + b)
    ensures var sa, sb := Select(s, a), Select(Fixed(s, a).sharding, b);
      |sb| == |Kept(sa, sa)| && Select(s, a + b) == Combined(sa, sb)
  {
    var sub := Fixed(s, a).sharding;
    var sa, sb := Select(s, a), Select(sub, b);
    SelectReads(s, a);
    SelectReads(sub, b);
    SelectReads(s, a + b);
    KeptLength(s.names, sa, sa);
    assert forall name :: name in a ==> InRange(s, name, a[name]);
    ReadsCombined(s.names, a, b, sa, sb);
    SameReading(s.names, a + b, Combined(sa, sb), Select(s, a + b));
  }

  /** Fixes one axis after another. */
  ghost function FixEach(s: Sharding, steps: seq<(string, int)>): Option<Ranks>
    decreases |steps|
  {
    if !Valid(s) then None
    else if steps == [] then Some(Fixed(s, map[]))
    else if !InRange(s, steps[0].0, steps[0].1) then None
    else
      var first := Fixed(s, map[steps[0].0 := steps[0].1]);
      if steps[1..] == [] then Some(first)
      else if first.Sub? then FixEach(first.sharding, steps[1..])
      else None
  }

  function AsCoordinates(steps: seq<(string, int)>): Coordinates {
    if steps == [] then map[] else map[steps[0].0 := steps[0].1] + AsCoordinates(steps[1..])
  }

  /** Whenever axes can be fixed one after another, the result is that of fixing them at once. */
  lemma {:induction false} FixEachIsFixed(s: Sharding, steps: seq<(string, int)>)
    requires Valid(s) && Distinct(s.names) && FixEach(s, steps).Some?
    ensures AllInRange(s, AsCoordinates(steps))
    ensures FixEach(s, steps).value == Fixed(s, AsCoordinates(steps))
    decreases |steps|
  {
    if steps == [] {
    } else {
      var one := map[steps[0].0 := steps[0].1];
      if steps[1..] == [] {
        assert AsCoordinates(steps) == one + map[] == one;
      } else {
        SubIsValid(s, one);
        FixEachIsFixed(Fixed(s, one).sharding, steps[1..]);
        FixTwice(s, one, AsCoordinates(steps[1..]));
      }
    }
  }

  ghost predicate DistinctSteps(steps: seq<(string, int)>) {
    forall i, j :: 0 <= i < j < |steps| ==> steps[i].0 != steps[j].0
  }

  lemma {:induction false} StepNames(steps: seq<(string, int)>, name: string)
    ensures name in AsCoordinates(steps) <==> exists i :: 0 <= i < |steps| && steps[i].0 == name
  {
    if steps == [] {
    } else {
      StepNames(steps[1..], name);
      if i :| 0 <= i < |steps| && steps[i].0 == name {
        assert i > 0 ==> steps[1..][i - 1].0 == name;
      }
      if i :| 0 <= i < |steps[1..]| && steps[1..][i].0 == name {
        assert steps[i + 1].0 == name;
      }
    }
  }

  /** Axes that can be fixed at once can be fixed one after another. */
  lemma {:induction false} FixEachSucceeds(s: Sharding, steps: seq<(string, int)>)
    requires Valid(s) && Distinct(s.names) && DistinctSteps(steps) && AllInRange(s, AsCoordinates(steps))
    ensures FixEach(s, steps).Some?
    decreases |steps|
  {
    if steps == [] {
    } else {
      var rest := AsCoordinates(steps[1..]);
      var one := map[steps[0].0 := steps[0].1];
      FirstStep(s, steps);
      if steps[1..] != [] {
        assert steps[1..][0].0 in rest by {
          StepNames(steps[1..], steps[1..][0].0);
        }
        RestInRange(s, one, rest, steps[1..][0].0);
        FixEachSucceeds(Fixed(s, one).sharding, steps[1..]);
      }
    }
  }

  lemma FirstStep(s: Sharding, steps: seq<(string, int)>)
    requires Valid(s) && steps != [] && DistinctSteps(steps) && AllInRange(s, AsCoordinates(steps))
    ensures steps[0].0 !in AsCoordinates(steps[1..])
    ensures InRange(s, steps[0].0, steps[0].1) && AllInRange(s, AsCoordinates(steps[1..]))
    ensures DistinctSteps(steps[1..])
  {
    var coords, rest := AsCoordinates(steps), AsCoordinates(steps[1..]);
    StepNames(steps[1..], steps[0].0);
    assert coords[steps[0].0] == steps[0].1;
    assert InRange(s, steps[0].0, coords[steps[0].0]);
    forall name | name in rest ensures InRange(s, name, rest[name]) {
      assert InRange(s, name, coords[name]);
    }
  }

  lemma RestInRange(s: Sharding, one: Coordinates, rest: Coordinates, some: string)
    requires Valid(s) && Distinct(s.names) && AllInRange(s, one) && AllInRange(s, rest)
    requires one.Keys !! rest.Keys && some in rest
    ensures Fixed(s, one).Sub? && Valid(Fixed(s, one).sharding) && Distinct(Fixed(s, one).sharding.names)
    ensures AllInRange(Fixed(s, one).sharding, rest)
  {
    UnfixedIsLeft(s, one, some, rest[some]);
    SubIsValid(s, one);
    forall name | name in rest ensures InRange(Fixed(s, one).sharding, name, rest[name]) {
      UnfixedIsLeft(s, one, name, rest[name]);
    }
  }

  /** Fixing axes one after another, in any order, is fixing them at once. */
  lemma FixInAnyOrder(s: Sharding, steps: seq<(string, int)>, coords: Coordinates)
    requires Valid(s) && Distinct(s.names) && AllInRange(s, coords)
    requires DistinctSteps(steps) && AsCoordinates(steps) == coords
    ensures FixEach(s, steps) == Some(Fixed(s, coords))
  {
    FixEachSucceeds(s, steps);
    FixEachIsFixed(s, steps);
  }

  // ----- the slices along one axis -----

  function AllRanks(ranks: Ranks): seq<int> {
    match ranks
    case Rank(rank) => [rank]
    case Sub(sharding) => Flatten(sharding.grid)
    case InvalidAxis(_) => []
    case OutOfBounds(_) => []
  }

  lemma FixedHolds(s: Sharding, coords: Coordinates, rank: int)
    requires Valid(s) && AllInRange(s, coords)
    ensures rank in AllRanks(Fixed(s, coords)) <==>
            exists a :: IsIndex(a, s.shape) && Matches(a, Select(s, coords)) && At(s.grid, s.shape, a) == rank
  {
    var sel := Select(s, coords);
    KeptLength(s.names, s.shape, sel);
    SubsetHolds(s.grid, s.shape, sel, rank);
  }

  /** Every rank lies in exactly one slice along an axis, and the slices hold nothing else. */
  lemma SlicesPartition(s: Sharding, name: string, rank: int)
    requires Valid(s) && Distinct(s.names) && name in s.names
    ensures forall i :: 0 <= i < s.shape[AxisOf(s.names, name)] ==> AllInRange(s, map[name := i])
    ensures forall i, j :: 0 <= i < s.shape[AxisOf(s.names, name)] && 0 <= j < s.shape[AxisOf(s.names, name)] &&
                           rank in AllRanks(Fixed(s, map[name := i])) && rank in AllRanks(Fixed(s, map[name := j])) ==>
                           i == j
    ensures rank in Flatten(s.grid) <==>
            exists i :: 0 <= i < s.shape[AxisOf(s.names, name)] && rank in AllRanks(Fixed(s, map[name := i]))
  {
    var axis := AxisOf(s.names, name);
    FlatHolds(s.grid, s.shape, rank);
    forall i | 0 <= i < s.shape[axis]
      ensures rank in AllRanks(Fixed(s, map[name := i])) <==> Lies(s, axis, i, rank)
    {
      InSlice(s, name, i, rank);
    }
    if a :| IsIndex(a, s.shape) && At(s.grid, s.shape, a) == rank {
      assert Lies(s, axis, a[axis], rank);
    }
  }

  /** The rank's coordinate along the axis is i. */
  ghost predicate Lies(s: Sharding, axis: nat, i: int, rank: int)
    requires Valid(s) && axis < |s.shape|
  {
    exists a :: IsIndex(a, s.shape) && a[axis] == i && At(s.grid, s.shape, a) == rank
  }

  lemma InSlice(s: Sharding, name: string, i: nat, rank: int)
    requires Valid(s) && Distinct(s.names) && name in s.names && i < s.shape[AxisOf(s.names, name)]
    ensures AllInRange(s, map[name := i])
    ensures rank in AllRanks(Fixed(s, map[name := i])) <==> Lies(s, AxisOf(s.names, name), i, rank)
  {
    var coords, axis := map[name := i], AxisOf(s.names, name);
    FixedHolds(s, coords, rank);
    SelectReads(s, coords);
    forall a | IsIndex(a, s.shape) ensures Matches(a, Select(s, coords)) <==> a[axis] == i {
      assert Select(s, coords)[axis] == Some(i);
    }
  }

  lemma SubIsValid(s: Sharding, coords: Coordinates)
    requires Valid(s) && AllInRange(s, coords) && Fixed(s, coords).Sub?
    ensures Valid(Fixed(s, coords).sharding)
    ensures Distinct(s.names) ==> Distinct(Fixed(s, coords).sharding.names)
  {
    var sel := Select(s, coords);
    KeptLength(s.names, s.shape, sel);
    SubsetIsDistinct(s.grid, s.shape, sel);
    if Distinct(s.names) {
      KeptDistinct(s.names, sel);
    }
  }
}
