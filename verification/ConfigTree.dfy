/** Configuration trees: inheritance with override markers, and minimisation against a base. */
module ConfigTree {

  datatype Scalar = Null | Bool(b: bool) | Int(i: int) | Str(s: string)

  datatype Config = Leaf(value: Scalar) | List(items: seq<Config>) | Map(entries: map<string, Config>)

  const MARKER := "_override_"

  predicate IsEmpty(c: Config) {
    c == Map(map[]) || c == List([])
  }

  predicate Truthy(c: Config) {
    match c
    case Leaf(Null) => false
    case Leaf(Bool(b)) => b
    case Leaf(Int(i)) => i != 0
    case Leaf(Str(s)) => s != ""
    case List(_) => !IsEmpty(c)
    case Map(_) => !IsEmpty(c)
  }

  /** The values that do not count as true: nothing, false, zero, and what is empty. */
  lemma FalsyValues(c: Config)
    ensures Truthy(c) <==>
            c !in {Leaf(Null), Leaf(Bool(false)), Leaf(Int(0)), Leaf(Str("")), List([]), Map(map[])}
  {
  }

  // ----- merging -----

  /** Merges maps key by key; anything else is replaced by what overrides it. */
  function Merge(base: Config, over: Config): Config
    decreases over
  {
    if base.Map? && over.Map? then
      Map(map k | k in base.entries.Keys + over.entries.Keys ::
            if k !in over.entries then base.entries[k]
            else if k !in base.entries then over.entries[k]
            else Merge(base.entries[k], over.entries[k]))
    else over
  }

  predicate Marked(c: Config) {
    c.Map? && MARKER in c.entries && Truthy(c.entries[MARKER])
  }

  function Unmark(c: Config): Config
    requires c.Map?
  {
    Map(c.entries - {MARKER})
  }

  /** A marked section replaces the base's section of the same name; all others are merged. */
  function Inherit(base: map<string, Config>, over: map<string, Config>): map<string, Config> {
    map k | k in base.Keys + over.Keys ::
      if k !in over then base[k]
      else if Marked(over[k]) then Unmark(over[k])
      else if k !in base then over[k]
      else Merge(base[k], over[k])
  }

  /** The overriding config once the keys outside pending have been visited: their markers are gone. */
  function MarkersDropped(over: map<string, Config>, pending: set<string>): map<string, Config> {
    map k | k in over :: if k !in pending && Marked(over[k]) then Unmark(over[k]) else over[k]
  }

  /** The base once the keys outside pending have been visited: sections marked in the other config are gone. */
  function SectionsRemoved(base: map<string, Config>, over: map<string, Config>, pending: set<string>)
    : map<string, Config>
  {
    map k | k in base && !(k in over && k !in pending && Marked(over[k])) :: base[k]
  }

  lemma NothingVisited(base: map<string, Config>, over: map<string, Config>)
    ensures MarkersDropped(over, over.Keys) == over && SectionsRemoved(base, over, over.Keys) == base
  {
  }

  lemma VisitKey(base: map<string, Config>, over: map<string, Config>, pending: set<string>, key: string)
    requires key in pending && key in over
    ensures MarkersDropped(over, pending)[key] == over[key]
    ensures MarkersDropped(over, pending - {key})
         == if Marked(over[key]) then MarkersDropped(over, pending)[key := Unmark(over[key])]
            else MarkersDropped(over, pending)
    ensures SectionsRemoved(base, over, pending - {key})
         == if Marked(over[key]) then SectionsRemoved(base, over, pending) - {key}
            else SectionsRemoved(base, over, pending)
  {
  }

  /** Once every key has been visited, merging what is left gives inheritance. */
  lemma AllVisited(base: map<string, Config>, over: map<string, Config>)
    ensures Merge(Map(SectionsRemoved(base, over, {})), Map(MarkersDropped(over, {}))) == Map(Inherit(base, over))
  {
    var b, o := SectionsRemoved(base, over, {}), MarkersDropped(over, {});
    var merged := Merge(Map(b), Map(o)).entries;
    assert merged.Keys == base.Keys + over.Keys;
    forall k | k in merged ensures merged[k] == Inherit(base, over)[k] {
      if k in over && Marked(over[k]) {
        assert k !in b && merged[k] == o[k];
      }
    }
    assert merged == Inherit(base, over);
  }

  /** Visits the keys of the overriding config in any order, takes marked sections out of the base, drops
      their markers, and merges what remains. */
  method MergeWithOverride(base0: map<string, Config>, over0: map<string, Config>) returns (merged: Config)
    ensures merged == Map(Inherit(base0, over0))
  {
    var base, over := base0, over0;
    var keys := over.Keys;
    NothingVisited(base0, over0);
    while keys != {}
      invariant keys <= over0.Keys
      invariant over == MarkersDropped(over0, keys)
      invariant base == SectionsRemoved(base0, over0, keys)
      decreases keys
    {
      var key :| key in keys;
      VisitKey(base0, over0, keys, key);
      keys := keys - {key};
      if Marked(over[key]) {
        over := over[key := Unmark(over[key])];
        if key in base {
          base := base - {key};
        }
      }
    }
    AllVisited(base0, over0);
    return Merge(Map(base), Map(over));
  }

  // ----- inheritance chains -----

  /** The expanded parents that a config lists as its defaults, if it has any such list. */
  datatype Defaults = NoDefaults | Defaults(parents: seq<map<string, Config>>)

  /** The parents are merged in the order they are listed, starting from nothing, and the config last. */
  function Expand(defaults: Defaults, config: map<string, Config>): map<string, Config> {
    match defaults
    case NoDefaults => config
    case Defaults(parents) => Inherit(Inherited(parents), config)
  }

  function Inherited(parents: seq<map<string, Config>>): map<string, Config> {
    if parents == [] then map[] else Inherit(Inherited(parents[..|parents| - 1]), parents[|parents| - 1])
  }

  method ExpandConfig(defaults: Defaults, config: map<string, Config>) returns (expanded: Config)
    ensures expanded == Map(Expand(defaults, config))
  {
    if defaults.NoDefaults? {
      return Map(config);
    }
    var parents, base := defaults.parents, map[];
    for i := 0 to |parents|
      invariant base == Inherited(parents[..i])
    {
      assert parents[..i + 1][..i] == parents[..i];
      var merged := MergeWithOverride(base, parents[i]);
      base := merged.entries;
    }
    assert parents[..|parents|] == parents;
    expanded := MergeWithOverride(base, config);
  }

  ghost predicate NoMarks(m: map<string, Config>) {
    forall k :: k in m ==> !Marked(m[k])
  }

  lemma MergeStaysUnmarked(b: Config, o: Config)
    requires !Marked(b) && !Marked(o)
    ensures !Marked(Merge(b, o))
  {
    if b.Map? && o.Map? && MARKER in b.entries && MARKER in o.entries {
      var x, y := b.entries[MARKER], o.entries[MARKER];
      if x.Map? && y.Map? {
        assert Merge(x, y).entries == map[];
      }
    }
  }

  lemma InheritStaysUnmarked(base: map<string, Config>, over: map<string, Config>)
    requires NoMarks(base)
    ensures NoMarks(Inherit(base, over))
  {
    forall k | k in Inherit(base, over) ensures !Marked(Inherit(base, over)[k]) {
      if k in base && k in over && !Marked(over[k]) {
        MergeStaysUnmarked(base[k], over[k]);
      }
    }
  }

  /** Whatever a config inherits from, once expanded it has no override marker left in force, so listing it
      as a parent contributes exactly itself. */
  lemma ExpandedIsSettled(defaults: Defaults, config: map<string, Config>)
    requires defaults.Defaults? || NoMarks(config)
    ensures NoMarks(Expand(defaults, config))
    ensures Inherited([Expand(defaults, config)]) == Expand(defaults, config)
  {
    if defaults.Defaults? {
      InheritedIsUnmarked(defaults.parents);
      InheritStaysUnmarked(Inherited(defaults.parents), config);
    }
    SettledParent(Expand(defaults, config));
  }

  lemma {:induction false} InheritedIsUnmarked(parents: seq<map<string, Config>>)
    ensures NoMarks(Inherited(parents))
  {
    if parents == [] {
    } else {
      InheritedIsUnmarked(parents[..|parents| - 1]);
      InheritStaysUnmarked(Inherited(parents[..|parents| - 1]), parents[|parents| - 1]);
    }
  }

  lemma SettledParent(parent: map<string, Config>)
    requires NoMarks(parent)
    ensures Inherited([parent]) == parent
  {
    OneParent(parent);
    assert Inherit(map[], parent) == parent;
  }

  lemma OneParent(parent: map<string, Config>)
    ensures Inherited([parent]) == Inherit(map[], parent)
  {
    assert [parent][..0] == [];
    assert Inherited([]) == map[];
  }

  // ----- minimising -----

  datatype Pruned = Remove | Keep(config: Config)

  /** What is left of a after dropping everything that b already says. */
  function Prune(a: Config, b: Config): Pruned
    decreases a
  {
    if a.Map? && b.Map? then
      Keep(Map(map k | k in a.entries && (k in b.entries ==> IsKept(Prune(a.entries[k], b.entries[k]))) ::
                 if k in b.entries then Prune(a.entries[k], b.entries[k]).config else a.entries[k]))
    else if a.List? && b.List? && |a.items| == |b.items| then
      if a == b then Remove else Keep(a)
    else if a == b then Remove
    else Keep(a)
  }

  predicate IsKept(p: Pruned) {
    p.Keep? && !IsEmpty(p.config)
  }

  /** The minimised entries of a config. */
  function Minimised(child: map<string, Config>, base: map<string, Config>): map<string, Config> {
    Prune(Map(child), Map(base)).config.entries
  }

  // ----- when minimising keeps the meaning -----

  /** No section is emptied on the way: an empty map never stands where the base has something other
      than a map, nor an empty list where the base has anything but an empty list. */
  ghost predicate NothingEmptied(a: Config, b: Config)
    decreases a
  {
    if a.Map? && b.Map? then
      forall k :: k in a.entries && k in b.entries ==> NothingEmptied(a.entries[k], b.entries[k])
    else IsEmpty(a) ==> a == b
  }

  /** Pruning leaves this config as it is. */
  ghost predicate Intact(a: Config, b: Config)
    decreases a
  {
    && !IsEmpty(a)
    && if a.Map? && b.Map? then
         forall k :: k in a.entries && k in b.entries ==> Intact(a.entries[k], b.entries[k])
       else a != b
  }

  /** Pruning leaves something of this config. */
  ghost predicate SomethingLeft(a: Config, b: Config)
    decreases a
  {
    if a.Map? && b.Map? then
      exists k :: k in a.entries && (k in b.entries ==> SomethingLeft(a.entries[k], b.entries[k]))
    else a != b && !IsEmpty(a)
  }

  /** Every key of the base, at every depth that both reach by maps, is also a key of the config. */
  ghost predicate Covers(a: Config, b: Config)
    decreases a
  {
    a.Map? && b.Map? ==> forall k :: k in b.entries ==> k in a.entries && Covers(a.entries[k], b.entries[k])
  }

  /** What must hold of a section that the child shares with the file it is minimised against. A section
      that keeps its marker must lose nothing else; one that loses it must already say everything the base
      says; any other section must not be emptied, and must keep a marker that is not in force where the
      base has one that is. */
  ghost predicate SafeSection(a: Config, b: Config) {
    if !a.Map? || !b.Map? then NothingEmptied(a, b)
    else if !Marked(a) then
      && (forall k :: k in a.entries && k in b.entries && !(k == MARKER && Marked(b)) ==>
            NothingEmptied(a.entries[k], b.entries[k]))
      && (Marked(b) && MARKER in a.entries ==> Intact(a.entries[MARKER], b.entries[MARKER]))
    else if MARKER !in b.entries || SomethingLeft(a.entries[MARKER], b.entries[MARKER]) then
      forall k :: k in a.entries && k in b.entries && k != MARKER ==> Intact(a.entries[k], b.entries[k])
    else
      Marked(b) && forall k :: k in b.entries && k != MARKER ==>
        k in a.entries && NothingEmptied(a.entries[k], b.entries[k]) && Covers(a.entries[k], b.entries[k])
  }

  ghost predicate SafeToMinimise(child: map<string, Config>, raw: map<string, Config>) {
    forall k :: k in child && k in raw ==> SafeSection(child[k], raw[k])
  }

  // ----- what a file contributes to the config that is loaded from it -----

  /** Everything in b is also in full, possibly beside more. */
  ghost predicate Extends(full: Config, b: Config)
    decreases b
  {
    if b.Map? then
      full.Map? && forall k :: k in b.entries ==> k in full.entries && Extends(full.entries[k], b.entries[k])
    else full == b
  }

  /** `full` is a section of a loaded config to which a file contributed the section b. */
  ghost predicate Stands(full: Config, b: Config) {
    if Marked(b) then full == Unmark(b) else Extends(full, b)
  }

  ghost predicate StandsFor(base: map<string, Config>, raw: map<string, Config>) {
    forall k :: k in raw ==> k in base && Stands(base[k], raw[k])
  }

  lemma {:induction false} ExtendsItself(b: Config)
    ensures Extends(b, b)
    decreases b
  {
    if !b.Map? {
    } else {
      forall k | k in b.entries ensures Extends(b.entries[k], b.entries[k]) {
        ExtendsItself(b.entries[k]);
      }
    }
  }

  lemma {:induction false} MergeExtends(x: Config, b: Config)
    ensures Extends(Merge(x, b), b)
    decreases b
  {
    if x.Map? && b.Map? {
      forall k | k in b.entries ensures Extends(Merge(x, b).entries[k], b.entries[k]) {
        if k in x.entries {
          MergeExtends(x.entries[k], b.entries[k]);
        } else {
          ExtendsItself(b.entries[k]);
        }
      }
    } else {
      ExtendsItself(b);
    }
  }

  lemma InheritStandsFor(parent: map<string, Config>, raw: map<string, Config>)
    ensures StandsFor(Inherit(parent, raw), raw)
  {
    forall k | k in raw ensures Stands(Inherit(parent, raw)[k], raw[k]) {
      if !Marked(raw[k]) {
        if k in parent {
          MergeExtends(parent[k], raw[k]);
        } else {
          ExtendsItself(raw[k]);
        }
      }
    }
  }

  lemma MergeNothing(b: Config)
    requires b.Map?
    ensures Merge(b, Map(map[])) == b
  {
    assert Merge(b, Map(map[])).entries == b.entries;
  }

  /** Over any config that extends b, merging what pruning against b leaves, or nothing if it leaves
      nothing, equals merging the whole config exactly when nothing is emptied. */
  lemma {:induction false} PrunedMerge(a: Config, b: Config, full: Config)
    requires Extends(full, b)
    ensures (if IsKept(Prune(a, b)) then Merge(full, Prune(a, b).config) else full) == Merge(full, a) <==>
            NothingEmptied(a, b)
    decreases a
  {
    if !a.Map? || !b.Map? {
    } else {
      var m := Prune(a, b).config;
      if IsEmpty(m) {
        MergeNothing(full);
      }
      forall k | k in a.entries && k in b.entries
        ensures Merge(full, m).entries[k] == Merge(full, a).entries[k] <==> NothingEmptied(a.entries[k], b.entries[k])
      {
        PrunedMerge(a.entries[k], b.entries[k], full.entries[k]);
      }
      MergesEqual(a, b, m, full);
    }
  }

  /** Two merges over the same config agree when they agree on the keys shared with what was pruned against. */
  lemma MergesEqual(a: Config, b: Config, m: Config, full: Config)
    requires a.Map? && b.Map? && m == Prune(a, b).config && full.Map? && b.entries.Keys <= full.entries.Keys
    ensures Merge(full, m) == Merge(full, a) <==>
            forall k :: k in a.entries && k in b.entries ==> Merge(full, m).entries[k] == Merge(full, a).entries[k]
  {
    var x, y := Merge(full, m).entries, Merge(full, a).entries;
    PruneKeys(a, b, m);
    MergedKeys(full, m);
    MergedKeys(full, a);
    SameUnion(full.entries.Keys, a.entries.Keys, b.entries.Keys, m.entries.Keys);
    forall k | k in a.entries && k !in b.entries ensures x[k] == y[k] {
      SameAt(full, a, m, k);
    }
    forall k | k in full.entries && k !in a.entries ensures x[k] == y[k] {
      SameAt(full, a, m, k);
    }
    EqualOnShared(a.entries.Keys, b.entries.Keys, full.entries.Keys, x, y);
  }

  lemma EqualOnShared(ka: set<string>, kb: set<string>, kf: set<string>, x: map<string, Config>, y: map<string, Config>)
    requires x.Keys == y.Keys == kf + ka && kb <= kf
    requires forall k :: k in ka && k !in kb ==> x[k] == y[k]
    requires forall k :: k in kf && k !in ka ==> x[k] == y[k]
    ensures x == y <==> forall k :: k in ka && k in kb ==> x[k] == y[k]
  {
  }

  lemma PruneKeys(a: Config, b: Config, m: Config)
    requires a.Map? && b.Map? && m == Prune(a, b).config
    ensures forall k :: k in m.entries ==> k in a.entries
    ensures forall k :: k in a.entries && k !in b.entries ==> k in m.entries && m.entries[k] == a.entries[k]
  {
  }

  lemma MergedKeys(base: Config, over: Config)
    requires base.Map? && over.Map?
    ensures Merge(base, over).Map? && Merge(base, over).entries.Keys == base.entries.Keys + over.entries.Keys
  {
  }

  lemma SameUnion(f: set<string>, a: set<string>, b: set<string>, m: set<string>)
    requires b <= f && m <= a && forall k :: k in a && k !in b ==> k in m
    ensures f + m == f + a
  {
  }

  lemma SameAt(full: Config, a: Config, m: Config, k: string)
    requires full.Map? && a.Map? && m.Map?
    requires k in a.entries <==> k in m.entries
    requires k in a.entries ==> m.entries[k] == a.entries[k]
    requires k in full.entries || k in a.entries
    ensures k in Merge(full, m).entries && k in Merge(full, a).entries
    ensures Merge(full, m).entries[k] == Merge(full, a).entries[k]
  {
  }

  lemma {:induction false} IntactMeaning(a: Config, b: Config)
    ensures Intact(a, b) <==> Prune(a, b) == Keep(a) && !IsEmpty(a)
    decreases a
  {
    if !a.Map? || !b.Map? {
    } else {
      var m := Prune(a, b).config.entries;
      forall k | k in a.entries && k in b.entries
        ensures Intact(a.entries[k], b.entries[k]) <==> k in m && m[k] == a.entries[k]
      {
        IntactMeaning(a.entries[k], b.entries[k]);
      }
      if Intact(a, b) {
        assert m == a.entries;
      }
    }
  }

  lemma {:induction false} SomethingLeftMeaning(a: Config, b: Config)
    ensures SomethingLeft(a, b) <==> IsKept(Prune(a, b))
    decreases a
  {
    if !a.Map? || !b.Map? {
    } else {
      var m := Prune(a, b).config.entries;
      forall k | k in a.entries && k in b.entries ensures SomethingLeft(a.entries[k], b.entries[k]) <==> k in m {
        SomethingLeftMeaning(a.entries[k], b.entries[k]);
      }
      if SomethingLeft(a, b) {
        var k :| k in a.entries && (k in b.entries ==> SomethingLeft(a.entries[k], b.entries[k]));
        assert k in m;
      }
    }
  }

  /** Over b itself, what pruning leaves gives back exactly the config when the config covers b too. */
  lemma {:induction false} PrunedGivesBack(a: Config, b: Config)
    ensures (if IsKept(Prune(a, b)) then Merge(b, Prune(a, b).config) else b) == a <==>
            NothingEmptied(a, b) && Covers(a, b)
    decreases a
  {
    if !a.Map? || !b.Map? {
    } else {
      var m := Prune(a, b).config;
      if IsEmpty(m) {
        MergeNothing(b);
      }
      var x := Merge(b, m).entries;
      forall k | k in a.entries && k in b.entries
        ensures x[k] == a.entries[k] <==>
                NothingEmptied(a.entries[k], b.entries[k]) && Covers(a.entries[k], b.entries[k])
      {
        PrunedGivesBack(a.entries[k], b.entries[k]);
      }
      assert forall k :: k in a.entries && k !in b.entries ==> k in x && x[k] == a.entries[k];
      assert x.Keys <= a.entries.Keys + b.entries.Keys && b.entries.Keys <= x.Keys;
      if NothingEmptied(a, b) && Covers(a, b) {
        assert x == a.entries;
      }
    }
  }

  // ----- one section -----

  /** The section of a minimised child, laid over the section of the base. */
  function Overlaid(full: Config, p: Pruned): Config {
    if !IsKept(p) then full
    else if Marked(p.config) then Unmark(p.config)
    else Merge(full, p.config)
  }

  /** The section of the child itself, laid over the section of the base. */
  function Laid(full: Config, a: Config): Config {
    if Marked(a) then Unmark(a) else Merge(full, a)
  }

  lemma UnmarkedStaysUnmarked(a: Config, b: Config)
    requires !Marked(a) && IsKept(Prune(a, b))
    ensures !Marked(Prune(a, b).config)
  {
  }

  /** A section keeps its meaning when its file is minimised exactly when it is safe. */
  lemma SectionKeepsMeaning(a: Config, b: Config, full: Config)
    requires Stands(full, b)
    ensures Overlaid(full, Prune(a, b)) == Laid(full, a) <==> SafeSection(a, b)
  {
    if !b.Map? {
      PrunedMerge(a, b, full);
    } else if !a.Map? {
      assert Prune(a, b) == Keep(a);
    } else if MARKER in a.entries && MARKER in b.entries {
      SomethingLeftMeaning(a.entries[MARKER], b.entries[MARKER]);
      MarkersMeet(a, b, full);
    } else if Marked(a) {
      MarkedSection(a, b, full);
    } else if Marked(b) {
      UnderMarkedBase(a, b, full);
    } else {
      PrunedMerge(a, b, full);
      if IsKept(Prune(a, b)) {
        UnmarkedStaysUnmarked(a, b);
      }
    }
  }

  lemma MarkersMeet(a: Config, b: Config, full: Config)
    requires a.Map? && b.Map? && MARKER in a.entries && MARKER in b.entries && Stands(full, b)
    requires SomethingLeft(a.entries[MARKER], b.entries[MARKER]) <==>
             IsKept(Prune(a.entries[MARKER], b.entries[MARKER]))
    ensures Overlaid(full, Prune(a, b)) == Laid(full, a) <==> SafeSection(a, b)
  {
    if !Marked(a) {
      if Marked(b) {
        UnderMarkedBase(a, b, full);
      } else {
        PrunedMerge(a, b, full);
        if IsKept(Prune(a, b)) {
          UnmarkedStaysUnmarked(a, b);
        }
      }
    } else if SomethingLeft(a.entries[MARKER], b.entries[MARKER]) {
      MarkedSection(a, b, full);
    } else {
      MarkerLost(a, b, full);
    }
  }

  /** A section that keeps its marker keeps its meaning exactly when pruning leaves everything else in it. */
  lemma MarkedSection(a: Config, b: Config, full: Config)
    requires Marked(a) && b.Map?
    requires MARKER in b.entries ==> IsKept(Prune(a.entries[MARKER], b.entries[MARKER]))
    ensures Overlaid(full, Prune(a, b)) == Unmark(a) <==>
            forall k :: k in a.entries && k in b.entries && k != MARKER ==> Intact(a.entries[k], b.entries[k])
  {
    var m := Prune(a, b).config.entries;
    assert MARKER in m;
    forall k | k in a.entries && k in b.entries && k != MARKER
      ensures Intact(a.entries[k], b.entries[k]) <==> k in m && m[k] == a.entries[k]
    {
      IntactMeaning(a.entries[k], b.entries[k]);
    }
    MarkerIsTruthy(a, b);
    UnmarkedEqual(a, b, m);
  }

  lemma MarkerIsTruthy(a: Config, b: Config)
    requires Marked(a) && b.Map? && MARKER in Prune(a, b).config.entries
    ensures Marked(Prune(a, b).config) && IsKept(Prune(a, b))
  {
  }

  lemma UnmarkedEqual(a: Config, b: Config, m: map<string, Config>)
    requires a.Map? && b.Map? && m == Prune(a, b).config.entries
    ensures Unmark(Map(m)) == Unmark(a) <==>
            forall k :: k in a.entries && k in b.entries && k != MARKER ==> k in m && m[k] == a.entries[k]
  {
    var x, y := m - {MARKER}, a.entries - {MARKER};
    if forall k :: k in a.entries && k in b.entries && k != MARKER ==> k in m && m[k] == a.entries[k] {
      assert x.Keys == y.Keys;
      assert x == y;
    } else {
      var k :| k in a.entries && k in b.entries && k != MARKER && !(k in m && m[k] == a.entries[k]);
      assert k in y;
    }
  }

  /** A section that loses its marker is merged, and means the same exactly when it covers the base. */
  lemma MarkerLost(a: Config, b: Config, full: Config)
    requires Marked(a) && b.Map? && MARKER in b.entries && Stands(full, b)
    requires !IsKept(Prune(a.entries[MARKER], b.entries[MARKER]))
    ensures Overlaid(full, Prune(a, b)) == Unmark(a) <==>
            Marked(b) && forall k :: k in b.entries && k != MARKER ==>
              k in a.entries && NothingEmptied(a.entries[k], b.entries[k]) && Covers(a.entries[k], b.entries[k])
  {
    var m := Prune(a, b).config;
    assert MARKER !in m.entries;
    if IsEmpty(m) {
      MergeNothing(full);
    }
    assert Overlaid(full, Prune(a, b)) == Merge(full, m);
    if Marked(b) {
      CoversSection(a, b, full, m);
    } else {
      assert MARKER in Merge(full, m).entries && MARKER !in Unmark(a).entries;
    }
  }

  lemma CoversSection(a: Config, b: Config, full: Config, m: Config)
    requires Marked(a) && Marked(b) && full == Unmark(b) && m == Prune(a, b).config && MARKER !in m.entries
    ensures Merge(full, m) == Unmark(a) <==>
            forall k :: k in b.entries && k != MARKER ==>
              k in a.entries && NothingEmptied(a.entries[k], b.entries[k]) && Covers(a.entries[k], b.entries[k])
  {
    hide NothingEmptied, Covers;
    var x, y := Merge(full, m).entries, Unmark(a).entries;
    forall k | k in b.entries && k != MARKER && k in a.entries
      ensures x[k] == y[k] <==>
              NothingEmptied(a.entries[k], b.entries[k]) && Covers(a.entries[k], b.entries[k])
    {
      GivesBackAt(a, b, full, m, k);
    }
    OutsideSection(a, b, full, m);
    assert Merge(full, m) == Map(x) && Unmark(a) == Map(y);
    assert forall k :: k != MARKER ==> (k in y <==> k in a.entries);
    hide Merge, Prune, Unmark;
    EqualWhere(x, y, b.entries.Keys - {MARKER});
  }

  lemma OutsideSection(a: Config, b: Config, full: Config, m: Config)
    requires Marked(a) && Marked(b) && full == Unmark(b) && m == Prune(a, b).config && MARKER !in m.entries
    ensures Merge(full, m).Map? && b.entries.Keys - {MARKER} <= Merge(full, m).entries.Keys
    ensures forall k :: k in Merge(full, m).entries ==> k in Unmark(a).entries || k in b.entries.Keys - {MARKER}
    ensures forall k :: k in Unmark(a).entries && k !in b.entries.Keys - {MARKER} ==>
              k in Merge(full, m).entries && Merge(full, m).entries[k] == Unmark(a).entries[k]
  {
    PruneKeys(a, b, m);
    MergedKeys(full, m);
    hide Prune;
    forall k | k in Unmark(a).entries && k !in b.entries
      ensures k in Merge(full, m).entries && Merge(full, m).entries[k] == Unmark(a).entries[k]
    {
      SameAt(full, a, m, k);
    }
  }

  lemma GivesBackAt(a: Config, b: Config, full: Config, m: Config, k: string)
    requires Marked(a) && Marked(b) && full == Unmark(b) && m == Prune(a, b).config
    requires k in b.entries && k != MARKER && k in a.entries
    ensures k in Merge(full, m).entries && k in Unmark(a).entries
    ensures Merge(full, m).entries[k] == Unmark(a).entries[k] <==>
            NothingEmptied(a.entries[k], b.entries[k]) && Covers(a.entries[k], b.entries[k])
  {
    hide NothingEmptied, Covers;
    PrunedGivesBack(a.entries[k], b.entries[k]);
  }

  lemma EqualWhere(x: map<string, Config>, y: map<string, Config>, keys: set<string>)
    requires keys <= x.Keys && forall k :: k in x ==> k in y || k in keys
    requires forall k :: k in y && k !in keys ==> k in x && x[k] == y[k]
    ensures x == y <==> forall k :: k in keys ==> k in y && x[k] == y[k]
  {
    if forall k :: k in keys ==> k in y && x[k] == y[k] {
      assert x == y;
    }
  }

  /** Under a marker of the base that is in force, and dropped on loading, a marker of the child that is not
      in force must stay as it is. */
  lemma UnderMarkedBase(a: Config, b: Config, full: Config)
    requires a.Map? && !Marked(a) && Marked(b) && full == Unmark(b)
    ensures Overlaid(full, Prune(a, b)) == Merge(full, a) <==> SafeSection(a, b)
  {
    var m := Prune(a, b).config;
    if IsEmpty(m) {
      MergeNothing(full);
    } else {
      UnmarkedStaysUnmarked(a, b);
    }
    var x, y := Merge(full, m).entries, Merge(full, a).entries;
    assert Overlaid(full, Prune(a, b)) == Map(x);
    forall k | k in a.entries && k in b.entries && k != MARKER
      ensures x[k] == y[k] <==> NothingEmptied(a.entries[k], b.entries[k])
    {
      ExtendsItself(b.entries[k]);
      PrunedMerge(a.entries[k], b.entries[k], full.entries[k]);
    }
    if MARKER in a.entries {
      IntactMeaning(a.entries[MARKER], b.entries[MARKER]);
    }
    OutsideMarker(a, b, full, x, y);
  }

  lemma OutsideMarker(a: Config, b: Config, full: Config, x: map<string, Config>, y: map<string, Config>)
    requires a.Map? && Marked(b) && full == Unmark(b)
    requires x == Merge(full, Prune(a, b).config).entries && y == Merge(full, a).entries
    ensures x == y <==>
            && (forall k :: k in a.entries && k in b.entries && k != MARKER ==> x[k] == y[k])
            && (MARKER in a.entries ==>
                  IsKept(Prune(a.entries[MARKER], b.entries[MARKER])) &&
                  Prune(a.entries[MARKER], b.entries[MARKER]).config == a.entries[MARKER])
  {
    var m := Prune(a, b).config.entries;
    assert y.Keys == full.entries.Keys + a.entries.Keys && x.Keys == full.entries.Keys + m.Keys;
    assert forall k :: k in a.entries && k !in b.entries ==> k in m && x[k] == y[k];
    assert forall k :: k in full.entries && k !in a.entries ==> x[k] == y[k];
    assert MARKER in x <==> MARKER in m;
    assert MARKER in m ==> x[MARKER] == m[MARKER];
    assert MARKER in a.entries ==> y[MARKER] == a.entries[MARKER];
    assert forall k :: k in y ==> k == MARKER || k in x;
    if (MARKER in a.entries ==> MARKER in m && m[MARKER] == a.entries[MARKER]) &&
       (forall k :: k in a.entries && k in b.entries && k != MARKER ==> x[k] == y[k]) {
      assert x == y;
    }
  }

  // ----- whole files -----

  /** Minimising a config against a file and expanding it over the config loaded from that file gives what
      expanding it directly gives, exactly when no shared section loses something by being pruned. */
  lemma MinimiseKeepsMeaning(child: map<string, Config>, raw: map<string, Config>, base: map<string, Config>)
    requires StandsFor(base, raw)
    ensures Inherit(base, Minimised(child, raw)) == Inherit(base, child) <==> SafeToMinimise(child, raw)
  {
    var m := Minimised(child, raw);
    var x, y := Inherit(base, m), Inherit(base, child);
    assert m.Keys <= child.Keys;
    assert x.Keys == y.Keys;
    forall k | k in child && k in raw ensures x[k] == y[k] <==> SafeSection(child[k], raw[k]) {
      assert k in m <==> IsKept(Prune(child[k], raw[k]));
      assert k in m ==> m[k] == Prune(child[k], raw[k]).config;
      SectionKeepsMeaning(child[k], raw[k], base[k]);
    }
    if SafeToMinimise(child, raw) {
      forall k | k in x ensures x[k] == y[k] {}
      assert x == y;
    }
  }

  /** The base inferred from the file's own parent is loaded with its inheritance before pruning: the
      minimised file gives the config that the original file gives. */
  lemma MinimisedFileKeepsMeaning(grandparents: Defaults, parent: map<string, Config>, child: map<string, Config>)
    ensures var base := Expand(grandparents, parent);
      Expand(Defaults([base]), Minimised(child, base)) == Expand(Defaults([base]), child) <==>
      SafeToMinimise(child, base)
  {
    var base := Expand(grandparents, parent);
    OneParent(base);
    InheritStandsFor(map[], base);
    MinimiseKeepsMeaning(child, base, Inherited([base]));
  }

  /** A base that is given explicitly is pruned against as it is written, and inherits from its own parents
      only when the minimised file is loaded. */
  lemma MinimisedAgainstGivenBase(grandparents: Defaults, raw: map<string, Config>, child: map<string, Config>)
    ensures var base := Expand(grandparents, raw);
      Expand(Defaults([base]), Minimised(child, raw)) == Expand(Defaults([base]), child) <==>
      SafeToMinimise(child, raw)
  {
    var base := Expand(grandparents, raw);
    OneParent(base);
    if grandparents.Defaults? {
      ExpandedIsSettled(grandparents, raw);
      InheritStandsFor(Inherited(grandparents.parents), raw);
    } else {
      InheritStandsFor(map[], raw);
    }
    MinimiseKeepsMeaning(child, raw, Inherited([base]));
  }

  /** In particular: without markers, and without empty maps and lists, nothing is lost. */
  ghost predicate NoEmpty(c: Config)
    decreases c
  {
    !IsEmpty(c) && (c.Map? ==> forall k :: k in c.entries ==> NoEmpty(c.entries[k]))
  }

  lemma {:induction false} NoEmptyNothingEmptied(a: Config, b: Config)
    requires NoEmpty(a)
    ensures NothingEmptied(a, b)
    decreases a
  {
    if !a.Map? || !b.Map? {
    } else {
      forall k | k in a.entries && k in b.entries ensures NothingEmptied(a.entries[k], b.entries[k]) {
        NoEmptyNothingEmptied(a.entries[k], b.entries[k]);
      }
    }
  }

  lemma MinimisePlainChild(child: map<string, Config>, raw: map<string, Config>, base: map<string, Config>)
    requires StandsFor(base, raw) && forall k :: k in child ==> NoEmpty(child[k]) && !Marked(child[k])
    ensures Inherit(base, Minimised(child, raw)) == Inherit(base, child)
  {
    forall k | k in child && k in raw ensures SafeSection(child[k], raw[k]) {
      NoEmptyNothingEmptied(child[k], raw[k]);
      assert child[k].Map? && MARKER in child[k].entries ==> NoEmpty(child[k].entries[MARKER]);
    }
    MinimiseKeepsMeaning(child, raw, base);
  }

  /** An empty list in the child clears the base's list, and minimising forgets it. */
  lemma EmptyListIsForgotten()
    ensures var child, base := map["k" := List([])], map["k" := List([Leaf(Int(1))])];
      && Inherit(base, child)["k"] == List([])
      && "k" in Inherit(base, Minimised(child, base))
      && Inherit(base, Minimised(child, base))["k"] == List([Leaf(Int(1))])
  {
    var child, base := map["k" := List([])], map["k" := List([Leaf(Int(1))])];
    assert "k" !in Minimised(child, base);
  }

  /** Minimising a minimised config changes nothing. */
  lemma {:induction false} PruneIdempotent(a: Config, b: Config)
    requires Prune(a, b).Keep?
    ensures Prune(Prune(a, b).config, b) == Prune(a, b)
    decreases a
  {
    if !a.Map? || !b.Map? {
    } else {
      var m := Prune(a, b).config;
      forall k | k in m.entries && k in b.entries ensures Prune(m.entries[k], b.entries[k]) == Keep(m.entries[k]) {
        PruneIdempotent(a.entries[k], b.entries[k]);
      }
      assert Prune(m, b).config.entries == m.entries;
    }
  }

  /** Whatever pruning keeps changes the base. */
  lemma {:induction false} KeptChanges(a: Config, b: Config)
    requires IsKept(Prune(a, b))
    ensures Merge(b, Prune(a, b).config) != b
    decreases a
  {
    if !a.Map? || !b.Map? {
    } else {
      var m := Prune(a, b).config;
      assert m.entries != map[];
      var k :| k in m.entries;
      if k in b.entries {
        KeptChanges(a.entries[k], b.entries[k]);
        assert Merge(b, m).entries[k] != b.entries[k];
      } else {
        assert k in Merge(b, m).entries;
      }
    }
  }

  /** A minimised config is minimal: merged without any one of its keys, it gives something else. */
  lemma PrunedIsMinimal(a: Config, b: Config, k: string)
    requires a.Map? && b.Map? && k in Prune(a, b).config.entries
    ensures Merge(b, Map(Prune(a, b).config.entries - {k})) != Merge(b, Prune(a, b).config)
  {
    var m := Prune(a, b).config;
    var less := Map(m.entries - {k});
    if k in b.entries {
      KeptChanges(a.entries[k], b.entries[k]);
      assert Merge(b, less).entries[k] == b.entries[k];
      assert Merge(b, m).entries[k] == Merge(b.entries[k], m.entries[k]);
    } else {
      assert k in Merge(b, m).entries && k !in Merge(b, less).entries;
    }
  }
}
