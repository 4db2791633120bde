/** Flattening a configuration tree to dotted paths, and comparing two trees by their flattened forms. */
module ConfigFlatten {
  import opened Options
  import opened ConfigTree

  datatype Step = Key(key: string) | Index(index: nat)

  /** The scalar at the end of a path, if the path ends at one. */
  function Lookup(c: Config, path: seq<Step>): Option<Scalar>
    decreases |path|
  {
    if path == [] then
      if c.Leaf? then Some(c.value) else None
    else if path[0].Key? && c.Map? && path[0].key in c.entries then Lookup(c.entries[path[0].key], path[1..])
    else if path[0].Index? && c.List? && path[0].index < |c.items| then Lookup(c.items[path[0].index], path[1..])
    else None
  }

  // ----- how a path is written -----

  function Digit(d: nat): char
    requires d < 10
  {
    ('0' as int + d) as char
  }

  function Decimal(n: nat): string {
    if n < 10 then [Digit(n)] else Decimal(n / 10) + [Digit(n % 10)]
  }

  function Extend(prefix: string, step: Step): string {
    match step
    case Key(k) => if prefix == "" then k else prefix + "." + k
    case Index(i) => prefix + "[" + Decimal(i) + "]"
  }

  function Written(prefix: string, path: seq<Step>): string
    decreases |path|
  {
    if path == [] then prefix else Written(Extend(prefix, path[0]), path[1..])
  }

  // ----- the flattening loop -----

  /** The dictionary holds exactly the leaves of the tree, each under its written path; where two leaves are
      written alike, it holds one of them. */
  ghost predicate Flattens(c: Config, prefix: string, out: map<string, Scalar>) {
    && (forall path :: Lookup(c, path).Some? ==> Written(prefix, path) in out)
    && (forall p :: p in out ==> WrittenLeaf(c, prefix, p, out[p]))
  }

  ghost predicate WrittenLeaf(c: Config, prefix: string, p: string, v: Scalar) {
    exists path :: Lookup(c, path) == Some(v) && Written(prefix, path) == p
  }

  /** What the dictionary holds once some children of a node, those reached by the given steps, are done. */
  ghost predicate FlattensPart(c: Config, prefix: string, steps: set<Step>, out: map<string, Scalar>) {
    && (forall path :: Lookup(c, path).Some? && path != [] && path[0] in steps ==> Written(prefix, path) in out)
    && (forall p :: p in out ==> WrittenLeaf(c, prefix, p, out[p]))
  }

  ghost predicate IsChild(c: Config, step: Step, child: Config) {
    match step
    case Key(k) => c.Map? && k in c.entries && c.entries[k] == child
    case Index(i) => c.List? && i < |c.items| && c.items[i] == child
  }

  lemma LookupChild(c: Config, step: Step, child: Config, path: seq<Step>)
    requires IsChild(c, step, child)
    ensures Lookup(c, [step] + path) == Lookup(child, path)
    ensures forall prefix :: Written(prefix, [step] + path) == Written(Extend(prefix, step), path)
  {
    assert ([step] + path)[1..] == path;
  }

  lemma UpdateWithChild(
      c: Config, prefix: string, steps: set<Step>, out: map<string, Scalar>, step: Step, child: Config,
      more: map<string, Scalar>)
    requires FlattensPart(c, prefix, steps, out) && IsChild(c, step, child)
    requires Flattens(child, Extend(prefix, step), more)
    ensures FlattensPart(c, prefix, steps + {step}, out + more)
  {
    forall path | Lookup(c, path).Some? && path != [] && path[0] in steps + {step}
      ensures Written(prefix, path) in out + more
    {
      if path[0] == step {
        assert path == [step] + path[1..];
        LookupChild(c, step, child, path[1..]);
      }
    }
    forall p | p in out + more ensures WrittenLeaf(c, prefix, p, (out + more)[p]) {
      if p in more {
        assert WrittenLeaf(child, Extend(prefix, step), p, more[p]);
        var path :| Lookup(child, path) == Some(more[p]) && Written(Extend(prefix, step), path) == p;
        LookupChild(c, step, child, path);
        assert Lookup(c, [step] + path) == Some(more[p]);
      }
    }
  }

  /** Visits the keys of a map in any order and the items of a list from the first to the last. */
  method Flatten(c: Config, prefix: string) returns (out: map<string, Scalar>)
    ensures Flattens(c, prefix, out)
    decreases c
  {
    out := map[];
    match c {
      case Map(entries) =>
        var keys := entries.Keys;
        ghost var done: set<Step> := {};
        while keys != {}
          invariant keys <= entries.Keys
          invariant done == set k | k in entries.Keys - keys :: Key(k)
          invariant FlattensPart(c, prefix, done, out)
          decreases keys
        {
          var key :| key in keys;
          var more := Flatten(entries[key], Extend(prefix, Key(key)));
          UpdateWithChild(c, prefix, done, out, Key(key), entries[key], more);
          out := out + more;
          done := done + {Key(key)};
          keys := keys - {key};
        }
      case List(items) =>
        ghost var done: set<Step> := {};
        for i := 0 to |items|
          invariant done == set k: nat | k < i :: Index(k)
          invariant FlattensPart(c, prefix, done, out)
        {
          var more := Flatten(items[i], Extend(prefix, Index(i)));
          UpdateWithChild(c, prefix, done, out, Index(i), items[i], more);
          out := out + more;
          done := done + {Index(i)};
        }
      case Leaf(value) =>
        out := map[prefix := value];
        assert Lookup(c, []) == Some(value) && Written(prefix, []) == prefix;
    }
  }

  // ----- paths with plain keys are written injectively -----

  predicate Stops(c: char) {
    c == '.' || c == '['
  }

  predicate PlainKey(k: string) {
    k != "" && forall i :: 0 <= i < |k| ==> !Stops(k[i])
  }

  predicate PlainStep(s: Step) {
    s.Key? ==> PlainKey(s.key)
  }

  predicate PlainPath(path: seq<Step>) {
    forall i :: 0 <= i < |path| ==> PlainStep(path[i])
  }

  function Value(s: string): int {
    if s == "" then 0 else 10 * Value(s[..|s| - 1]) + (s[|s| - 1] as int - '0' as int)
  }

  lemma {:induction false} DecimalValue(n: nat)
    ensures Value(Decimal(n)) == n
    ensures Decimal(n) != "" && forall i :: 0 <= i < |Decimal(n)| ==> Decimal(n)[i] != ']'
  {
    var s := Decimal(n);
    if n < 10 {
      assert s[..0] == "";
    } else {
      DecimalValue(n / 10);
      assert s[..|s| - 1] == Decimal(n / 10);
    }
  }

  /** A written path starts with its prefix; whatever follows a non-empty prefix starts with a dot or bracket. */
  lemma {:induction false} WrittenStarts(prefix: string, path: seq<Step>)
    requires PlainPath(path)
    ensures prefix <= Written(prefix, path)
    ensures path != [] ==> |Written(prefix, path)| > |prefix|
    ensures prefix != "" && path != [] ==> Stops(Written(prefix, path)[|prefix|])
    decreases |path|
  {
    if path == [] {
    } else {
      var next := Extend(prefix, path[0]);
      if path[0].Key? {
        assert PlainKey(path[0].key);
      }
      assert prefix <= next && |next| > |prefix|;
      WrittenStarts(next, path[1..]);
      assert Written(prefix, path)[|prefix|] == next[|prefix|];
    }
  }

  /** Two texts without stops in them, each ending there or before a stop, are the same text. */
  lemma SameHead(text: string, from: nat, x: string, y: string, stop: char -> bool)
    requires from + |x| <= |text| && from + |y| <= |text|
    requires text[from..from + |x|] == x && text[from..from + |y|] == y
    requires forall i :: 0 <= i < |x| ==> !stop(x[i])
    requires forall i :: 0 <= i < |y| ==> !stop(y[i])
    requires from + |x| < |text| ==> stop(text[from + |x|])
    requires from + |y| < |text| ==> stop(text[from + |y|])
    ensures x == y
  {
    assert forall i :: 0 <= i < |x| ==> x[i] == text[from + i];
    assert forall i :: 0 <= i < |y| ==> y[i] == text[from + i];
    assert |x| == |y|;
  }

  lemma SameFirstKey(prefix: string, k: string, l: string, text: string)
    requires PlainKey(k) && PlainKey(l)
    requires Extend(prefix, Key(k)) <= text && Extend(prefix, Key(l)) <= text
    requires |text| > |Extend(prefix, Key(k))| ==> Stops(text[|Extend(prefix, Key(k))|])
    requires |text| > |Extend(prefix, Key(l))| ==> Stops(text[|Extend(prefix, Key(l))|])
    ensures k == l
  {
    var from := if prefix == "" then 0 else |prefix| + 1;
    assert Extend(prefix, Key(k))[from..] == k && Extend(prefix, Key(l))[from..] == l;
    SameHead(text, from, k, l, Stops);
  }

  lemma SameFirstIndex(prefix: string, i: nat, j: nat, text: string)
    requires Extend(prefix, Index(i)) <= text && Extend(prefix, Index(j)) <= text
    ensures i == j
  {
    var from := |prefix| + 1;
    var x, y := Decimal(i), Decimal(j);
    var ex, ey := Extend(prefix, Index(i)), Extend(prefix, Index(j));
    assert ex[from..from + |x|] == x && ex[from + |x|] == ']';
    assert ey[from..from + |y|] == y && ey[from + |y|] == ']';
    assert text[from..from + |x|] == x && text[from..from + |y|] == y;
    DecimalValue(i);
    DecimalValue(j);
    SameHead(text, from, x, y, c => c == ']');
  }

  lemma SameFirstStep(prefix: string, s: Step, t: Step, text: string)
    requires PlainStep(s) && PlainStep(t)
    requires Extend(prefix, s) <= text && Extend(prefix, t) <= text
    requires |text| > |Extend(prefix, s)| ==> Stops(text[|Extend(prefix, s)|])
    requires |text| > |Extend(prefix, t)| ==> Stops(text[|Extend(prefix, t)|])
    ensures s == t
  {
    if s.Key? && t.Key? {
      SameFirstKey(prefix, s.key, t.key, text);
    } else if s.Index? && t.Index? {
      SameFirstIndex(prefix, s.index, t.index, text);
    } else {
      var k, i := if s.Key? then s else t, if s.Key? then t else s;
      AfterKey(prefix, k.key, text);
      AfterIndex(prefix, i.index, text);
    }
  }

  lemma AfterKey(prefix: string, k: string, text: string)
    requires PlainKey(k) && Extend(prefix, Key(k)) <= text
    ensures |text| > |prefix| && text[|prefix|] != '['
  {
    assert text[|prefix|] == Extend(prefix, Key(k))[|prefix|];
    assert prefix == "" ==> Extend(prefix, Key(k))[0] == k[0];
  }

  lemma AfterIndex(prefix: string, i: nat, text: string)
    requires Extend(prefix, Index(i)) <= text
    ensures |text| > |prefix| && text[|prefix|] == '['
  {
    assert text[|prefix|] == Extend(prefix, Index(i))[|prefix|];
  }

  lemma {:induction false} WrittenIsInjective(prefix: string, s: seq<Step>, t: seq<Step>)
    requires PlainPath(s) && PlainPath(t) && Written(prefix, s) == Written(prefix, t)
    ensures s == t
    decreases |s|
  {
    WrittenStarts(prefix, s);
    WrittenStarts(prefix, t);
    if s == [] || t == [] {
    } else {
      WrittenStarts(Extend(prefix, s[0]), s[1..]);
      WrittenStarts(Extend(prefix, t[0]), t[1..]);
      SameFirstStep(prefix, s[0], t[0], Written(prefix, s));
      WrittenIsInjective(Extend(prefix, s[0]), s[1..], t[1..]);
      assert s == [s[0]] + s[1..] && t == [t[0]] + t[1..];
    }
  }

  // ----- what a comparison sees -----

  /** Every key anywhere in the tree is non-empty and free of dots and opening brackets. */
  ghost predicate PlainKeys(c: Config)
    decreases c
  {
    match c
    case Leaf(_) => true
    case List(items) => forall i :: 0 <= i < |items| ==> PlainKeys(items[i])
    case Map(entries) => forall k :: k in entries ==> PlainKey(k) && PlainKeys(entries[k])
  }

  lemma {:induction false} LeafPathsArePlain(c: Config, path: seq<Step>)
    requires PlainKeys(c) && Lookup(c, path).Some?
    ensures PlainPath(path)
    decreases |path|
  {
    if path == [] {
    } else {
      if path[0].Key? {
        LeafPathsArePlain(c.entries[path[0].key], path[1..]);
      } else {
        LeafPathsArePlain(c.items[path[0].index], path[1..]);
      }
      assert path == [path[0]] + path[1..];
    }
  }

  /** With plain keys the dictionary is the tree's lookup table, in whatever order it was filled. */
  lemma FlatIsLookup(c: Config, out: map<string, Scalar>, path: seq<Step>)
    requires PlainKeys(c) && Flattens(c, "", out) && PlainPath(path)
    ensures Lookup(c, path) == if Written("", path) in out then Some(out[Written("", path)]) else None
  {
    var p := Written("", path);
    if p in out {
      assert WrittenLeaf(c, "", p, out[p]);
      var other :| Lookup(c, other) == Some(out[p]) && Written("", other) == p;
      LeafPathsArePlain(c, other);
      WrittenIsInjective("", path, other);
    }
  }

  ghost predicate SameLeaves(a: Config, b: Config) {
    forall path :: Lookup(a, path) == Lookup(b, path)
  }

  lemma SameFlatSameLeaves(a: Config, b: Config, fa: map<string, Scalar>, fb: map<string, Scalar>)
    requires PlainKeys(a) && PlainKeys(b) && Flattens(a, "", fa) && Flattens(b, "", fb)
    ensures fa == fb <==> SameLeaves(a, b)
  {
    if fa == fb {
      forall path ensures Lookup(a, path) == Lookup(b, path) {
        if Lookup(a, path).Some? {
          LeafPathsArePlain(a, path);
        }
        if Lookup(b, path).Some? {
          LeafPathsArePlain(b, path);
        }
        if PlainPath(path) {
          FlatIsLookup(a, fa, path);
          FlatIsLookup(b, fb, path);
        }
      }
    }
    if SameLeaves(a, b) {
      FlatWithin(a, b, fa, fb);
      FlatWithin(b, a, fb, fa);
    }
  }

  lemma FlatWithin(a: Config, b: Config, fa: map<string, Scalar>, fb: map<string, Scalar>)
    requires PlainKeys(a) && PlainKeys(b) && Flattens(a, "", fa) && Flattens(b, "", fb) && SameLeaves(a, b)
    ensures forall p :: p in fa ==> p in fb && fa[p] == fb[p]
  {
    forall p | p in fa ensures p in fb && fa[p] == fb[p] {
      assert WrittenLeaf(a, "", p, fa[p]);
      var path :| Lookup(a, path) == Some(fa[p]) && Written("", path) == p;
      LeafPathsArePlain(a, path);
      FlatIsLookup(b, fb, path);
    }
  }

  /** No container strictly inside the tree is empty. */
  ghost predicate Solid(c: Config)
    decreases c
  {
    match c
    case Leaf(_) => true
    case List(items) => forall i :: 0 <= i < |items| ==> !IsEmpty(items[i]) && Solid(items[i])
    case Map(entries) => forall k :: k in entries ==> !IsEmpty(entries[k]) && Solid(entries[k])
  }

  lemma {:induction false} SolidHasLeaf(c: Config) returns (path: seq<Step>)
    requires Solid(c) && !IsEmpty(c)
    ensures Lookup(c, path).Some?
    ensures c.Map? ==> path != [] && path[0].Key?
    ensures c.List? ==> path != [] && path[0].Index?
    decreases c
  {
    match c {
      case Leaf(_) => path := [];
      case List(items) =>
        var rest := SolidHasLeaf(items[0]);
        LookupChild(c, Index(0), items[0], rest);
        path := [Index(0)] + rest;
      case Map(entries) =>
        assert entries != map[];
        var k :| k in entries;
        var rest := SolidHasLeaf(entries[k]);
        LookupChild(c, Key(k), entries[k], rest);
        path := [Key(k)] + rest;
    }
  }

  lemma SameLeavesOfChild(a: Config, b: Config, step: Step, x: Config, y: Config)
    requires SameLeaves(a, b) && IsChild(a, step, x) && IsChild(b, step, y)
    ensures SameLeaves(x, y)
  {
    forall path ensures Lookup(x, path) == Lookup(y, path) {
      LookupChild(a, step, x, path);
      LookupChild(b, step, y, path);
      assert Lookup(a, [step] + path) == Lookup(b, [step] + path);
    }
  }

  lemma ChildIsShared(a: Config, b: Config, step: Step, x: Config)
    requires SameLeaves(a, b) && IsChild(a, step, x) && Solid(x) && !IsEmpty(x)
    ensures exists y :: IsChild(b, step, y)
  {
    var rest := SolidHasLeaf(x);
    LookupChild(a, step, x, rest);
    var path := [step] + rest;
    assert Lookup(b, path).Some?;
    if step.Key? {
      assert IsChild(b, step, b.entries[step.key]);
    } else {
      assert IsChild(b, step, b.items[step.index]);
    }
  }

  lemma {:induction false} LeavesDetermineTree(a: Config, b: Config)
    requires Solid(a) && Solid(b) && SameLeaves(a, b)
    requires (a.Map? && b.Map?) || (!IsEmpty(a) && !IsEmpty(b))
    ensures a == b
    decreases a
  {
    SameKind(a, b);
    match a {
      case Leaf(_) =>
        assert Lookup(a, []) == Lookup(b, []);
      case List(items) =>
        SameListLength(a, b);
        SameListLength(b, a);
        forall i | 0 <= i < |items| ensures items[i] == b.items[i] {
          SameLeavesOfChild(a, b, Index(i), items[i], b.items[i]);
          LeavesDetermineTree(items[i], b.items[i]);
        }
        assert items == b.items;
      case Map(entries) =>
        forall k | k in entries ensures k in b.entries && entries[k] == b.entries[k] {
          ChildIsShared(a, b, Key(k), entries[k]);
          SameLeavesOfChild(a, b, Key(k), entries[k], b.entries[k]);
          LeavesDetermineTree(entries[k], b.entries[k]);
        }
        forall k | k in b.entries ensures k in entries {
          ChildIsShared(b, a, Key(k), b.entries[k]);
        }
        assert entries == b.entries;
    }
  }

  lemma SameListLength(a: Config, b: Config)
    requires Solid(a) && SameLeaves(a, b) && a.List? && b.List?
    ensures |a.items| <= |b.items|
  {
    if |b.items| < |a.items| {
      ChildIsShared(a, b, Index(|b.items|), a.items[|b.items|]);
    }
  }

  lemma SameKind(a: Config, b: Config)
    requires Solid(a) && Solid(b) && SameLeaves(a, b)
    requires (a.Map? && b.Map?) || (!IsEmpty(a) && !IsEmpty(b))
    ensures a.Leaf? == b.Leaf? && a.List? == b.List? && a.Map? == b.Map?
  {
    if !(a.Map? && b.Map?) {
      var path := SolidHasLeaf(a);
      assert Lookup(b, path) == Lookup(a, path);
    }
  }

  // ----- the comparison -----

  /** The paths only the right has, those only the left has, and those where they differ. */
  method Compare(left: Config, right: Config)
      returns (identical: bool, added: set<string>, removed: set<string>, changed: set<string>)
    ensures identical == (added == {} && removed == {} && changed == {})
    ensures PlainKeys(left) && PlainKeys(right) ==> (identical <==> SameLeaves(left, right))
    ensures PlainKeys(left) && PlainKeys(right) ==>
              forall path :: PlainPath(path) ==>
                var p, l, r := Written("", path), Lookup(left, path), Lookup(right, path);
                && (p in added <==> l.None? && r.Some?)
                && (p in removed <==> l.Some? && r.None?)
                && (p in changed <==> l.Some? && r.Some? && l != r)
  {
    var lf := Flatten(left, "");
    var rf := Flatten(right, "");
    added := rf.Keys - lf.Keys;
    removed := lf.Keys - rf.Keys;
    changed := set p | p in lf.Keys * rf.Keys && lf[p] != rf[p];
    identical := added == {} && removed == {} && changed == {};
    IdenticalIsEqual(lf, rf, added, removed, changed);
    if PlainKeys(left) && PlainKeys(right) {
      SameFlatSameLeaves(left, right, lf, rf);
      forall path | PlainPath(path)
        ensures var p, l, r := Written("", path), Lookup(left, path), Lookup(right, path);
          && (p in added <==> l.None? && r.Some?)
          && (p in removed <==> l.Some? && r.None?)
          && (p in changed <==> l.Some? && r.Some? && l != r)
      {
        FlatIsLookup(left, lf, path);
        FlatIsLookup(right, rf, path);
      }
    }
  }

  lemma IdenticalIsEqual(
      lf: map<string, Scalar>, rf: map<string, Scalar>, added: set<string>, removed: set<string>,
      changed: set<string>)
    requires added == rf.Keys - lf.Keys && removed == lf.Keys - rf.Keys
    requires changed == set p | p in lf.Keys * rf.Keys && lf[p] != rf[p]
    ensures added == {} && removed == {} && changed == {} <==> lf == rf
  {
    if added == {} && removed == {} && changed == {} {
      forall p | p in lf ensures p in rf && lf[p] == rf[p] {
        assert p !in removed && p !in changed;
      }
      forall p | p in rf ensures p in lf {
        assert p !in added;
      }
      assert lf.Keys == rf.Keys;
    }
  }

  /** Two expanded configs with plain keys and no empty container inside have the same flattened form
      exactly when they are the same config. */
  lemma SameFlatSameConfig(left: Config, right: Config, lf: map<string, Scalar>, rf: map<string, Scalar>)
    requires left.Map? && right.Map?
    requires PlainKeys(left) && PlainKeys(right) && Solid(left) && Solid(right)
    requires Flattens(left, "", lf) && Flattens(right, "", rf)
    ensures lf == rf <==> left == right
  {
    SameFlatSameLeaves(left, right, lf, rf);
    if SameLeaves(left, right) {
      LeavesDetermineTree(left, right);
    }
  }

  /** An empty section inside is invisible to the comparison. */
  lemma EmptySectionIsInvisible(lf: map<string, Scalar>, rf: map<string, Scalar>)
    requires Flattens(Map(map["a" := Map(map[])]), "", lf) && Flattens(Map(map[]), "", rf)
    ensures lf == rf
  {
    var left, right := Map(map["a" := Map(map[])]), Map(map[]);
    assert PlainKey("a");
    forall path ensures Lookup(left, path) == Lookup(right, path) {}
    SameFlatSameLeaves(left, right, lf, rf);
  }

  /** A key with a dot in it looks like a nested section. */
  lemma DottedKeyLooksNested(lf: map<string, Scalar>, rf: map<string, Scalar>)
    requires Flattens(Map(map["a.b" := Leaf(Int(1))]), "", lf)
    requires Flattens(Map(map["a" := Map(map["b" := Leaf(Int(1))])]), "", rf)
    ensures lf == rf == map["a.b" := Int(1)]
  {
    var left, right := Map(map["a.b" := Leaf(Int(1))]), Map(map["a" := Map(map["b" := Leaf(Int(1))])]);
    OnlyLeaf(left, [Key("a.b")], Int(1), lf);
    NestedLookup(right, [Key("a"), Key("b")]);
    forall path | Lookup(right, path).Some? ensures path == [Key("a"), Key("b")] {
      NestedLookup(right, path);
    }
    OnlyLeaf(right, [Key("a"), Key("b")], Int(1), rf);
    assert Written("a", [Key("b")]) == "a.b";
  }

  lemma NestedLookup(c: Config, path: seq<Step>)
    requires c == Map(map["a" := Map(map["b" := Leaf(Int(1))])])
    ensures Lookup(c, path) == if path == [Key("a"), Key("b")] then Some(Int(1)) else None
  {
    var inner := c.entries["a"];
    if path != [] && path[0] == Key("a") {
      var rest := path[1..];
      assert Lookup(c, path) == Lookup(inner, rest);
      if rest != [] && rest[0] == Key("b") {
        assert Lookup(inner, rest) == Lookup(Leaf(Int(1)), rest[1..]);
        assert path == [Key("a"), Key("b")] + rest[1..];
      } else {
        assert Lookup(inner, rest) == None;
      }
    }
  }

  lemma OnlyLeaf(c: Config, path: seq<Step>, v: Scalar, out: map<string, Scalar>)
    requires Flattens(c, "", out) && Lookup(c, path) == Some(v)
    requires forall other :: Lookup(c, other).Some? ==> other == path
    ensures out == map[Written("", path) := v]
  {
    forall p | p in out ensures p == Written("", path) && out[p] == v {
      assert WrittenLeaf(c, "", p, out[p]);
    }
  }
}
