/** What stands where in an expanded config: at every path, the last config that says something there decides. */
module ConfigInheritance {
  import opened Options
  import opened ConfigTree

  /** What a config holds at a path. */
  function Lookup(c: Config, path: seq<string>): Option<Config> {
    if path == [] then Some(c)
    else if c.Map? && path[0] in c.entries then Lookup(c.entries[path[0]], path[1..])
    else None
  }

  /** A section says something about a path: it goes that far, or ends in a value on the way. */
  predicate Speaks(c: Config, path: seq<string>) {
    path == [] || !c.Map? || (path[0] in c.entries && Speaks(c.entries[path[0]], path[1..]))
  }

  /** A config says something about a path, or replaces the whole section that the path leads into. */
  predicate Decides(m: map<string, Config>, path: seq<string>) {
    path != [] && path[0] in m && (Marked(m[path[0]]) || Speaks(m[path[0]], path[1..]))
  }

  /** The path leads to a value of the config, and not to an override marker. */
  ghost predicate HasLeaf(m: map<string, Config>, path: seq<string>, leaf: Config) {
    !leaf.Map? && path != [] && (|path| >= 2 ==> path[1] != MARKER) && Lookup(Map(m), path) == Some(leaf)
  }

  lemma {:induction false} SilentHasNothing(c: Config, path: seq<string>)
    requires !Speaks(c, path)
    ensures Lookup(c, path) == None
  {
    if path[0] in c.entries {
      SilentHasNothing(c.entries[path[0]], path[1..]);
    }
  }

  lemma {:induction false} MergeSilent(base: Config, over: Config, path: seq<string>)
    requires !Speaks(over, path)
    ensures Lookup(Merge(base, over), path) == Lookup(base, path)
  {
    SilentHasNothing(over, path);
    if base.Map? && path[0] in base.entries && path[0] in over.entries {
      MergeSilent(base.entries[path[0]], over.entries[path[0]], path[1..]);
    }
  }

  lemma {:induction false} MergeSpeaks(base: Config, over: Config, path: seq<string>, leaf: Config)
    requires Speaks(over, path) && !leaf.Map?
    ensures Lookup(Merge(base, over), path) == Some(leaf) <==> Lookup(over, path) == Some(leaf)
  {
    if base.Map? && over.Map? && path != [] && path[0] in base.entries {
      MergeSpeaks(base.entries[path[0]], over.entries[path[0]], path[1..], leaf);
    }
  }

  /** Where the overriding config is silent the base shows through; where it is not, the base is out. */
  lemma InheritLeaf(base: map<string, Config>, over: map<string, Config>, path: seq<string>, leaf: Config)
    ensures HasLeaf(Inherit(base, over), path, leaf) <==>
      HasLeaf(if Decides(over, path) then over else base, path, leaf)
  {
    if path != [] && path[0] in over && !leaf.Map? && (|path| >= 2 ==> path[1] != MARKER) {
      var k, rest := path[0], path[1..];
      if Marked(over[k]) {
        MarkerAside(over[k], rest, leaf);
      } else if k in base && Speaks(over[k], rest) {
        MergeSpeaks(base[k], over[k], rest, leaf);
      } else if k in base {
        MergeSilent(base[k], over[k], rest);
      } else if !Speaks(over[k], rest) {
        SilentHasNothing(over[k], rest);
      }
    }
  }

  lemma MarkerAside(c: Config, path: seq<string>, leaf: Config)
    requires Marked(c) && !leaf.Map? && (path != [] ==> path[0] != MARKER)
    ensures Lookup(Unmark(c), path) == Some(leaf) <==> Lookup(c, path) == Some(leaf)
  {
  }

  /** Config i holds this value at the path, and no later one says anything about it. */
  ghost predicate LastToDecide(configs: seq<map<string, Config>>, path: seq<string>, leaf: Config, i: nat)
    requires i < |configs|
  {
    HasLeaf(configs[i], path, leaf) && forall j :: i < j < |configs| ==> !Decides(configs[j], path)
  }

  lemma {:induction false} InheritedLeaf(parents: seq<map<string, Config>>, path: seq<string>, leaf: Config)
    ensures HasLeaf(Inherited(parents), path, leaf) <==>
            exists i :: 0 <= i < |parents| && LastToDecide(parents, path, leaf, i)
  {
    if parents == [] {
    } else {
      var last := |parents| - 1;
      var front := parents[..last];
      InheritedLeaf(front, path, leaf);
      InheritLeaf(Inherited(front), parents[last], path, leaf);
      if Decides(parents[last], path) {
        assert HasLeaf(parents[last], path, leaf) <==> LastToDecide(parents, path, leaf, last);
      } else {
        LeafDecides(parents[last], path, leaf);
        forall i | 0 <= i < last
          ensures LastToDecide(parents, path, leaf, i) <==> LastToDecide(front, path, leaf, i)
        {
          OneMoreSilent(parents, path, leaf, i);
        }
      }
    }
  }

  lemma OneMoreSilent(parents: seq<map<string, Config>>, path: seq<string>, leaf: Config, i: nat)
    requires i < |parents| - 1 && !Decides(parents[|parents| - 1], path)
    ensures LastToDecide(parents, path, leaf, i) <==> LastToDecide(parents[..|parents| - 1], path, leaf, i)
  {
    var front := parents[..|parents| - 1];
    if LastToDecide(front, path, leaf, i) {
      forall j | i < j < |parents| ensures !Decides(parents[j], path) {
        if j < |front| {
          assert !Decides(front[j], path);
        }
      }
    }
    if LastToDecide(parents, path, leaf, i) {
      forall j | i < j < |front| ensures !Decides(front[j], path) {
        assert !Decides(parents[j], path);
      }
    }
  }

  /** Holding a value is saying something. */
  lemma LeafDecides(m: map<string, Config>, path: seq<string>, leaf: Config)
    requires !Decides(m, path)
    ensures !HasLeaf(m, path, leaf)
  {
    if path != [] && path[0] in m {
      SilentHasNothing(m[path[0]], path[1..]);
    }
  }

  /** An expanded config holds a value at a path exactly when, of the parents in their order and the config itself,
      the last one that says anything about the path holds it. */
  lemma ExpandedLeaf(parents: seq<map<string, Config>>, config: map<string, Config>, path: seq<string>, leaf: Config)
    ensures var configs := parents + [config];
      HasLeaf(Expand(Defaults(parents), config), path, leaf) <==>
      exists i :: 0 <= i < |configs| && LastToDecide(configs, path, leaf, i)
  {
    var configs := parents + [config];
    assert configs[..|configs| - 1] == parents;
    InheritedLeaf(configs, path, leaf);
  }
}
