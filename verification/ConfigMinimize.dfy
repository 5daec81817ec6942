/** Minimising a child configuration against its base (tools/config_cli.py, lines 86-100 and 234-270).
    A tree is a leaf, a dictionary or a list; merging is recursive on dictionaries and replaces
    everything else. */
module ConfigMinimize {
  import opened Wrappers

  datatype Tree = Leaf(value: int) | Dict(entries: map<string, Tree>) | List(items: seq<Tree>)

  const MARKER := "_override_"

  datatype Pruned = Remove | Keep(tree: Tree)

  /** `OmegaConf.merge` */
  function Merge(base: Tree, over: Tree): Tree
    decreases over
  {
    if base.Dict? && over.Dict? then
      Dict(map k | k in base.entries.Keys + over.entries.Keys ::
        if k !in over.entries then base.entries[k]
        else if k !in base.entries then over.entries[k]
        else Merge(base.entries[k], over.entries[k]))
    else over
  }

  predicate Empty(t: Tree)
  {
    t == Dict(map[]) || t == List([])
  }

  /** What a dictionary keeps of an entry that its base has too. */
  predicate Drops(a: Tree, b: Tree)
    decreases a, 1
  {
    var p := Prune(a, b);
    p.Remove? || Empty(p.tree)
  }

  /** `_prune_equal` */
  function Prune(a: Tree, b: Tree): (p: Pruned)
    ensures a.Dict? && b.Dict? ==> p.Keep? && p.tree.Dict?
    ensures !(a.Dict? && b.Dict?) ==> p == if a == b then Remove else Keep(a)
    decreases a, 0
  {
    if a.Dict? && b.Dict? then
      Keep(Dict(map k | k in a.entries.Keys && (k in b.entries ==> !Drops(a.entries[k], b.entries[k])) ::
        if k in b.entries then Prune(a.entries[k], b.entries[k]).tree else a.entries[k]))
    else if a == b then Remove
    else Keep(a)
  }

  /** The minimised child of a base: both are dictionaries at the top. */
  function Minimized(child: Tree, base: Tree): (m: Tree)
    requires child.Dict? && base.Dict?
    ensures m.Dict?
  {
    Prune(child, base).tree
  }

  // ---------------------------------------------------------------- merging and pruning, path by path

  /** What a tree holds at a path of keys. */
  function At(t: Tree, path: seq<string>): Option<Tree>
  {
    if path == [] then Some(t)
    else if t.Dict? && path[0] in t.entries then At(t.entries[path[0]], path[1..])
    else None
  }

  /** The path leaves the tree at a dictionary that lacks its next key. */
  predicate FallsOff(t: Tree, path: seq<string>)
  {
    path != [] && t.Dict? && (path[0] in t.entries ==> FallsOff(t.entries[path[0]], path[1..]))
  }

  /** Where the child says nothing the base counts; elsewhere there is something exactly if the child has it, its
      leaves and lists as they are. */
  ghost predicate MergedAt(merged: Tree, base: Tree, over: Tree, path: seq<string>)
  {
    var m, o := At(merged, path), At(over, path);
    if FallsOff(over, path) then m == At(base, path)
    else match o
      case None => m == None
      case Some(t) => if t.Dict? then m.Some? && m.value.Dict? else m == o
  }

  lemma {:induction false} NothingThere(t: Tree, path: seq<string>)
    requires FallsOff(t, path)
    ensures At(t, path) == None
  {
    if path[0] in t.entries {
      NothingThere(t.entries[path[0]], path[1..]);
    }
  }

  /** What merging means at every path. */
  lemma {:induction false} MergeByPath(base: Tree, over: Tree, path: seq<string>)
    ensures MergedAt(Merge(base, over), base, over, path)
  {
    if path != [] && base.Dict? && over.Dict? && path[0] in base.entries && path[0] in over.entries {
      MergeByPath(base.entries[path[0]], over.entries[path[0]], path[1..]);
    } else if FallsOff(over, path) {
      NothingThere(over, path);
    }
  }

  /** A leaf or list stays exactly if the base has nothing at its path, or something else that it does not replace
      by an empty list; a dictionary that stays beside one of the base's is not empty; what the base does not
      have stays. */
  ghost predicate PrunedAt(pruned: Tree, a: Tree, b: Tree, path: seq<string>)
  {
    var p, x, y := At(pruned, path), At(a, path), At(b, path);
    && (p.Some? ==> x.Some? && (p.value.Dict? <==> x.value.Dict?))
    && (x.Some? && !x.value.Dict? ==>
          (p == x <==> y.None? || (y != x && x.value != List([]))) && (p.None? <==> p != x))
    && (p.Some? && p.value.Dict? && y.Some? && path != [] ==> p.value.entries != map[])
    && (x.Some? && y.None? ==> p == x)
  }

  /** What pruning means at every path. */
  lemma {:induction false} PruneByPath(a: Tree, b: Tree, path: seq<string>)
    requires a.Dict? && b.Dict?
    ensures PrunedAt(Prune(a, b).tree, a, b, path)
  {
    if path != [] && path[0] in a.entries && path[0] in b.entries {
      var x, y := a.entries[path[0]], b.entries[path[0]];
      if x.Dict? && y.Dict? {
        PruneByPath(x, y, path[1..]);
      }
    }
  }

  // ---------------------------------------------------------------- plain merge

  /** No empty dictionary or list of the child replaces a different value of the base; an empty
      dictionary over a dictionary replaces nothing. */
  predicate NoEmptyReplacement(a: Tree, b: Tree)
    requires a.Dict? && b.Dict?
    decreases a
  {
    forall k :: k in a.entries && k in b.entries ==>
      if a.entries[k].Dict? && b.entries[k].Dict? then NoEmptyReplacement(a.entries[k], b.entries[k])
      else a.entries[k] == b.entries[k] || !Empty(a.entries[k])
  }

  /** The value a merge has at a shared key, before and after pruning. */
  function MergedEntry(a: Tree, b: Tree): Tree
    decreases a, 2
  {
    if Drops(a, b) then b else Merge(b, Prune(a, b).tree)
  }

  lemma MergeEmpty(b: Tree)
    requires b.Dict?
    ensures Merge(b, Dict(map[])) == b
  {
    assert Merge(b, Dict(map[])).entries == b.entries;
  }

  /** At one key: pruning preserves the merged value exactly under the side condition. */
  lemma {:induction false} EntryPreserved(a: Tree, b: Tree)
    ensures MergedEntry(a, b) == Merge(b, a)
       <==> if a.Dict? && b.Dict? then NoEmptyReplacement(a, b) else a == b || !Empty(a)
    decreases a, 3
  {
    if a.Dict? && b.Dict? {
      PlainMergePreserved(a, b);
      if Drops(a, b) {
        MergeEmpty(b);
      }
    }
  }

  /** Merging the pruned child gives what merging the child gives exactly when no empty dictionary or
      list of the child replaces a different value. */
  lemma {:induction false} PlainMergePreserved(a: Tree, b: Tree)
    requires a.Dict? && b.Dict?
    ensures Merge(b, Prune(a, b).tree) == Merge(b, a) <==> NoEmptyReplacement(a, b)
    decreases a, 2
  {
    var p := Prune(a, b).tree;
    var after, before := Merge(b, p).entries, Merge(b, a).entries;
    assert after.Keys == before.Keys == a.entries.Keys + b.entries.Keys;
    forall k | k in a.entries && k in b.entries
      ensures after[k] == MergedEntry(a.entries[k], b.entries[k]) && before[k] == Merge(b.entries[k], a.entries[k])
      ensures after[k] == before[k] <==>
                if a.entries[k].Dict? && b.entries[k].Dict? then NoEmptyReplacement(a.entries[k], b.entries[k])
                else a.entries[k] == b.entries[k] || !Empty(a.entries[k])
    {
      EntryPreserved(a.entries[k], b.entries[k]);
    }
    assert forall k :: k in before && !(k in a.entries && k in b.entries) ==> after[k] == before[k];
    if NoEmptyReplacement(a, b) {
      assert after == before;
    }
  }

  /** An empty list over a non-empty one is lost: the merged list is the base's again. */
  lemma EmptyListIsLost()
    ensures var base, child := Dict(map["xs" := List([Leaf(1)])]), Dict(map["xs" := List([])]);
            && Minimized(child, base) == Dict(map[])
            && Merge(base, child).entries["xs"] == List([])
            && Merge(base, Minimized(child, base)).entries["xs"] == List([Leaf(1)])
  {
    var base, child := Dict(map["xs" := List([Leaf(1)])]), Dict(map["xs" := List([])]);
    assert Drops(child.entries["xs"], base.entries["xs"]);
    assert Minimized(child, base).entries == map[];
    MergeEmpty(base);
  }

  /** Pruning twice is pruning once. */
  lemma {:induction false} PruneIdempotent(a: Tree, b: Tree)
    requires a.Dict? && b.Dict?
    ensures Prune(Prune(a, b).tree, b) == Prune(a, b)
    decreases a
  {
    var p := Prune(a, b).tree;
    forall k | k in p.entries && k in b.entries
      ensures !Drops(p.entries[k], b.entries[k]) && Prune(p.entries[k], b.entries[k]).tree == p.entries[k]
    {
      assert !Drops(a.entries[k], b.entries[k]) && p.entries[k] == Prune(a.entries[k], b.entries[k]).tree;
      if a.entries[k].Dict? && b.entries[k].Dict? {
        PruneIdempotent(a.entries[k], b.entries[k]);
      }
    }
    assert Prune(p, b).tree.entries == p.entries;
  }

  // ---------------------------------------------------------------- sections that override

  /** Python truth of a marker value; leaf 0 stands for the falsy scalars. */
  predicate Truthy(t: Tree)
  {
    match t
    case Leaf(v) => v != 0
    case Dict(m) => m != map[]
    case List(xs) => xs != []
  }

  /** A section that replaces the base's section instead of merging with it. */
  predicate Marked(t: Tree)
  {
    t.Dict? && MARKER in t.entries && Truthy(t.entries[MARKER])
  }

  function Stripped(t: Tree): Tree
  {
    if Marked(t) then Dict(t.entries - {MARKER}) else t
  }

  function StrippedAll(over: map<string, Tree>): map<string, Tree>
  {
    map k | k in over.Keys :: Stripped(over[k])
  }

  function Overridden(base: map<string, Tree>, over: map<string, Tree>): map<string, Tree>
  {
    map k | k in base.Keys && !(k in over && Marked(over[k])) :: base[k]
  }

  /** The merge with markers, on values: marked sections lose their marker and their base. */
  function MergeWithOverride(base: map<string, Tree>, over: map<string, Tree>): Tree
  {
    Merge(Dict(Overridden(base, over)), Dict(StrippedAll(over)))
  }

  class Config {
    var root: map<string, Tree>

    constructor (entries: map<string, Tree>)
      ensures root == entries
    {
      root := entries;
    }

    /** One pass of the loop: a marked section loses its marker, and the base its section. */
    method PopMarked(over: Config, key: string)
      requires over != this && key in over.root
      modifies this, over
      ensures over.root == old(over.root)[key := Stripped(old(over.root)[key])]
      ensures root == if Marked(old(over.root)[key]) then old(root) - {key} else old(root)
    {
      if Marked(over.root[key]) {
        over.root := over.root[key := Dict(over.root[key].entries - {MARKER})];
        if key in root {
          root := root - {key};
        }
      }
    }

    /** `merge_with_override`: pops markers from the argument and marked sections from the base, in
        place, then merges.  Markers below the first level are left alone. */
    method MergeOver(over: Config) returns (merged: Tree)
      requires over != this
      modifies this, over
      ensures merged == MergeWithOverride(old(root), old(over.root))
      ensures root == Overridden(old(root), old(over.root)) && over.root == StrippedAll(old(over.root))
      ensures merged.Dict? && forall k :: MergedKey(merged.entries, old(root), old(over.root), k)
      ensures over.root.Keys == old(over.root).Keys
      ensures forall k :: k in over.root && !Marked(old(over.root)[k]) ==> over.root[k] == old(over.root)[k]
      ensures forall k :: k in over.root && Marked(old(over.root)[k]) ==>
                over.root[k] == Dict(old(over.root)[k].entries - {MARKER})
      ensures forall k :: k in root <==> k in old(root) && !(k in over.root && Marked(old(over.root)[k]))
      ensures forall k :: k in root ==> root[k] == old(root)[k]
    {
      var keys := over.root.Keys;
      ghost var base, all := root, over.root;
      while keys != {}
        invariant keys <= all.Keys
        invariant HalfWay(base, all, keys, root, over.root)
        decreases |keys|
      {
        var key :| key in keys;
        keys := keys - {key};
        PopMarked(over, key);
      }
      assert over.root == StrippedAll(all);
      assert root == Overridden(base, all);
      merged := Merge(Dict(root), Dict(over.root));
      MergedKeys(base, all);
    }
  }

  /** One key of a merge with markers, in terms of the two configurations as they were: a marked section replaces
      the base's and loses its marker, anything else merges path by path. */
  ghost predicate MergedKey(merged: map<string, Tree>, base: map<string, Tree>, over: map<string, Tree>, k: string)
  {
    && (k in merged <==> k in base || k in over)
    && (k in base && k !in over ==> merged[k] == base[k])
    && (k in over && Marked(over[k]) ==> merged[k] == Dict(over[k].entries - {MARKER}))
    && (k in over && !Marked(over[k]) && k !in base ==> merged[k] == over[k])
    && (k in over && !Marked(over[k]) && k in base ==> forall path :: MergedAt(merged[k], base[k], over[k], path))
  }

  lemma MergedKeys(base: map<string, Tree>, over: map<string, Tree>)
    ensures var merged := MergeWithOverride(base, over);
            merged.Dict? && forall k :: MergedKey(merged.entries, base, over, k)
  {
    var merged := MergeWithOverride(base, over).entries;
    forall k
      ensures MergedKey(merged, base, over, k)
    {
      if k in over && !Marked(over[k]) && k in base {
        forall path
          ensures MergedAt(merged[k], base[k], over[k], path)
        {
          MergeByPath(base[k], over[k], path);
        }
      }
    }
  }

  /** The two maps when the keys in `left` are still to be visited. */
  ghost predicate HalfWay(base: map<string, Tree>, over: map<string, Tree>, left: set<string>, b: map<string, Tree>,
      o: map<string, Tree>)
  {
    && o.Keys == over.Keys && (forall k :: k in o ==> o[k] == if k in left then over[k] else Stripped(over[k]))
    && (forall k :: k in b <==> k in base && !(k in over && k !in left && Marked(over[k])))
    && (forall k :: k in b ==> b[k] == base[k])
  }

  // ---------------------------------------------------------------- minimising with markers

  /** Pruning leaves the whole subtree as it is. */
  predicate Untouched(a: Tree, b: Tree)
    decreases a
  {
    if a.Dict? && b.Dict? then
      forall k :: k in a.entries && k in b.entries ==>
        a.entries[k] != b.entries[k] && !Empty(a.entries[k]) && Untouched(a.entries[k], b.entries[k])
    else true
  }

  /** Nothing in a section but its marker is pruned. */
  predicate ContentsUntouched(a: Tree, b: Tree)
    requires a.Dict? && b.Dict?
  {
    forall k :: k in a.entries && k in b.entries && k != MARKER ==>
      a.entries[k] != b.entries[k] && !Empty(a.entries[k]) && Untouched(a.entries[k], b.entries[k])
  }

  /** Merging what pruning leaves of a over b gives a itself: b has nothing that a lacks, and no empty value
      of a replaces a different one. */
  predicate Restores(a: Tree, b: Tree)
    decreases a
  {
    if a.Dict? && b.Dict? then
      b.entries.Keys <= a.entries.Keys
      && forall k :: k in a.entries && k in b.entries ==> Restores(a.entries[k], b.entries[k])
    else a == b || !Empty(a)
  }

  /** The marker of an overriding section would be pruned. */
  predicate MarkerPruned(a: Tree, b: Tree)
    requires Marked(a) && b.Dict?
  {
    MARKER in b.entries && Drops(a.entries[MARKER], b.entries[MARKER])
  }

  /** What a caller can check before minimising, section by section: see `SafeEntry`. */
  predicate SafeToMinimize(child: map<string, Tree>, base: map<string, Tree>)
  {
    forall k :: k in child && k in base ==> SafeEntry(child[k], base[k])
  }

  /** An overriding section over a section of the base keeps its marker and all its contents, or loses the
      marker but restores its contents; any other section replaces nothing by an empty value, nor brings an
      empty marker over a marked section. */
  predicate SafeEntry(a: Tree, b: Tree)
  {
    if Marked(a) then
      b.Dict? ==>
        if MarkerPruned(a, b) then Restores(Dict(a.entries - {MARKER}), Dict(b.entries - {MARKER}))
        else ContentsUntouched(a, b)
    else if a.Dict? && b.Dict? then
      NoEmptyReplacement(a, b) && (Marked(b) && MARKER in a.entries ==> !Empty(a.entries[MARKER]))
    else a == b || !Empty(a)
  }

  lemma {:induction false} UntouchedExactly(a: Tree, b: Tree)
    requires a != b && !Empty(a)
    ensures Untouched(a, b) <==> Prune(a, b) == Keep(a)
    decreases a, 0
  {
    if a.Dict? && b.Dict? {
      var p := Prune(a, b).tree;
      forall k | k in a.entries && k in b.entries
        ensures a.entries[k] != b.entries[k] && !Empty(a.entries[k]) && Untouched(a.entries[k], b.entries[k])
           <==> k in p.entries && p.entries[k] == a.entries[k]
      {
        EntryUntouched(a.entries[k], b.entries[k]);
      }
      if Untouched(a, b) {
        assert p.entries == a.entries;
      }
    }
  }

  lemma {:induction false} EntryUntouched(a: Tree, b: Tree)
    ensures a != b && !Empty(a) && Untouched(a, b) <==> !Drops(a, b) && Prune(a, b).tree == a
    decreases a, 1
  {
    if a == b && a.Dict? {
      SelfPrunesEmpty(a);
    } else if a != b && !Empty(a) {
      UntouchedExactly(a, b);
    }
  }

  lemma {:induction false} SelfPrunesEmpty(a: Tree)
    requires a.Dict?
    ensures Prune(a, a).tree == Dict(map[])
    decreases a
  {
    forall k | k in a.entries
      ensures Drops(a.entries[k], a.entries[k])
    {
      if a.entries[k].Dict? {
        SelfPrunesEmpty(a.entries[k]);
      }
    }
    assert Prune(a, a).tree.entries == map[];
  }

  /** The value a loaded child has at a key whose loaded base value is `s`. */
  function EntryOf(a: Tree, s: Tree): Tree
  {
    if Marked(a) then Stripped(a) else Merge(s, a)
  }

  /** The same after the child was pruned against the base value b, from which `s` was loaded. */
  function EntryAfter(a: Tree, b: Tree, s: Tree): Tree
  {
    if Drops(a, b) then s else EntryOf(Prune(a, b).tree, s)
  }

  /** Whether the pruned section still carries its marker. */
  lemma MarkerAfterPruning(a: Tree, b: Tree)
    requires a.Dict? && b.Dict?
    ensures Marked(Prune(a, b).tree) <==>
              Marked(a) && (MARKER in b.entries ==> !Drops(a.entries[MARKER], b.entries[MARKER]))
  {
    if MARKER in a.entries && MARKER in b.entries && !Drops(a.entries[MARKER], b.entries[MARKER]) {
      var m, q := a.entries[MARKER], Prune(a.entries[MARKER], b.entries[MARKER]).tree;
      assert q == Prune(a, b).tree.entries[MARKER] && !Empty(q);
      assert q.Dict? && m.Dict? ==> m.entries != map[] && q.entries != map[];
    }
  }

  lemma SameButMarker(a: map<string, Tree>, p: map<string, Tree>)
    requires p.Keys <= a.Keys
    ensures a - {MARKER} == p - {MARKER} <==> forall k :: k in a && k != MARKER ==> k in p && p[k] == a[k]
  {
    var x, y := a - {MARKER}, p - {MARKER};
    if x == y {
      forall k | k in a && k != MARKER
        ensures k in p && p[k] == a[k]
      {
        assert k in x && k in y && x[k] == y[k];
      }
    }
  }

  /** An overriding section that keeps its marker. */
  lemma MarkerKept(a: Tree, b: Tree, s: Tree)
    requires Marked(a) && b.Dict? && !MarkerPruned(a, b)
    ensures EntryAfter(a, b, s) == EntryOf(a, s) <==> ContentsUntouched(a, b)
  {
    var p := Prune(a, b).tree;
    MarkerAfterPruning(a, b);
    forall k | k in a.entries && k in b.entries && k != MARKER
      ensures a.entries[k] != b.entries[k] && !Empty(a.entries[k]) && Untouched(a.entries[k], b.entries[k])
         <==> k in p.entries && p.entries[k] == a.entries[k]
    {
      EntryUntouched(a.entries[k], b.entries[k]);
    }
    SameButMarker(a.entries, p.entries);
  }

  lemma {:induction false} RestoresExactly(a: Tree, b: Tree)
    ensures MergedEntry(a, b) == a <==> Restores(a, b)
    decreases a
  {
    if a.Dict? && b.Dict? {
      var p := Prune(a, b).tree;
      if Drops(a, b) {
        MergeEmpty(b);
      }
      var merged := Merge(b, p).entries;
      assert MergedEntry(a, b) == Dict(merged) && merged.Keys == a.entries.Keys + b.entries.Keys;
      forall k | k in a.entries && k in b.entries
        ensures merged[k] == MergedEntry(a.entries[k], b.entries[k])
        ensures merged[k] == a.entries[k] <==> Restores(a.entries[k], b.entries[k])
      {
        RestoresExactly(a.entries[k], b.entries[k]);
      }
      if Restores(a, b) {
        assert merged == a.entries;
      }
    }
  }

  /** Pruning goes key by key, so it can be done with the markers already gone. */
  lemma PruneWithoutMarker(a: Tree, b: Tree)
    requires a.Dict? && b.Dict?
    ensures Prune(Dict(a.entries - {MARKER}), Dict(b.entries - {MARKER})).tree.entries
              == Prune(a, b).tree.entries - {MARKER}
  {
  }

  /** An overriding section whose marker is pruned merges with the base's section instead; the base's marker
      was stripped when the base was loaded. */
  lemma MarkerLost(a: Tree, b: Tree)
    requires Marked(a) && b.Dict? && MarkerPruned(a, b)
    ensures Marked(b)
    ensures EntryAfter(a, b, Stripped(b)) == EntryOf(a, Stripped(b))
       <==> Restores(Dict(a.entries - {MARKER}), Dict(b.entries - {MARKER}))
  {
    var p := Prune(a, b).tree;
    var x, y := Dict(a.entries - {MARKER}), Dict(b.entries - {MARKER});
    MarkerAfterPruning(a, b);
    PruneWithoutMarker(a, b);
    assert MARKER !in p.entries && p.entries - {MARKER} == p.entries;
    assert Prune(x, y).tree == p;
    if Drops(a, b) {
      MergeEmpty(y);
    }
    RestoresExactly(x, y);
  }

  /** A marker that does not count is dropped exactly if it is empty, when the base's does count. */
  lemma FalsyMarker(a: Tree, b: Tree)
    requires !Truthy(a) && Truthy(b)
    ensures Drops(a, b) <==> Empty(a)
    ensures !Drops(a, b) ==> Prune(a, b) == Keep(a)
  {
    if a.Dict? && b.Dict? {
      assert Prune(a, b).tree.entries == map[];
    }
  }

  /** A section without a marker over a marked section of the base. */
  lemma UnmarkedOverMarked(a: Tree, b: Tree)
    requires a.Dict? && !Marked(a) && Marked(b)
    ensures EntryAfter(a, b, Stripped(b)) == EntryOf(a, Stripped(b)) <==> SafeEntry(a, b)
  {
    var p, s := Prune(a, b).tree, Stripped(b);
    MarkerAfterPruning(a, b);
    if Drops(a, b) {
      MergeEmpty(s);
    }
    var after, before := Merge(s, p).entries, Merge(s, a).entries;
    forall k | k in a.entries && k in b.entries && k != MARKER
      ensures k in after && k in before
      ensures after[k] == before[k] <==>
                if a.entries[k].Dict? && b.entries[k].Dict? then NoEmptyReplacement(a.entries[k], b.entries[k])
                else a.entries[k] == b.entries[k] || !Empty(a.entries[k])
    {
      EntryPreserved(a.entries[k], b.entries[k]);
      assert after[k] == MergedEntry(a.entries[k], b.entries[k]);
    }
    if MARKER in a.entries {
      FalsyMarker(a.entries[MARKER], b.entries[MARKER]);
      assert MARKER in before && before[MARKER] == a.entries[MARKER];
      assert MARKER in after <==> MARKER in p.entries;
      assert MARKER in after ==> after[MARKER] == a.entries[MARKER];
    }
    MarkerClause(a, b);
    if SafeEntry(a, b) {
      assert after == before;
    }
  }

  /** A falsy marker that is not empty satisfies the condition on empty values. */
  lemma MarkerClause(a: Tree, b: Tree)
    requires a.Dict? && !Marked(a) && Marked(b)
    ensures SafeEntry(a, b) <==>
              (MARKER in a.entries ==> !Empty(a.entries[MARKER]))
              && forall k :: k in a.entries && k in b.entries && k != MARKER ==>
                   if a.entries[k].Dict? && b.entries[k].Dict? then NoEmptyReplacement(a.entries[k], b.entries[k])
                   else a.entries[k] == b.entries[k] || !Empty(a.entries[k])
  {
  }

  lemma UnmarkedEntry(a: Tree, b: Tree)
    requires !Marked(a)
    ensures EntryAfter(a, b, Stripped(b)) == EntryOf(a, Stripped(b)) <==> SafeEntry(a, b)
  {
    if a.Dict? && Marked(b) {
      UnmarkedOverMarked(a, b);
    } else {
      EntryPreserved(a, b);
      if a.Dict? && b.Dict? {
        MarkerAfterPruning(a, b);
      }
    }
  }

  lemma EntryPreservedExactly(a: Tree, b: Tree)
    ensures EntryAfter(a, b, Stripped(b)) == EntryOf(a, Stripped(b)) <==> SafeEntry(a, b)
  {
    if !Marked(a) {
      UnmarkedEntry(a, b);
    } else if b.Dict? {
      if MarkerPruned(a, b) {
        MarkerLost(a, b);
      } else {
        MarkerKept(a, b, Stripped(b));
      }
    }
  }

  /** What loading a child of `base` gives: the base is merged into the empty configuration first. */
  function Load(base: map<string, Tree>, child: map<string, Tree>): Tree
  {
    MergeWithOverride(MergeWithOverride(map[], base).entries, child)
  }

  lemma LoadedBase(base: map<string, Tree>)
    ensures MergeWithOverride(map[], base).entries == StrippedAll(base)
  {
  }

  /** One key of the loaded child, before and after minimising. */
  lemma KeyOfLoad(child: map<string, Tree>, base: map<string, Tree>, k: string)
    ensures var m, loaded := Minimized(Dict(child), Dict(base)).entries, StrippedAll(base);
            var before, after := MergeWithOverride(loaded, child).entries, MergeWithOverride(loaded, m).entries;
            && (k in before <==> k in child || k in base) && (k in after <==> k in child || k in base)
            && (k in child && k in base ==>
                  before[k] == EntryOf(child[k], Stripped(base[k]))
                  && after[k] == EntryAfter(child[k], base[k], Stripped(base[k])))
            && ((k in child || k in base) && !(k in child && k in base) ==> before[k] == after[k])
  {
    KeyOfMerge(StrippedAll(base), child, k);
    KeyOfMerge(StrippedAll(base), Minimized(Dict(child), Dict(base)).entries, k);
  }

  /** Loading the minimised child gives what loading the child gives exactly when the child is safe to
      minimise.  Pruning compares with the base as it is, markers and all; loading strips them. */
  lemma MinimizePreservesExactly(child: map<string, Tree>, base: map<string, Tree>)
    ensures Load(base, Minimized(Dict(child), Dict(base)).entries) == Load(base, child) <==> SafeToMinimize(child, base)
  {
    var m, loaded := Minimized(Dict(child), Dict(base)).entries, StrippedAll(base);
    LoadedBase(base);
    var before, after := MergeWithOverride(loaded, child).entries, MergeWithOverride(loaded, m).entries;
    forall k
      ensures k in before <==> k in after
      ensures k in before && !(k in child && k in base) ==> before[k] == after[k]
      ensures k in child && k in base ==> k in before && (before[k] == after[k] <==> SafeEntry(child[k], base[k]))
    {
      KeyOfLoad(child, base, k);
      if k in child && k in base {
        EntryPreservedExactly(child[k], base[k]);
      }
    }
    if SafeToMinimize(child, base) {
      assert before == after;
    }
  }

  /** One key of a merge with markers. */
  lemma KeyOfMerge(base: map<string, Tree>, over: map<string, Tree>, k: string)
    ensures var m := MergeWithOverride(base, over).entries;
            && (k in m <==> k in base || k in over)
            && (k in over && k in base ==> m[k] == EntryOf(over[k], base[k]))
            && (k in over && k !in base ==> m[k] == Stripped(over[k]))
            && (k !in over && k in base ==> m[k] == base[k])
  {
  }

  /** Without markers the side condition is about empty values alone. */
  lemma UnmarkedChild(child: map<string, Tree>, base: map<string, Tree>)
    requires forall k :: k in child ==> !Marked(child[k])
    requires forall k :: k in base ==> !Marked(base[k])
    ensures SafeToMinimize(child, base) <==> NoEmptyReplacement(Dict(child), Dict(base))
  {
  }

  /** A section that overrides the base with a subset of it. */
  function Subsection(): Tree
  {
    Dict(map[MARKER := Leaf(1), "lr" := Leaf(1)])
  }

  function BaseSection(): Tree
  {
    Dict(map["lr" := Leaf(1), "eps" := Leaf(2)])
  }

  lemma SubsectionPruned()
    ensures Prune(Subsection(), BaseSection()).tree == Dict(map[MARKER := Leaf(1)]) &&
              !Drops(Subsection(), BaseSection())
  {
    var a, b := Subsection(), BaseSection();
    assert MARKER != "lr" && MARKER != "eps" by {
      assert |MARKER| == 10;
    }
    assert Drops(a.entries["lr"], b.entries["lr"]);
    assert Prune(a, b).tree.entries == map[MARKER := Leaf(1)];
    assert MARKER in Prune(a, b).tree.entries;
  }

  /** It keeps only its marker, and loads as empty. */
  lemma MarkedSubsetIsLost(k: string)
    ensures var base, child := map[k := BaseSection()], map[k := Subsection()];
            && Load(base, child).entries[k] == Dict(map["lr" := Leaf(1)])
            && Load(base, Minimized(Dict(child), Dict(base)).entries).entries[k] == Dict(map[])
  {
    var base, child := map[k := BaseSection()], map[k := Subsection()];
    SubsectionPruned();
    var m := Minimized(Dict(child), Dict(base)).entries;
    assert m[k] == Dict(map[MARKER := Leaf(1)]);
    LoadedBase(base);
    KeyOfMerge(StrippedAll(base), child, k);
    KeyOfMerge(StrippedAll(base), m, k);
    assert Subsection().entries - {MARKER} == map["lr" := Leaf(1)] by {
      assert |MARKER| == 10 && |"lr"| == 2;
    }
    assert m[k].entries - {MARKER} == map[];
  }

  /** A child that repeats a marked section of its base is minimised to nothing, and loads the same. */
  lemma RepeatedMarkedSectionIsSafe(section: Tree, k: string)
    requires Marked(section)
    ensures SafeToMinimize(map[k := section], map[k := section])
    ensures Load(map[k := section], map[]) == Load(map[k := section], map[k := section])
  {
    var one := map[k := section];
    var rest := Dict(section.entries - {MARKER});
    SelfPrunesEmpty(section);
    SelfPrunesEmpty(rest);
    SelfRestores(rest);
    if section.entries[MARKER].Dict? {
      SelfPrunesEmpty(section.entries[MARKER]);
    }
    assert Drops(section, section);
    assert Minimized(Dict(one), Dict(one)).entries == map[];
    MinimizePreservesExactly(one, one);
  }

  lemma {:induction false} SelfRestores(a: Tree)
    ensures Restores(a, a)
    decreases a
  {
    if a.Dict? {
      forall k | k in a.entries
        ensures Restores(a.entries[k], a.entries[k])
      {
        SelfRestores(a.entries[k]);
      }
    }
  }
}
