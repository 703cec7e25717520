/** The conflict-detecting union of nested dictionaries, with which schema differences are combined. */
module DeepMerge {
  import opened Common

  type Key = string
  type Entries = map<Key, Tree>

  datatype Tree = Leaf(value: string) | Dict(entries: Entries)

  // ---------- The order that the union respects ----------

  /** Everything in `a` is also in `b`, at the same place. */
  ghost predicate Within(a: Tree, b: Tree) {
    match (a, b)
    case (Leaf(v), Leaf(w)) => v == w
    case (Dict(x), Dict(y)) => forall k :: k in x ==> k in y && Within(x[k], y[k])
    case _ => false
  }

  lemma {:induction false} WithinItself(a: Tree)
    ensures Within(a, a)
  {
    if a.Dict? {
      forall k | k in a.entries ensures Within(a.entries[k], a.entries[k]) {
        WithinItself(a.entries[k]);
      }
    }
  }

  lemma {:induction false} WithinChains(a: Tree, b: Tree, c: Tree)
    requires Within(a, b) && Within(b, c)
    ensures Within(a, c)
  {
    if a.Dict? {
      forall k | k in a.entries ensures Within(a.entries[k], c.entries[k]) {
        WithinChains(a.entries[k], b.entries[k], c.entries[k]);
      }
    }
  }

  lemma {:induction false} WithinBothWays(a: Tree, b: Tree)
    requires Within(a, b) && Within(b, a)
    ensures a == b
  {
    if a.Dict? {
      forall k | k in a.entries ensures a.entries[k] == b.entries[k] {
        WithinBothWays(a.entries[k], b.entries[k]);
      }
      assert a.entries == b.entries;
    }
  }

  // ---------- The union ----------

  /** Two values under one key can be united: two dictionaries key by key, anything else only when equal. */
  ghost predicate Compatible(a: Tree, b: Tree) {
    if a.Dict? && b.Dict? then forall k :: k in a.entries && k in b.entries ==> Compatible(a.entries[k], b.entries[k])
    else a == b
  }

  ghost function Union(a: Tree, b: Tree): (r: Tree)
    requires Compatible(a, b)
  {
    if a.Dict? && b.Dict? then
      Dict(map k | k in a.entries.Keys + b.entries.Keys ::
             if k !in b.entries then a.entries[k]
             else if k !in a.entries then b.entries[k]
             else Union(a.entries[k], b.entries[k]))
    else a
  }

  /** The result of the merge as a value: absent when it raises an error. */
  ghost function Merge(a: Tree, b: Tree): Option<Tree> {
    if Compatible(a, b) then Some(Union(a, b)) else None
  }

  ghost predicate Above(c: Tree, a: Tree, b: Tree) {
    Within(a, c) && Within(b, c)
  }

  lemma {:induction false} UnionIsAbove(a: Tree, b: Tree)
    requires Compatible(a, b)
    ensures Above(Union(a, b), a, b)
  {
    WithinItself(a);
    if a.Dict? && b.Dict? {
      var c := Union(a, b).entries;
      forall k | k in a.entries ensures Within(a.entries[k], c[k]) {
        if k in b.entries {
          UnionIsAbove(a.entries[k], b.entries[k]);
        } else {
          WithinItself(a.entries[k]);
        }
      }
      forall k | k in b.entries ensures Within(b.entries[k], c[k]) {
        if k in a.entries {
          UnionIsAbove(a.entries[k], b.entries[k]);
        } else {
          WithinItself(b.entries[k]);
        }
      }
    }
  }

  lemma {:induction false} UnionIsLeast(a: Tree, b: Tree, d: Tree)
    requires Above(d, a, b)
    ensures Compatible(a, b) && Within(Union(a, b), d)
  {
    if a.Dict? {
      forall k | k in a.entries && k in b.entries
        ensures Compatible(a.entries[k], b.entries[k]) && Within(Union(a.entries[k], b.entries[k]), d.entries[k])
      {
        UnionIsLeast(a.entries[k], b.entries[k], d.entries[k]);
      }
    }
  }

  /** The merge succeeds exactly when some tree contains both operands, and then returns the least such tree. */
  lemma MergeIsLeastUpperBound(a: Tree, b: Tree, c: Tree)
    ensures Merge(a, b) == Some(c) <==> Above(c, a, b) && forall d :: Above(d, a, b) ==> Within(c, d)
    ensures Merge(a, b) == None <==> !exists d :: Above(d, a, b)
  {
    if Compatible(a, b) {
      UnionIsAbove(a, b);
    }
    forall d | Above(d, a, b) ensures Compatible(a, b) && Within(Union(a, b), d) {
      UnionIsLeast(a, b, d);
    }
    if Above(c, a, b) && forall d :: Above(d, a, b) ==> Within(c, d) {
      WithinBothWays(c, Union(a, b));
    }
  }

  lemma MergeIsIdempotent(a: Tree)
    ensures Merge(a, a) == Some(a)
  {
    WithinItself(a);
    MergeIsLeastUpperBound(a, a, a);
  }

  /** Merging does not depend on the order of the operands, neither in its result nor in whether it fails;
      so a three-way difference is the same whichever side comes first. */
  lemma MergeIsCommutative(a: Tree, b: Tree)
    ensures Merge(a, b) == Merge(b, a)
  {
    forall d ensures Above(d, a, b) <==> Above(d, b, a) {}
    match Merge(a, b) {
      case None =>
        MergeIsLeastUpperBound(a, b, a);
        MergeIsLeastUpperBound(b, a, a);
      case Some(c) =>
        MergeIsLeastUpperBound(a, b, c);
        MergeIsLeastUpperBound(b, a, c);
    }
  }

  /** Merging three trees: a failure of one merge is a failure of the whole. */
  ghost function MergeOption(a: Option<Tree>, b: Option<Tree>): Option<Tree> {
    if a.Some? && b.Some? then Merge(a.value, b.value) else None
  }

  lemma LeftMergeBounds(a: Tree, b: Tree, c: Tree, d: Tree)
    requires Within(a, d) && Within(b, d) && Within(c, d)
    ensures MergeOption(Merge(a, b), Some(c)).Some? && Within(MergeOption(Merge(a, b), Some(c)).value, d)
  {
    UnionIsLeast(a, b, d);
    UnionIsLeast(Union(a, b), c, d);
  }

  lemma LeftMergeIsAbove(a: Tree, b: Tree, c: Tree)
    requires MergeOption(Merge(a, b), Some(c)).Some?
    ensures var d := MergeOption(Merge(a, b), Some(c)).value; Within(a, d) && Within(b, d) && Within(c, d)
  {
    var ab := Union(a, b);
    UnionIsAbove(a, b);
    UnionIsAbove(ab, c);
    WithinChains(a, ab, Union(ab, c));
    WithinChains(b, ab, Union(ab, c));
  }

  /** Merging is associative, failures included. */
  lemma MergeIsAssociative(a: Tree, b: Tree, c: Tree)
    ensures MergeOption(Merge(a, b), Some(c)) == MergeOption(Some(a), Merge(b, c))
  {
    var left, right := MergeOption(Merge(a, b), Some(c)), MergeOption(Merge(b, c), Some(a));
    if Merge(b, c).Some? {
      MergeIsCommutative(Merge(b, c).value, a);
    }
    assert right == MergeOption(Some(a), Merge(b, c));
    if left.Some? {
      LeftMergeIsAbove(a, b, c);
      LeftMergeBounds(b, c, a, left.value);
    }
    if right.Some? {
      LeftMergeIsAbove(b, c, a);
      LeftMergeBounds(a, b, c, right.value);
    }
    if left.Some? {
      WithinBothWays(left.value, right.value);
    }
  }

  // ---------- Paths ----------

  function Lookup(t: Tree, path: seq<Key>): Option<Tree>
    decreases |path|
  {
    if path == [] then Some(t)
    else if t.Leaf? || path[0] !in t.entries then None
    else Lookup(t.entries[path[0]], path[1..])
  }

  /** Both trees have a value at this path, and the values are neither equal nor both dictionaries. */
  ghost predicate ConflictAt(a: Tree, b: Tree, path: seq<Key>) {
    var x, y := Lookup(a, path), Lookup(b, path);
    x.Some? && y.Some? && x.value != y.value && !(x.value.Dict? && y.value.Dict?)
  }

  /** Two trees are compatible exactly when they agree on every shared path. */
  lemma {:induction false} CompatibleMeansAgreement(a: Tree, b: Tree)
    ensures Compatible(a, b) <==> forall path :: !ConflictAt(a, b, path)
  {
    if a.Dict? && b.Dict? {
      if Compatible(a, b) {
        forall path ensures !ConflictAt(a, b, path) {
          if path != [] && path[0] in a.entries && path[0] in b.entries {
            CompatibleMeansAgreement(a.entries[path[0]], b.entries[path[0]]);
            assert !ConflictAt(a.entries[path[0]], b.entries[path[0]], path[1..]);
          }
        }
      } else {
        var k :| k in a.entries && k in b.entries && !Compatible(a.entries[k], b.entries[k]);
        CompatibleMeansAgreement(a.entries[k], b.entries[k]);
        var path :| ConflictAt(a.entries[k], b.entries[k], path);
        ConflictBelow(a, b, k, path);
      }
    } else if Compatible(a, b) {
      forall path ensures !ConflictAt(a, b, path) {}
    } else {
      assert ConflictAt(a, b, []);
    }
  }

  lemma ConflictBelow(a: Tree, b: Tree, k: Key, path: seq<Key>)
    requires a.Dict? && b.Dict? && k in a.entries && k in b.entries && ConflictAt(a.entries[k], b.entries[k], path)
    ensures ConflictAt(a, b, [k] + path)
  {
    assert ([k] + path)[1..] == path;
  }

  /** `deep_merge_dict`: the union, or the path of a conflict below `path`. Keys of `dictb` come in any order. */
  method DeepMergeDict(dicta: Tree, dictb: Tree, path: seq<Key>) returns (r: Result<Tree, seq<Key>>)
    requires dicta.Dict? && dictb.Dict?
    ensures r.Ok? ==> Merge(dicta, dictb) == Some(r.value)
    ensures r.Err? ==> Merge(dicta, dictb) == None && path <= r.error && ConflictAt(dicta, dictb, r.error[|path|..])
    decreases dictb
  {
    var merged := dicta.entries;
    var keys := dictb.entries.Keys;
    while keys != {}
      invariant keys <= dictb.entries.Keys
      invariant merged.Keys == dicta.entries.Keys + (dictb.entries.Keys - keys)
      invariant forall k :: k in dicta.entries && (k in keys || k !in dictb.entries) ==> merged[k] == dicta.entries[k]
      invariant forall k :: k in dictb.entries && k !in keys && k !in dicta.entries ==> merged[k] == dictb.entries[k]
      invariant forall k :: k in dictb.entries && k !in keys && k in dicta.entries ==>
                  Merge(dicta.entries[k], dictb.entries[k]) == Some(merged[k])
      decreases keys
    {
      var key :| key in keys;
      keys := keys - {key};
      if key in merged {
        if merged[key].Dict? && dictb.entries[key].Dict? {
          var below := DeepMergeDict(merged[key], dictb.entries[key], path + [key]);
          if below.Err? {
            var suffix := below.error[|path| + 1..];
            assert below.error[|path|..] == [key] + suffix;
            ConflictBelow(dicta, dictb, key, suffix);
            return Err(below.error);
          }
          merged := merged[key := below.value];
        } else if merged[key] == dictb.entries[key] {
        } else {
          assert Lookup(dicta, [key]) == Some(dicta.entries[key]) && Lookup(dictb, [key]) == Some(dictb.entries[key]) by {
            assert [key][1..] == [];
          }
          assert (path + [key])[|path|..] == [key];
          assert !Compatible(dicta.entries[key], dictb.entries[key]);
          return Err(path + [key]);
        }
      } else {
        merged := merged[key := dictb.entries[key]];
      }
    }
    assert Compatible(dicta, dictb);
    assert merged == Union(dicta, dictb).entries;
    r := Ok(Dict(merged));
  }
}
