/**
 The meaning of deep_merge on documents as values (aws_client_codegen/api_spec/overlay.py):
 a recursive, right-biased union of mappings.
 */
module OverlayMerge {
  import opened Prelude
  import opened Json

  /** The target mapping after merging the update mapping into it. */
  function Merge(t: Json, u: Json): (r: Json)
    requires t.Obj? && u.Obj?
    ensures r.Obj? && r.fields.Keys == t.fields.Keys + u.fields.Keys
    decreases u
  {
    Obj(map k | k in t.fields.Keys + u.fields.Keys ::
          if k !in u.fields then t.fields[k]
          else if k in t.fields && t.fields[k].Obj? && u.fields[k].Obj? then Merge(t.fields[k], u.fields[k])
          else u.fields[k])
  }

  /** What merging leaves at one key: the update's value, or a merge of two mappings. */
  function MergeAt(old_: Option<Json>, new_: Option<Json>): Option<Json> {
    match new_
    case None => old_
    case Some(v) =>
      if old_.Some? && old_.value.Obj? && v.Obj? then Some(Merge(old_.value, v)) else new_
  }

  /** The update has a value that is not a mapping at a non-empty proper prefix of path. */
  ghost predicate Cuts(u: Json, path: Path) {
    exists n :: 0 < n < |path| && At(u, path[..n]).Some? && !At(u, path[..n]).value.Obj?
  }

  lemma CutsTail(u: Json, path: Path)
    requires path != [] && u.Obj? && path[0] in u.fields
    ensures Cuts(u, path) <==> (|path| > 1 && (!u.fields[path[0]].Obj? || Cuts(u.fields[path[0]], path[1..])))
  {
    var v, tail := u.fields[path[0]], path[1..];
    forall n | 0 < n <= |path|
      ensures At(u, path[..n]) == At(v, tail[..n - 1])
    {
      assert path[..n][1..] == tail[..n - 1];
    }
    if Cuts(u, path) && v.Obj? {
      var n :| 0 < n < |path| && At(u, path[..n]).Some? && !At(u, path[..n]).value.Obj?;
      assert n > 1;
      assert At(v, tail[..n - 1]).Some?;
    }
    if |path| > 1 && !v.Obj? {
      assert At(u, path[..1]).Some?;
    }
    if |path| > 1 && v.Obj? && Cuts(v, tail) {
      var m :| 0 < m < |tail| && At(v, tail[..m]).Some? && !At(v, tail[..m]).value.Obj?;
      assert At(u, path[..m + 1]).Some?;
    }
  }

  lemma CutsNothing(u: Json, path: Path)
    requires path != [] && u.Obj? && path[0] !in u.fields
    ensures !Cuts(u, path) && At(u, path) == None
  {
    forall n | 0 < n < |path|
      ensures At(u, path[..n]) == None
    {
      assert path[..n][0] == path[0];
    }
  }

  /** Everything about a merge, key path by key path: below a cut the update decides alone;
      elsewhere the two documents' nodes are merged, the update's winning unless both are
      mappings. */
  lemma {:induction false} MergePaths(t: Json, u: Json, path: Path)
    requires t.Obj? && u.Obj?
    ensures At(Merge(t, u), path) == if Cuts(u, path) then None else MergeAt(At(t, path), At(u, path))
    decreases |path|
  {
    if path != [] {
      var k, tail := path[0], path[1..];
      if k !in u.fields {
        CutsNothing(u, path);
      } else {
        CutsTail(u, path);
        var v := u.fields[k];
        if k in t.fields && t.fields[k].Obj? && v.Obj? {
          MergePaths(t.fields[k], v, tail);
          if tail == [] {
            assert !Cuts(v, tail);
          }
        } else {
          NoMeeting(t, u, path);
        }
      }
    }
  }

  /** When the two documents do not both have a mapping at the first key, the update's value
      is taken over as it is. */
  lemma NoMeeting(t: Json, u: Json, path: Path)
    requires t.Obj? && u.Obj? && path != [] && path[0] in u.fields
    requires !(path[0] in t.fields && t.fields[path[0]].Obj? && u.fields[path[0]].Obj?)
    ensures At(Merge(t, u), path) == if Cuts(u, path) then None else MergeAt(At(t, path), At(u, path))
  {
    var k, tail := path[0], path[1..];
    var v := u.fields[k];
    CutsTail(u, path);
    assert At(Merge(t, u), path) == At(v, tail);
    if Cuts(u, path) {
      if v.Obj? {
        var n :| 0 < n < |tail| && At(v, tail[..n]).Some? && !At(v, tail[..n]).value.Obj?;
        if At(v, tail).Some? {
          AtPrefix(v, tail, n);
          assert false;
        }
      }
    } else if At(v, tail).None? && tail != [] {
      assert v.Obj?;
      assert k !in t.fields || !t.fields[k].Obj?;
    }
  }

  /** A key path of the target is lost exactly when the update puts something that is not a
      mapping on the way to it. */
  lemma {:induction false} PathLost(t: Json, u: Json, path: Path)
    requires t.Obj? && u.Obj? && At(t, path).Some?
    ensures At(Merge(t, u), path) == None <==> Cuts(u, path)
  {
    MergePaths(t, u, path);
  }

  /** Every value of the update that is not a mapping is found at its path in the result,
      and every mapping of the update is still a mapping there. */
  lemma {:induction false} UpdateArrives(t: Json, u: Json, path: Path)
    requires t.Obj? && u.Obj? && At(u, path).Some?
    ensures At(Merge(t, u), path).Some?
    ensures if At(u, path).value.Obj? then At(Merge(t, u), path).value.Obj?
            else At(Merge(t, u), path) == At(u, path)
  {
    MergePaths(t, u, path);
    if Cuts(u, path) {
      var n :| 0 < n < |path| && At(u, path[..n]).Some? && !At(u, path[..n]).value.Obj?;
      AtPrefix(u, path, n);
      assert false;
    }
  }

  lemma {:induction false} MergeSelf(u: Json)
    requires u.Obj?
    ensures Merge(u, u) == u
    decreases u
  {
    forall k | k in u.fields
      ensures Merge(u, u).fields[k] == u.fields[k]
    {
      if u.fields[k].Obj? {
        MergeSelf(u.fields[k]);
      }
    }
    assert Merge(u, u).fields == u.fields;
  }

  /** Merging the same update twice changes nothing more. */
  lemma {:induction false} MergeIdempotent(t: Json, u: Json)
    requires t.Obj? && u.Obj?
    ensures Merge(Merge(t, u), u) == Merge(t, u)
    decreases u
  {
    var r := Merge(t, u);
    forall k | k in r.fields
      ensures Merge(r, u).fields[k] == r.fields[k]
    {
      if k in u.fields && u.fields[k].Obj? {
        if k in t.fields && t.fields[k].Obj? {
          MergeIdempotent(t.fields[k], u.fields[k]);
        } else {
          MergeSelf(u.fields[k]);
        }
      }
    }
    assert Merge(r, u).fields == r.fields;
  }

  /** Every key path of t that goes through mappings of both is already in v. */
  predicate Absorbs(t: Json, v: Json)
    requires t.Obj? && v.Obj?
    decreases v
  {
    forall k :: k in t.fields ==>
      k in v.fields && (t.fields[k].Obj? && v.fields[k].Obj? ==> Absorbs(t.fields[k], v.fields[k]))
  }

  /** A merge gives the update itself exactly when the update absorbs the target. */
  lemma {:induction false} MergeAbsorbed(t: Json, v: Json)
    requires t.Obj? && v.Obj?
    ensures Merge(t, v) == v <==> Absorbs(t, v)
    decreases v
  {
    var r := Merge(t, v);
    forall k | k in t.fields && k in v.fields && t.fields[k].Obj? && v.fields[k].Obj?
      ensures r.fields[k] == v.fields[k] <==> Absorbs(t.fields[k], v.fields[k])
    {
      MergeAbsorbed(t.fields[k], v.fields[k]);
    }
    if Absorbs(t, v) {
      assert r.fields == v.fields;
    }
    if r == v {
      assert forall k :: k in t.fields ==> k in r.fields;
    }
  }

  /** Wherever the target and the second update have mappings and the first update a value
      that is not one, the second update absorbs the target's mapping. */
  predicate Agree(t: Json, u: Json, v: Json)
    requires t.Obj? && u.Obj? && v.Obj?
    decreases v
  {
    forall k :: k in t.fields && k in u.fields && k in v.fields && t.fields[k].Obj? && v.fields[k].Obj? ==>
      if u.fields[k].Obj? then Agree(t.fields[k], u.fields[k], v.fields[k])
      else Absorbs(t.fields[k], v.fields[k])
  }

  /** Merging two updates one after the other is merging their merge exactly when they agree:
      otherwise the second update brings a mapping of the target back that the first one had
      replaced. */
  lemma {:induction false} MergeAssoc(t: Json, u: Json, v: Json)
    requires t.Obj? && u.Obj? && v.Obj?
    ensures Merge(Merge(t, u), v) == Merge(t, Merge(u, v)) <==> Agree(t, u, v)
    decreases v
  {
    var left, right := Merge(Merge(t, u), v), Merge(t, Merge(u, v));
    assert left.fields.Keys == right.fields.Keys;
    forall k | k in left.fields
      ensures left.fields[k] == right.fields[k] <==> AgreeAt(t, u, v, k)
    {
      AssocAt(t, u, v, k);
      if Meet(t, u, v, k) && u.fields[k].Obj? {
        MergeAssoc(t.fields[k], u.fields[k], v.fields[k]);
      }
    }
    if Agree(t, u, v) {
      assert left.fields == right.fields;
    }
  }

  ghost predicate Meet(t: Json, u: Json, v: Json, k: string)
    requires t.Obj? && u.Obj? && v.Obj?
  {
    k in t.fields && k in u.fields && k in v.fields && t.fields[k].Obj? && v.fields[k].Obj?
  }

  ghost predicate AgreeAt(t: Json, u: Json, v: Json, k: string)
    requires t.Obj? && u.Obj? && v.Obj?
  {
    Meet(t, u, v, k) ==>
      if u.fields[k].Obj? then Agree(t.fields[k], u.fields[k], v.fields[k])
      else Absorbs(t.fields[k], v.fields[k])
  }

  lemma AssocAt(t: Json, u: Json, v: Json, k: string)
    requires t.Obj? && u.Obj? && v.Obj? && k in t.fields.Keys + u.fields.Keys + v.fields.Keys
    ensures var left, right := Merge(Merge(t, u), v).fields[k], Merge(t, Merge(u, v)).fields[k];
            if !Meet(t, u, v, k) then left == right
            else if u.fields[k].Obj? then
              left == Merge(Merge(t.fields[k], u.fields[k]), v.fields[k])
              && right == Merge(t.fields[k], Merge(u.fields[k], v.fields[k]))
            else left == right <==> Absorbs(t.fields[k], v.fields[k])
  {
    if Meet(t, u, v, k) && !u.fields[k].Obj? {
      MergeAbsorbed(t.fields[k], v.fields[k]);
    }
  }

  /** An input for which the two differ: the target's key y comes back. */
  lemma MergesDiffer()
    ensures var t := Obj(map["x" := Obj(map["y" := Atom("1")])]);
            var u := Obj(map["x" := Atom("2")]);
            var v := Obj(map["x" := Obj(map[])]);
            && Merge(Merge(t, u), v) == v
            && Merge(t, Merge(u, v)) == t
            && t != v
  {
    var inner, none := Obj(map["y" := Atom("1")]), Obj(map[]);
    var t, u, v := Obj(map["x" := inner]), Obj(map["x" := Atom("2")]), Obj(map["x" := none]);
    assert Merge(t, u).fields == u.fields && Merge(u, v).fields == v.fields;
    assert Merge(inner, none).fields == inner.fields;
    assert Merge(t, v).fields["x"] == Merge(inner, none);
    assert Merge(t, v).fields == t.fields;
    assert "y" in inner.fields && "y" !in none.fields;
  }
}
