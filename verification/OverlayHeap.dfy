/**
 apply_overlay as it runs (aws_client_codegen/api_spec/overlay.py): the document is changed in
 place, action by action, and never comes to share an object with the overlay.
 */
module OverlayHeap {
  import opened Prelude
  import opened MergeHeap
  import opened OverlayTargets
  import opened OverlayMerge
  import O = Overlay
  import J = Json

  // ---- one key at a time ----

  lemma {:induction false} UpdateStep(fields: map<string, J.Json>, keys: J.Path, update: J.Json)
    requires keys != []
    ensures O.ApplyUpdate(J.Obj(fields), keys, update) ==
            if keys[0] !in fields then Err(O.MissingNode)
            else
              match O.ApplyUpdate(fields[keys[0]], keys[1..], update)
              case Err(e) => Err(e)
              case Ok(d) => Ok(J.Obj(fields[keys[0] := d]))
  {}

  lemma {:induction false} RemovalStep(fields: map<string, J.Json>, keys: J.Path)
    requires |keys| > 1
    ensures O.ApplyRemoval(J.Obj(fields), keys) ==
            if keys[0] !in fields then Err(O.MissingNode)
            else
              match O.ApplyRemoval(fields[keys[0]], keys[1..])
              case Err(e) => Err(e)
              case Ok(d) => Ok(J.Obj(fields[keys[0] := d]))
  {
    var above := keys[..|keys| - 1];
    assert above[1..] == keys[1..][..|keys| - 2] && above[0] == keys[0];
    assert keys[1..][|keys| - 2] == keys[|keys| - 1];
  }

  lemma RemovalLast(fields: map<string, J.Json>, keys: J.Path)
    requires |keys| == 1
    ensures O.ApplyRemoval(J.Obj(fields), keys) ==
            if keys[0] in fields then Ok(J.Obj(fields - {keys[0]})) else Err(O.MissingRemoval)
  {
    assert keys[..0] == [];
  }

  lemma NotMapping(j: J.Json, keys: J.Path, update: J.Json)
    requires !j.Obj?
    ensures O.ApplyUpdate(j, keys, update) == if keys == [] then Err(O.UpdateNeedsMappings) else Err(O.MissingNode)
    ensures |keys| == 1 ==> O.ApplyRemoval(j, keys) == Err(O.MissingRemoval)
    ensures |keys| > 1 ==> O.ApplyRemoval(j, keys) == Err(O.MissingNode)
  {
    if |keys| > 0 {
      assert keys[..|keys| - 1] == [] <==> |keys| == 1;
    }
  }

  predicate IsMapping(v: Value)
    reads if v.Ref? then {v.node} else {}
  {
    v.Ref? && v.node.content.Mapping?
  }

  /** A changed child in its place among the others. */
  lemma Replanted(node: Node, children: map<string, Shape>, k: string, s: Shape)
    requires node.content.Mapping? && k in node.content.entries
    requires Forest(children) && MatchAll(children, node.content.entries - {k}) && node !in Under(children)
    requires Tree(s) && Matches(s, node.content.entries[k]) && Nodes(s) !! Under(children) && node !in Nodes(s)
    ensures var after := Branch(node, children[k := s]);
            && Matches(after, Ref(node)) && Tree(after) && Nodes(after) == {node} + Under(children) + Nodes(s)
            && Abs(after, Ref(node)) ==
               J.Obj(AbsAll(children, node.content.entries - {k})[k := Abs(s, node.content.entries[k])])
  {
    hide Nodes, Tree, Matches, Abs, Under, Forest, AbsAll;
    var entries := node.content.entries;
    OneMore(children, entries - {k}, k, s, entries[k]);
    assert (entries - {k})[k := entries[k]] == entries;
    BranchMeans(node, children[k := s]);
  }

  /** get_node and deep_merge for one update action, from the value v on. */
  method UpdateAt(v: Value, keys: J.Path, u: Value, ghost s: Shape, ghost us: Shape)
      returns (error: Option<O.OverlayError>, ghost after: Shape, ghost made: set<Node>)
    requires Matches(s, v) && Tree(s) && Matches(us, u) && Tree(us) && Nodes(s) !! Nodes(us)
    modifies Nodes(s)
    ensures Matches(after, v) && Tree(after)
    ensures Nodes(after) <= Nodes(s) + made && fresh(made)
    ensures O.Follows(O.ApplyUpdate(old(Abs(s, v)), keys, old(Abs(us, u))), old(Abs(s, v)), Abs(after, v), error)
    decreases |keys|
  {
    hide Nodes, Tree, Matches, Abs, Under, Forest, MatchAll, AbsAll, O.ApplyUpdate;
    after, made := s, {};
    Kind(s, v);
    Kind(us, u);
    if !IsMapping(v) {
      NotMapping(Abs(s, v), keys, Abs(us, u));
      return if keys == [] then Some(O.UpdateNeedsMappings) else Some(O.MissingNode), after, made;
    }
    if keys == [] {
      UpdateHere(Abs(s, v), Abs(us, u));
      if !IsMapping(u) {
        return Some(O.UpdateNeedsMappings), after, made;
      }
      after, made := MergeInto(v.node, u.node, s, us);
      return None, after, made;
    }
    error, after, made := UpdateBelow(v.node, keys, u, s, us);
  }

  lemma UpdateHere(j: J.Json, u: J.Json)
    requires j.Obj?
    ensures O.ApplyUpdate(j, [], u) == if u.Obj? then Ok(Merge(j, u)) else Err(O.UpdateNeedsMappings)
  {}

  /** What a step below one key means for the whole. */
  lemma UpdateFollows(fields: map<string, J.Json>, keys: J.Path, u: J.Json, d: J.Json, error: Option<O.OverlayError>)
    requires keys != [] && keys[0] in fields
    requires O.Follows(O.ApplyUpdate(fields[keys[0]], keys[1..], u), fields[keys[0]], d, error)
    ensures O.Follows(O.ApplyUpdate(J.Obj(fields), keys, u), J.Obj(fields), J.Obj((fields - {keys[0]})[keys[0] := d]), error)
  {
    hide O.ApplyUpdate;
    UpdateStep(fields, keys, u);
    assert (fields - {keys[0]})[keys[0] := d] == fields[keys[0] := d];
    assert fields[keys[0] := fields[keys[0]]] == fields;
  }

  method UpdateBelow(node: Node, keys: J.Path, u: Value, ghost s: Shape, ghost us: Shape)
      returns (error: Option<O.OverlayError>, ghost after: Shape, ghost made: set<Node>)
    requires keys != [] && s.Branch? && Matches(s, Ref(node)) && Tree(s)
    requires Matches(us, u) && Tree(us) && Nodes(s) !! Nodes(us)
    modifies Nodes(s)
    ensures Matches(after, Ref(node)) && Tree(after)
    ensures Nodes(after) <= Nodes(s) + made && fresh(made)
    ensures O.Follows(O.ApplyUpdate(old(Abs(s, Ref(node))), keys, old(Abs(us, u))), old(Abs(s, Ref(node))), Abs(after, Ref(node)), error)
    decreases |keys|, 0
  {
    hide Nodes, Tree, Matches, Abs, Under, Forest, MatchAll, AbsAll, O.ApplyUpdate, O.Follows;
    Opened(node, s);
    var entries, k := node.content.entries, keys[0];
    SameKeys(s.children, entries);
    if k !in entries {
      KeyMissing(AbsAll(s.children, entries), keys, Abs(us, u));
      return Some(O.MissingNode), s, {};
    }
    Child(s.children, entries, k);
    Apart(s.children, entries, k);
    ghost var others := s.children - {k};
    assert allocated(Under(others));
    ghost var fields, below := AbsAll(s.children, entries), s;
    ghost var update := Abs(us, u);
    error, below, made := UpdateAt(entries[k], keys[1..], u, s.children[k], us);
    Replanted(node, others, k, below);
    UpdateFollows(fields, keys, update, Abs(below, entries[k]), error);
    after := Branch(node, others[k := below]);
  }

  lemma KeyMissing(fields: map<string, J.Json>, keys: J.Path, u: J.Json)
    requires keys != [] && keys[0] !in fields
    ensures O.Follows(O.ApplyUpdate(J.Obj(fields), keys, u), J.Obj(fields), J.Obj(fields), Some(O.MissingNode))
  {}

  // ---- removals ----

  lemma RemovalFollows(fields: map<string, J.Json>, keys: J.Path, d: J.Json, error: Option<O.OverlayError>)
    requires |keys| > 1 && keys[0] in fields
    requires O.Follows(O.ApplyRemoval(fields[keys[0]], keys[1..]), fields[keys[0]], d, error)
    ensures O.Follows(O.ApplyRemoval(J.Obj(fields), keys), J.Obj(fields), J.Obj((fields - {keys[0]})[keys[0] := d]), error)
  {
    hide O.ApplyRemoval;
    RemovalStep(fields, keys);
    assert (fields - {keys[0]})[keys[0] := d] == fields[keys[0] := d];
    assert fields[keys[0] := fields[keys[0]]] == fields;
  }

  /** get_node and del for one removal, from the value v on. */
  method RemoveAt(v: Value, keys: J.Path, ghost s: Shape) returns (error: Option<O.OverlayError>, ghost after: Shape)
    requires Matches(s, v) && Tree(s)
    modifies Nodes(s)
    ensures Matches(after, v) && Tree(after) && Nodes(after) <= Nodes(s)
    ensures O.Follows(O.ApplyRemoval(old(Abs(s, v)), keys), old(Abs(s, v)), Abs(after, v), error)
    decreases |keys|
  {
    hide Nodes, Tree, Matches, Abs, Under, Forest, MatchAll, AbsAll, O.ApplyRemoval;
    Kind(s, v);
    if keys == [] {
      RemovesRoot(Abs(s, v));
      return Some(O.RemovesRoot), s;
    }
    if !IsMapping(v) {
      NotMapping(Abs(s, v), keys, Abs(s, v));
      return if |keys| == 1 then Some(O.MissingRemoval) else Some(O.MissingNode), s;
    }
    if |keys| == 1 {
      error, after := RemoveHere(v.node, keys, s);
    } else {
      error, after := RemoveBelow(v.node, keys, s);
    }
  }

  lemma RemovesRoot(j: J.Json)
    ensures O.ApplyRemoval(j, []) == Err(O.RemovesRoot)
  {}

  method RemoveHere(node: Node, keys: J.Path, ghost s: Shape) returns (error: Option<O.OverlayError>, ghost after: Shape)
    requires |keys| == 1 && s.Branch? && Matches(s, Ref(node)) && Tree(s)
    modifies Nodes(s)
    ensures Matches(after, Ref(node)) && Tree(after) && Nodes(after) <= Nodes(s)
    ensures O.Follows(O.ApplyRemoval(old(Abs(s, Ref(node))), keys), old(Abs(s, Ref(node))), Abs(after, Ref(node)), error)
  {
    hide Nodes, Tree, Matches, Abs, Under, Forest, MatchAll, AbsAll, O.ApplyRemoval;
    Opened(node, s);
    var entries, k := node.content.entries, keys[0];
    SameKeys(s.children, entries);
    RemovalLast(AbsAll(s.children, entries), keys);
    if k !in entries {
      return Some(O.MissingRemoval), s;
    }
    Apart(s.children, entries, k);
    assert allocated(Under(s.children - {k}));
    node.content := Mapping(entries - {k});
    after := Branch(node, s.children - {k});
    Grown(node, s.children - {k});
    return None, after;
  }

  method RemoveBelow(node: Node, keys: J.Path, ghost s: Shape) returns (error: Option<O.OverlayError>, ghost after: Shape)
    requires |keys| > 1 && s.Branch? && Matches(s, Ref(node)) && Tree(s)
    modifies Nodes(s)
    ensures Matches(after, Ref(node)) && Tree(after) && Nodes(after) <= Nodes(s)
    ensures O.Follows(O.ApplyRemoval(old(Abs(s, Ref(node))), keys), old(Abs(s, Ref(node))), Abs(after, Ref(node)), error)
    decreases |keys|, 0
  {
    hide Nodes, Tree, Matches, Abs, Under, Forest, MatchAll, AbsAll, O.ApplyRemoval, O.Follows;
    Opened(node, s);
    var entries, k := node.content.entries, keys[0];
    SameKeys(s.children, entries);
    if k !in entries {
      KeyMissingRemoval(AbsAll(s.children, entries), keys);
      return Some(O.MissingNode), s;
    }
    Child(s.children, entries, k);
    Apart(s.children, entries, k);
    ghost var others := s.children - {k};
    assert allocated(Under(others));
    ghost var fields, below := AbsAll(s.children, entries), s;
    error, below := RemoveAt(entries[k], keys[1..], s.children[k]);
    Replanted(node, others, k, below);
    RemovalFollows(fields, keys, Abs(below, entries[k]), error);
    after := Branch(node, others[k := below]);
  }

  lemma KeyMissingRemoval(fields: map<string, J.Json>, keys: J.Path)
    requires |keys| > 1 && keys[0] !in fields
    ensures O.Follows(O.ApplyRemoval(J.Obj(fields), keys), J.Obj(fields), J.Obj(fields), Some(O.MissingNode))
  {
    RemovalStep(fields, keys);
  }

  // ---- actions ----

  lemma Reads(s: Shape, v: Value)
    requires Matches(s, v)
    ensures Abs(s, v).Str? <==> v.Text?
    ensures v.Text? ==> Abs(s, v) == J.Str(v.text)
    ensures Abs(s, v) == J.TRUE <==> v == Scalar("true")
    ensures Abs(s, v).Arr? <==> v.Ref? && v.node.content.Listing?
    ensures Abs(s, v).Arr? ==> s.Row?
  {}

  /** What the entries of an action say. */
  ghost predicate ActionReads(fields: map<string, J.Json>, entries: map<string, Value>) {
    && fields.Keys == entries.Keys
    && ("target" in entries ==> (fields["target"].Str? <==> entries["target"].Text?)
                                && (entries["target"].Text? ==> fields["target"].text == entries["target"].text))
    && ("remove" in entries ==> (fields["remove"] == J.TRUE <==> entries["remove"] == Scalar("true")))
  }

  lemma ActionMeans(children: map<string, Shape>, entries: map<string, Value>)
    requires Forest(children) && MatchAll(children, entries)
    ensures ActionReads(AbsAll(children, entries), entries)
  {
    hide Nodes, Tree, Matches, Abs, Under, Forest, MatchAll, AbsAll;
    SameKeys(children, entries);
    if "target" in entries {
      Child(children, entries, "target");
      Reads(children["target"], entries["target"]);
    }
    if "remove" in entries {
      Child(children, entries, "remove");
      Reads(children["remove"], entries["remove"]);
    }
  }

  /** One action of the loop of apply_overlay. */
  method Act(root: Value, action: Value, ghost rs: Shape, ghost acts: Shape)
      returns (error: Option<O.OverlayError>, ghost after: Shape, ghost made: set<Node>)
    requires Matches(rs, root) && Tree(rs) && Matches(acts, action) && Tree(acts) && Nodes(rs) !! Nodes(acts)
    modifies Nodes(rs)
    ensures Matches(after, root) && Tree(after) && Nodes(after) <= Nodes(rs) + made && fresh(made)
    ensures O.Follows(O.ApplyAction(old(Abs(rs, root)), old(Abs(acts, action))), old(Abs(rs, root)), Abs(after, root), error)
  {
    hide Nodes, Tree, Matches, Abs, Under, Forest, MatchAll, AbsAll, O.ApplyUpdate, O.ApplyRemoval;
    after, made := rs, {};
    Kind(acts, action);
    if !IsMapping(action) {
      return Some(O.ActionNotMapping), after, made;
    }
    var entries := action.node.content.entries;
    Opened(action.node, acts);
    ActionMeans(acts.children, entries);
    if "target" !in entries || !entries["target"].Text? {
      return Some(O.NoTarget), after, made;
    }
    assert allocated(Nodes(rs)) && allocated(Nodes(acts)) && allocated(Under(acts.children));
    var keys := ParseTarget(entries["target"].text);
    if keys.Err? {
      return Some(O.BadTarget(keys.error)), after, made;
    }
    if "update" in entries {
      Child(acts.children, entries, "update");
      error, after, made := UpdateAt(root, keys.value, entries["update"], rs, acts.children["update"]);
    } else if "remove" in entries && entries["remove"] == Scalar("true") {
      error, after := RemoveAt(root, keys.value, rs);
    } else {
      return Some(O.NeitherUpdateNorRemove), after, made;
    }
  }

  /** The loop of apply_overlay: the document ends as far as the actions went; it has taken
      over none of the overlay's objects, and the overlay is as it was. */
  method ApplyActions(root: Value, actions: seq<Value>, ghost rs: Shape, ghost items: seq<Shape>, ghost documents: seq<J.Json>)
      returns (done: nat, error: Option<O.OverlayError>, ghost after: Shape, ghost made: set<Node>)
    requires Matches(rs, root) && Tree(rs)
    requires Orchard(items) && MatchEach(items, actions) && StandFor(items, actions, documents)
    requires Nodes(rs) !! Across(items)
    modifies Nodes(rs)
    ensures Matches(after, root) && Tree(after) && Nodes(after) <= Nodes(rs) + made && fresh(made)
    ensures O.Outcome(Abs(after, root), done, error) == O.Apply(old(Abs(rs, root)), documents)
    ensures MatchEach(items, actions) && StandFor(items, actions, documents)
  {
    hide Nodes, Tree, Matches, Abs, Across, Orchard, MatchEach, StandFor, O.ApplyAction;
    after, done, made := rs, 0, {};
    ghost var whole := O.Apply(Abs(rs, root), documents);
    SameLengths(items, actions, documents);
    assert documents[0..] == documents;
    while done < |actions|
      invariant done <= |actions|
      invariant MatchEach(items, actions) && StandFor(items, actions, documents)
      invariant Matches(after, root) && Tree(after) && Nodes(after) <= Nodes(rs) + made && fresh(made)
      invariant Nodes(after) !! Across(items)
      invariant O.Resuming(whole, done, O.Apply(Abs(after, root), documents[done..]))
    {
      RowAt(items, actions, documents, done);
      assert documents[done..][1..] == documents[done + 1..];
      assert allocated(Across(items));
      ghost var more;
      error, after, more := Act(root, actions[done], after, items[done]);
      made := made + more;
      if error.Some? {
        return;
      }
      done := done + 1;
    }
    return done, None, after, made;
  }

  /** apply_overlay on a document and an overlay that share no object. */
  method ApplyOverlay(root: Value, overlay: Node, ghost rs: Shape, ghost os: Shape)
      returns (done: nat, error: Option<O.OverlayError>, ghost after: Shape)
    requires Matches(rs, root) && Tree(rs)
    requires os.Branch? && Matches(os, Ref(overlay)) && Tree(os) && Nodes(rs) !! Nodes(os)
    modifies Nodes(rs)
    ensures Matches(after, root) && Tree(after) && Nodes(after) !! Nodes(os)
    ensures Matches(os, Ref(overlay)) && Abs(os, Ref(overlay)) == old(Abs(os, Ref(overlay)))
    ensures O.Outcome(Abs(after, root), done, error) == O.Overlaid(old(Abs(rs, root)), old(Abs(os, Ref(overlay))).fields)
  {
    hide Nodes, Tree, Matches, Abs, Under, Forest, MatchAll, AbsAll, Across, Orchard, MatchEach, StandFor, O.Apply;
    Opened(overlay, os);
    var entries := overlay.content.entries;
    SameKeys(os.children, entries);
    after := rs;
    if "overlay" in entries {
      Child(os.children, entries, "overlay");
      Reads(os.children["overlay"], entries["overlay"]);
    }
    if "overlay" !in entries || entries["overlay"] != Text("1.0.0") {
      return 0, Some(O.WrongVersion), after;
    }
    if "actions" in entries {
      Child(os.children, entries, "actions");
      Reads(os.children["actions"], entries["actions"]);
    }
    if "actions" !in entries || !entries["actions"].Ref? || !entries["actions"].node.content.Listing? {
      return 0, Some(O.NoActions), after;
    }
    var node := entries["actions"].node;
    ghost var row := os.children["actions"];
    RowOf(row, node);
    assert allocated(Nodes(os));
    ghost var made;
    done, error, after, made := ApplyActions(root, node.content.elements, rs, row.items, Abs(row, Ref(node)).items);
  }

  lemma RowOf(s: Shape, node: Node)
    requires s.Row? && Matches(s, Ref(node)) && Tree(s)
    ensures s.node == node && node.content.Listing? && Orchard(s.items) && MatchEach(s.items, node.content.elements)
    ensures Abs(s, Ref(node)).Arr? && StandFor(s.items, node.content.elements, Abs(s, Ref(node)).items)
    ensures Across(s.items) <= Nodes(s)
  {
    RowMeans(node, s.items);
  }
}
