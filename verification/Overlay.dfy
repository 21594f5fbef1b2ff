/**
 Applying overlays to a document (apply_overlay and apply_additive_overlay in
 aws_client_codegen/api_spec/overlay.py), and what becomes of every key path.
 */
module Overlay {
  import opened Prelude
  import opened Json
  import opened OverlayMerge
  import opened OverlayTargets

  type Fields = map<string, Json>

  datatype OverlayError =
    | WrongVersion
    | NoActions
    | ActionNotMapping
    | NoTarget
    | BadTarget(reason: TargetError)
    | MissingNode
    | UpdateNeedsMappings
    | RemovesRoot
    | MissingRemoval
    | NeitherUpdateNorRemove

  /** The document as it stands when the overlay ends or stops; done actions were applied. */
  datatype Outcome = Outcome(document: Json, done: nat, error: Option<OverlayError>)

  predicate HasUpdate(action: Fields) {
    "update" in action
  }

  predicate Removes(action: Fields) {
    "remove" in action && action["remove"] == TRUE
  }

  function TargetOf(action: Fields): Result<Path, OverlayError> {
    if "target" !in action || !action["target"].Str? then Err(NoTarget)
    else
      match Target(action["target"].text)
      case Err(e) => Err(BadTarget(e))
      case Ok(keys) => Ok(keys)
  }

  /** The document after one action. */
  function ApplyAction(document: Json, action: Json): Result<Json, OverlayError> {
    if !action.Obj? then Err(ActionNotMapping)
    else
      match TargetOf(action.fields)
      case Err(e) => Err(e)
      case Ok(keys) =>
        if HasUpdate(action.fields) then ApplyUpdate(document, keys, action.fields["update"])
        else if Removes(action.fields) then ApplyRemoval(document, keys)
        else Err(NeitherUpdateNorRemove)
  }

  function ApplyUpdate(document: Json, keys: Path, update: Json): Result<Json, OverlayError> {
    match At(document, keys)
    case None => Err(MissingNode)
    case Some(node) =>
      if !node.Obj? || !update.Obj? then Err(UpdateNeedsMappings)
      else Ok(Put(document, keys, Merge(node, update)))
  }

  function ApplyRemoval(document: Json, keys: Path): Result<Json, OverlayError> {
    if keys == [] then Err(RemovesRoot)
    else
      var last := keys[|keys| - 1];
      match At(document, keys[..|keys| - 1])
      case None => Err(MissingNode)
      case Some(parent) =>
        if !parent.Obj? || last !in parent.fields then Err(MissingRemoval)
        else Ok(Put(document, keys[..|keys| - 1], Obj(parent.fields - {last})))
  }

  function Apply(document: Json, actions: seq<Json>): Outcome
    decreases |actions|
  {
    if actions == [] then Outcome(document, 0, None)
    else
      match ApplyAction(document, actions[0])
      case Err(e) => Outcome(document, 0, Some(e))
      case Ok(next) =>
        var rest := Apply(next, actions[1..]);
        rest.(done := rest.done + 1)
  }

  function Overlaid(document: Json, overlay: Fields): Outcome {
    if "overlay" !in overlay || overlay["overlay"] != Str("1.0.0") then Outcome(document, 0, Some(WrongVersion))
    else if "actions" !in overlay || !overlay["actions"].Arr? then Outcome(document, 0, Some(NoActions))
    else Apply(document, overlay["actions"].items)
  }

  // ---- additive overlays ----

  predicate IsMerging(action: Json) {
    action.Obj? && HasUpdate(action.fields) && action.fields["update"].Obj?
  }

  predicate IsRemoval(action: Json) {
    action.Obj? && !IsMerging(action) && Removes(action.fields)
  }

  /** The actions that are not removals. */
  function WithoutRemovals(actions: seq<Json>): seq<Json> {
    if actions == [] then []
    else (if IsRemoval(actions[0]) then [] else [actions[0]]) + WithoutRemovals(actions[1..])
  }

  /** The first action that an additive overlay refuses. */
  function Refused(actions: seq<Json>): Option<OverlayError> {
    if actions == [] then None
    else if !actions[0].Obj? then Some(ActionNotMapping)
    else if !IsMerging(actions[0]) && !IsRemoval(actions[0]) then Some(NeitherUpdateNorRemove)
    else Refused(actions[1..])
  }

  // ---- key paths ----

  /** What one applied action says about a key path: Some(true) that it is there afterwards,
      Some(false) that it is not, None that nothing changes. */
  ghost function Verdict(action: Json, path: Path): Option<bool>
    requires action.Obj? && TargetOf(action.fields).Ok?
  {
    var keys := TargetOf(action.fields).value;
    if !(keys <= path) then None
    else if HasUpdate(action.fields) then
      var rest := path[|keys|..];
      if Cuts(action.fields["update"], rest) then Some(false)
      else if At(action.fields["update"], rest).Some? then Some(true)
      else None
    else Some(false)
  }

  lemma UpdatePaths(document: Json, keys: Path, update: Json, path: Path)
    requires ApplyUpdate(document, keys, update).Ok?
    ensures var after := At(ApplyUpdate(document, keys, update).value, path).Some?;
            if !(keys <= path) then after <==> At(document, path).Some?
            else after <==> !Cuts(update, path[|keys|..])
                            && (At(update, path[|keys|..]).Some? || At(document, path).Some?)
  {
    var node := At(document, keys).value;
    AtPut(document, keys, Merge(node, update), path);
    if keys <= path {
      var rest := path[|keys|..];
      MergePaths(node, update, rest);
      assert path == keys + rest;
      AtSplit(document, keys, rest);
    }
  }

  lemma RemovalPaths(document: Json, keys: Path, path: Path)
    requires ApplyRemoval(document, keys).Ok?
    ensures At(ApplyRemoval(document, keys).value, path).Some? <==> !(keys <= path) && At(document, path).Some?
  {
    var n := |keys| - 1;
    var above, last := keys[..n], keys[n];
    var parent := At(document, above).value;
    AtPut(document, above, Obj(parent.fields - {last}), path);
    assert keys == above + [last];
    if above <= path {
      var rest := path[n..];
      assert path == above + rest;
      AtSplit(document, above, rest);
      if keys <= path {
        assert rest[0] == path[n] == keys[n];
      } else if rest != [] {
        assert path[..n + 1] == above + [rest[0]];
        assert rest[0] != last;
      }
    }
  }

  /** After one action a key path resolves as the action's verdict says. */
  lemma ActionPaths(document: Json, action: Json, path: Path)
    requires ApplyAction(document, action).Ok?
    ensures var verdict := Verdict(action, path);
            At(ApplyAction(document, action).value, path).Some?
            <==> if verdict.Some? then verdict.value else At(document, path).Some?
  {
    var keys := TargetOf(action.fields).value;
    if HasUpdate(action.fields) {
      var update := action.fields["update"];
      UpdatePaths(document, keys, update, path);
      if keys <= path && Cuts(update, path[|keys|..]) {
        assert Verdict(action, path) == Some(false);
      }
    } else {
      RemovalPaths(document, keys, path);
    }
  }

  ghost predicate WellTargeted(actions: seq<Json>) {
    forall i :: 0 <= i < |actions| ==> actions[i].Obj? && TargetOf(actions[i].fields).Ok?
  }

  /** The last action that says something about the path. */
  ghost function LastWord(actions: seq<Json>, path: Path): Option<bool>
    requires WellTargeted(actions)
  {
    if actions == [] then None
    else
      var n := |actions| - 1;
      var verdict := Verdict(actions[n], path);
      if verdict.Some? then verdict else LastWord(actions[..n], path)
  }

  lemma {:induction false} AppliedTargets(document: Json, actions: seq<Json>)
    requires Apply(document, actions).error.None?
    ensures Apply(document, actions).done == |actions|
    ensures WellTargeted(actions)
    decreases |actions|
  {
    if actions != [] {
      AppliedTargets(ApplyAction(document, actions[0]).value, actions[1..]);
    }
  }

  lemma {:induction false} ApplySplit(document: Json, first: seq<Json>, second: seq<Json>)
    ensures var before := Apply(document, first);
            Apply(document, first + second) ==
            if before.error.Some? then before
            else var rest := Apply(before.document, second); rest.(done := before.done + rest.done)
    decreases |first|
  {
    if first == [] {
      assert first + second == second;
    } else {
      assert (first + second)[1..] == first[1..] + second;
      var next := ApplyAction(document, first[0]);
      if next.Ok? {
        ApplySplit(next.value, first[1..], second);
      }
    }
  }

  /** Over a whole overlay, a key path resolves as the last action that concerns it says, and
      as before when none does. */
  lemma {:induction false} OverlayPaths(document: Json, actions: seq<Json>, path: Path)
    requires Apply(document, actions).error.None?
    ensures WellTargeted(actions)
    ensures var word := LastWord(actions, path);
            At(Apply(document, actions).document, path).Some?
            <==> if word.Some? then word.value else At(document, path).Some?
    decreases |actions|
  {
    hide Apply, At, ApplyAction, TargetOf, Verdict;
    AppliedTargets(document, actions);
    if actions == [] {
      ApplyNone(document);
    } else {
      var n := |actions| - 1;
      var before := Apply(document, actions[..n]);
      assert actions == actions[..n] + [actions[n]];
      ApplySplit(document, actions[..n], [actions[n]]);
      OverlayPaths(document, actions[..n], path);
      ApplyOne(before.document, actions[n]);
      ActionPaths(before.document, actions[n], path);
    }
  }

  lemma ApplyNone(document: Json)
    ensures Apply(document, []) == Outcome(document, 0, None)
  {}

  lemma {:induction false} ApplyOne(document: Json, action: Json)
    ensures Apply(document, [action]) ==
            match ApplyAction(document, action)
            case Err(e) => Outcome(document, 0, Some(e))
            case Ok(next) => Outcome(next, 1, None)
  {
    assert [action][1..] == [];
  }

  /** Why an update or a removal is refused, in terms of what its keys lead to. */
  lemma ActionErrors(document: Json, keys: Path, update: Json)
    ensures ApplyUpdate(document, keys, update) == Err(MissingNode) <==> At(document, keys) == None
    ensures ApplyUpdate(document, keys, update) == Err(UpdateNeedsMappings) <==>
            At(document, keys).Some? && !(At(document, keys).value.Obj? && update.Obj?)
    ensures ApplyRemoval(document, keys) == Err(RemovesRoot) <==> |keys| == 0
    ensures |keys| > 0 ==>
              var above := At(document, keys[..|keys| - 1]);
              && (ApplyRemoval(document, keys) == Err(MissingNode) <==> above == None)
              && (ApplyRemoval(document, keys) == Err(MissingRemoval) <==> above.Some? && At(document, keys) == None)
              && (ApplyRemoval(document, keys).Ok? <==> At(document, keys).Some?)
  {
    if |keys| > 0 {
      var n := |keys| - 1;
      assert keys == keys[..n] + [keys[n]];
      AtSplit(document, keys[..n], [keys[n]]);
    }
  }

  /** An action with a good target is refused as neither exactly when it has no update and its
      remove is not true; an overlay is refused exactly by its version and its actions. */
  lemma Refusals(document: Json, action: Fields, overlay: Fields)
    ensures TargetOf(action).Ok? ==>
              (ApplyAction(document, Obj(action)) == Err(NeitherUpdateNorRemove) <==>
               "update" !in action && ("remove" !in action || action["remove"] != Atom("true")))
    ensures Overlaid(document, overlay).error == Some(WrongVersion) <==>
            "overlay" !in overlay || overlay["overlay"] != Str("1.0.0")
  {
    hide Apply;
    if "actions" in overlay && overlay["actions"].Arr? {
      NeverVersion(document, overlay["actions"].items);
    }
  }

  lemma {:induction false} NeverVersion(document: Json, actions: seq<Json>)
    ensures Apply(document, actions).error != Some(WrongVersion)
    decreases |actions|
  {
    if actions != [] && ApplyAction(document, actions[0]).Ok? {
      NeverVersion(ApplyAction(document, actions[0]).value, actions[1..]);
    }
  }

  // ---- the additive reading ----

  /** apply_additive_overlay: refuses what is neither an update with a mapping nor a removal,
      drops the removals and applies the rest. */
  function OverlaidAdditively(document: Json, overlay: Fields): Outcome {
    if "actions" !in overlay || !overlay["actions"].Arr? then Outcome(document, 0, Some(NoActions))
    else
      var actions := overlay["actions"].items;
      if Refused(actions).Some? then Outcome(document, 0, Refused(actions))
      else Overlaid(document, overlay["actions" := Arr(WithoutRemovals(actions))])
  }

  lemma {:induction false} WithoutRemovalsMerge(actions: seq<Json>)
    requires Refused(actions).None?
    ensures forall i :: 0 <= i < |WithoutRemovals(actions)| ==> IsMerging(WithoutRemovals(actions)[i])
  {
    if actions != [] {
      WithoutRemovalsMerge(actions[1..]);
    }
  }

  /** What an additive overlay accepts: updates with a mapping, and removals. */
  lemma {:induction false} AdditiveAccepts(actions: seq<Json>)
    ensures Refused(actions).None? <==>
            forall i :: 0 <= i < |actions| ==>
              && actions[i].Obj?
              && (("update" in actions[i].fields && actions[i].fields["update"].Obj?)
                  || ("remove" in actions[i].fields && actions[i].fields["remove"] == Atom("true")))
  {
    if actions != [] {
      var tail := actions[1..];
      AdditiveAccepts(tail);
      assert forall i :: 0 < i < |actions| ==> actions[i] == tail[i - 1];
    }
  }

  /** What it keeps: one action at a time and in order, exactly those whose update is a
      mapping. */
  lemma {:induction false} AdditiveActions(actions: seq<Json>, i: nat)
    requires i < |actions| && Refused(actions).None?
    ensures WithoutRemovals(actions[..i + 1]) ==
            WithoutRemovals(actions[..i])
            + if actions[i].Obj? && "update" in actions[i].fields && actions[i].fields["update"].Obj? then [actions[i]] else []
  {
    var tail := actions[1..];
    if i > 0 {
      AdditiveActions(tail, i - 1);
      assert actions[..i][1..] == tail[..i - 1] && actions[..i + 1][1..] == tail[..i];
    } else {
      assert actions[..1][1..] == [] && actions[..0] == [];
    }
  }

  /** The action's update has something other than a mapping on the way to the path. */
  ghost predicate CutBy(action: Json, path: Path)
    requires action.Obj? && TargetOf(action.fields).Ok?
  {
    var keys := TargetOf(action.fields).value;
    HasUpdate(action.fields) && keys <= path && Cuts(action.fields["update"], path[|keys|..])
  }

  /** The action's update has the path. */
  ghost predicate ReachedBy(action: Json, path: Path)
    requires action.Obj? && TargetOf(action.fields).Ok?
  {
    var keys := TargetOf(action.fields).value;
    HasUpdate(action.fields) && keys <= path && At(action.fields["update"], path[|keys|..]).Some?
  }

  /** Some action cuts the path and no later one has it again. */
  ghost predicate CutForGood(actions: seq<Json>, path: Path)
    requires WellTargeted(actions)
  {
    exists i :: 0 <= i < |actions| && CutForGoodAt(actions, path, i)
  }

  ghost predicate CutForGoodAt(actions: seq<Json>, path: Path, i: nat)
    requires WellTargeted(actions) && i < |actions|
  {
    CutBy(actions[i], path) && forall j :: i < j < |actions| ==> !ReachedBy(actions[j], path)
  }

  lemma CutForGoodEarlier(actions: seq<Json>, path: Path, i: nat)
    requires WellTargeted(actions) && i < |actions| - 1
    ensures var n := |actions| - 1;
            CutForGoodAt(actions, path, i) <==> CutForGoodAt(actions[..n], path, i) && !ReachedBy(actions[n], path)
  {
    hide TargetOf, CutBy, ReachedBy;
    var n := |actions| - 1;
    assert forall j :: 0 <= j < n ==> actions[..n][j] == actions[j];
  }

  lemma CutForGoodLast(actions: seq<Json>, path: Path)
    requires WellTargeted(actions) && actions != []
    ensures var n := |actions| - 1;
            CutForGood(actions, path) <==>
              CutBy(actions[n], path) || (!ReachedBy(actions[n], path) && CutForGood(actions[..n], path))
  {
    hide TargetOf, CutBy, ReachedBy, CutForGoodAt, WellTargeted;
    var n := |actions| - 1;
    LastCuts(actions, path);
    forall i | 0 <= i < n
      ensures CutForGoodAt(actions, path, i) <==> CutForGoodAt(actions[..n], path, i) && !ReachedBy(actions[n], path)
    {
      CutForGoodEarlier(actions, path, i);
    }
    if CutForGood(actions, path) {
      var i :| 0 <= i < |actions| && CutForGoodAt(actions, path, i);
      assert i < n ==> CutForGoodAt(actions[..n], path, i);
    }
    if !ReachedBy(actions[n], path) && CutForGood(actions[..n], path) {
      var i :| 0 <= i < n && CutForGoodAt(actions[..n], path, i);
      assert CutForGoodAt(actions, path, i);
    }
  }

  lemma LastCuts(actions: seq<Json>, path: Path)
    requires WellTargeted(actions) && actions != []
    ensures WellTargeted(actions[..|actions| - 1])
    ensures actions[|actions| - 1].Obj? && TargetOf(actions[|actions| - 1].fields).Ok?
    ensures CutForGoodAt(actions, path, |actions| - 1) <==> CutBy(actions[|actions| - 1], path)
  {
    hide TargetOf, CutBy, ReachedBy;
  }

  lemma {:induction false} LastWordOfUpdates(actions: seq<Json>, path: Path)
    requires WellTargeted(actions) && forall i :: 0 <= i < |actions| ==> IsMerging(actions[i])
    ensures LastWord(actions, path) == Some(false) <==> CutForGood(actions, path)
    decreases |actions|
  {
    hide TargetOf, At, Cuts, CutForGood;
    if actions == [] {
      NeverCut(path);
    } else {
      var n := |actions| - 1;
      CutForGoodLast(actions, path);
      LastWordOfUpdates(actions[..n], path);
    }
  }

  lemma NeverCut(path: Path)
    ensures !CutForGood([], path)
  {}

  /** An additive overlay loses a key path of the document exactly when an update puts a
      non-mapping on the way to it and no later update has the path again: removals never
      cost anything. */
  lemma AdditiveKeeps(document: Json, overlay: Fields, path: Path)
    requires OverlaidAdditively(document, overlay).error.None?
    requires At(document, path).Some?
    ensures var kept := WithoutRemovals(overlay["actions"].items);
            && WellTargeted(kept)
            && (At(OverlaidAdditively(document, overlay).document, path).None? <==> CutForGood(kept, path))
  {
    hide At, Apply, CutForGood, LastWord;
    var kept := WithoutRemovals(overlay["actions"].items);
    WithoutRemovalsMerge(overlay["actions"].items);
    OverlayPaths(document, kept, path);
    LastWordOfUpdates(kept, path);
  }

  /** An overlay without removals does the same either way. */
  lemma AdditiveWithoutRemovals(document: Json, overlay: Fields)
    requires "actions" in overlay && overlay["actions"].Arr?
    requires forall i :: 0 <= i < |overlay["actions"].items| ==> IsMerging(overlay["actions"].items[i])
    ensures OverlaidAdditively(document, overlay) == Overlaid(document, overlay)
  {
    NothingToDrop(overlay["actions"].items);
    assert overlay["actions" := Arr(overlay["actions"].items)] == overlay;
  }

  lemma {:induction false} NothingToDrop(actions: seq<Json>)
    requires forall i :: 0 <= i < |actions| ==> IsMerging(actions[i])
    ensures Refused(actions).None? && WithoutRemovals(actions) == actions
  {
    if actions != [] {
      NothingToDrop(actions[1..]);
      assert actions == [actions[0]] + actions[1..];
    }
  }

  // ---- the code ----

  /** get_node: None where it raises. */
  method GetNode(document: Json, keys: Path) returns (found: Option<Json>)
    ensures found == At(document, keys)
  {
    var node := document;
    for i := 0 to |keys|
      invariant At(document, keys) == At(node, keys[i..])
    {
      assert keys[i..][1..] == keys[i + 1..];
      if !node.Obj? || keys[i] !in node.fields {
        return None;
      }
      node := node.fields[keys[i]];
    }
    return Some(node);
  }

  /** The loop that drops the removals of an additive overlay. */
  method KeepUpdates(actions: seq<Json>) returns (r: Result<seq<Json>, OverlayError>)
    ensures match Refused(actions) case Some(e) => r == Err(e) case None => r == Ok(WithoutRemovals(actions))
  {
    hide TargetOf, At, Put;
    var kept := [];
    assert actions[0..] == actions;
    for i := 0 to |actions|
      invariant Refused(actions) == Refused(actions[i..])
      invariant WithoutRemovals(actions) == kept + WithoutRemovals(actions[i..])
    {
      assert actions[i..][1..] == actions[i + 1..];
      assert kept + ([actions[i]] + WithoutRemovals(actions[i + 1..])) == (kept + [actions[i]]) + WithoutRemovals(actions[i + 1..]);
      if !actions[i].Obj? {
        return Err(ActionNotMapping);
      }
      if IsMerging(actions[i]) {
        kept := kept + [actions[i]];
      } else if !Removes(actions[i].fields) {
        return Err(NeitherUpdateNorRemove);
      }
    }
    assert actions[|actions|..] == [] && kept + [] == kept;
    return Ok(kept);
  }

  /** A document that overlays change in place. */
  class Document {
    var content: Json

    constructor (content: Json)
      ensures this.content == content
    {
      this.content := content;
    }

    /** One action; a refused one leaves the document alone. */
    method Act(action: Json) returns (error: Option<OverlayError>)
      modifies this
      ensures Follows(ApplyAction(old(content), action), old(content), content, error)
    {
      if !action.Obj? {
        return Some(ActionNotMapping);
      }
      if "target" !in action.fields || !action.fields["target"].Str? {
        return Some(NoTarget);
      }
      var parsed := ParseTarget(action.fields["target"].text);
      if parsed.Err? {
        return Some(BadTarget(parsed.error));
      }
      if HasUpdate(action.fields) {
        error := Update(parsed.value, action.fields["update"]);
      } else if Removes(action.fields) {
        error := Remove(parsed.value);
      } else {
        error := Some(NeitherUpdateNorRemove);
      }
    }

    method Update(keys: Path, update: Json) returns (error: Option<OverlayError>)
      modifies this
      ensures Follows(ApplyUpdate(old(content), keys, update), old(content), content, error)
    {
      var node := GetNode(content, keys);
      if node.None? {
        return Some(MissingNode);
      }
      if !node.value.Obj? || !update.Obj? {
        return Some(UpdateNeedsMappings);
      }
      content := Put(content, keys, Merge(node.value, update));
      return None;
    }

    method Remove(keys: Path) returns (error: Option<OverlayError>)
      modifies this
      ensures Follows(ApplyRemoval(old(content), keys), old(content), content, error)
    {
      if keys == [] {
        return Some(RemovesRoot);
      }
      var last := keys[|keys| - 1];
      var parent := GetNode(content, keys[..|keys| - 1]);
      if parent.None? {
        return Some(MissingNode);
      }
      if !parent.value.Obj? || last !in parent.value.fields {
        return Some(MissingRemoval);
      }
      content := Put(content, keys[..|keys| - 1], Obj(parent.value.fields - {last}));
      return None;
    }

    /** apply_overlay: the document ends as far as the actions went. */
    method ApplyOverlay(overlay: Fields) returns (done: nat, error: Option<OverlayError>)
      modifies this
      ensures Outcome(content, done, error) == Overlaid(old(content), overlay)
    {
      if "overlay" !in overlay || overlay["overlay"] != Str("1.0.0") {
        return 0, Some(WrongVersion);
      }
      if "actions" !in overlay || !overlay["actions"].Arr? {
        return 0, Some(NoActions);
      }
      var actions := overlay["actions"].items;
      assert actions[0..] == actions;
      done := 0;
      while done < |actions|
        invariant done <= |actions|
        invariant Resuming(Apply(old(content), actions), done, Apply(content, actions[done..]))
      {
        assert actions[done..][1..] == actions[done + 1..];
        error := Act(actions[done]);
        if error.Some? {
          return;
        }
        done := done + 1;
      }
      return done, None;
    }

    /** apply_additive_overlay */
    method ApplyAdditiveOverlay(overlay: Fields) returns (done: nat, error: Option<OverlayError>)
      modifies this
      ensures Outcome(content, done, error) == OverlaidAdditively(old(content), overlay)
    {
      if "actions" !in overlay || !overlay["actions"].Arr? {
        return 0, Some(NoActions);
      }
      var kept := KeepUpdates(overlay["actions"].items);
      if kept.Err? {
        return 0, Some(kept.error);
      }
      done, error := ApplyOverlay(overlay["actions" := Arr(kept.value)]);
    }
  }

  /** A step that gives the next document, or an error and the document as it was. */
  ghost predicate Follows(step: Result<Json, OverlayError>, before: Json, after: Json, error: Option<OverlayError>) {
    match step
    case Err(e) => after == before && error == Some(e)
    case Ok(next) => after == next && error == None
  }

  /** The whole outcome is done actions followed by the rest. */
  ghost predicate Resuming(whole: Outcome, done: nat, rest: Outcome) {
    whole == rest.(done := done + rest.done)
  }
}
