/**
 Keeping one distribution's part of a document (filter_distribution in
 aws_client_codegen/api_spec/overlay.py).
 */
module OverlayFilter {
  import opened Prelude
  import opened Json

  /** The mapping's x-distributions lists do not admit the distribution. */
  predicate Excludes(m: map<string, Json>, d: string) {
    || ("x-distributions" in m && m["x-distributions"].Arr? && Str(d) !in m["x-distributions"].items)
    || ("x-distributions-excluded" in m && m["x-distributions-excluded"].Arr?
        && Str(d) in m["x-distributions-excluded"].items)
  }

  /** The filtered value; None stands for DROP. */
  function Filter(j: Json, d: string): Option<Json>
    decreases j
  {
    match j
    case Obj(m) =>
      if Excludes(m, d) then None
      else Some(Obj(map k | k in m && Filter(m[k], d).Some? :: Filter(m[k], d).value))
    case Arr(items) => Some(Arr(FilterAll(items, d)))
    case _ => Some(j)
  }

  function FilterAll(items: seq<Json>, d: string): seq<Json>
    decreases items
  {
    if items == [] then []
    else
      var first := Filter(items[0], d);
      (if first.Some? then [first.value] else []) + FilterAll(items[1..], d)
  }

  /** A mapping is kept for a distribution exactly when its list of distributions, if it has
      one, names the distribution and its list of excluded ones, if it has one, does not.
      Anything but a list under these keys says nothing, and only a text is a name. */
  lemma KeptFor(m: map<string, Json>, d: string)
    ensures Filter(Obj(m), d).Some? <==>
            && (forall items :: "x-distributions" in m.Keys && m["x-distributions"] == Arr(items) ==>
                  exists i :: 0 <= i < |items| && items[i] == Str(d))
            && (forall items :: "x-distributions-excluded" in m.Keys && m["x-distributions-excluded"] == Arr(items) ==>
                  forall i :: 0 <= i < |items| ==> items[i] != Str(d))
  {
    if "x-distributions" in m && m["x-distributions"].Arr? {
      assert m["x-distributions"] == Arr(m["x-distributions"].items);
    }
    if "x-distributions-excluded" in m && m["x-distributions-excluded"].Arr? {
      assert m["x-distributions-excluded"] == Arr(m["x-distributions-excluded"].items);
    }
  }

  /** Some mapping on the chain, the first and the last node included, excludes d. */
  ghost predicate ExcludedOn(j: Json, path: Path, d: string) {
    exists n :: 0 <= n <= |path| && At(j, path[..n]).Some? && At(j, path[..n]).value.Obj?
                && Excludes(At(j, path[..n]).value.fields, d)
  }

  lemma ExcludedOnStep(j: Json, path: Path, d: string)
    requires path != [] && j.Obj? && path[0] in j.fields
    ensures ExcludedOn(j, path, d) <==> Excludes(j.fields, d) || ExcludedOn(j.fields[path[0]], path[1..], d)
  {
    var child, tail := j.fields[path[0]], path[1..];
    forall n | 0 < n <= |path|
      ensures At(j, path[..n]) == At(child, tail[..n - 1])
    {
      assert path[..n][1..] == tail[..n - 1];
    }
    assert path[..0] == [];
    if ExcludedOn(child, tail, d) {
      var m :| 0 <= m <= |tail| && At(child, tail[..m]).Some? && At(child, tail[..m]).value.Obj?
               && Excludes(At(child, tail[..m]).value.fields, d);
      assert At(j, path[..m + 1]).Some?;
    }
    if Excludes(j.fields, d) {
      assert At(j, path[..0]).Some?;
    }
    if ExcludedOn(j, path, d) && !Excludes(j.fields, d) {
      var n :| 0 <= n <= |path| && At(j, path[..n]).Some? && At(j, path[..n]).value.Obj?
               && Excludes(At(j, path[..n]).value.fields, d);
      assert n > 0;
      assert At(child, tail[..n - 1]).Some?;
    }
  }

  /** A chain of keys resolves in the filtered document exactly when it resolves in the
      document and no mapping on it excludes the distribution; what it leads to is the
      filtered node. */
  lemma {:induction false} FilterPaths(j: Json, path: Path, d: string)
    ensures var f := Filter(j, d);
            var there := if f.Some? then At(f.value, path) else None;
            && (there.Some? <==> At(j, path).Some? && !ExcludedOn(j, path, d))
            && (there.Some? ==> there == Filter(At(j, path).value, d))
    decreases |path|
  {
    if path == [] {
      assert path[..0] == [];
      if j.Obj? && Excludes(j.fields, d) {
        assert At(j, path[..0]).Some?;
      }
    } else if j.Obj? && path[0] in j.fields {
      ExcludedOnStep(j, path, d);
      FilterPaths(j.fields[path[0]], path[1..], d);
    }
  }

  /** Positions kept by filtering a list, in order. */
  function KeptPositions(items: seq<Json>, d: string, from: nat): seq<nat>
    decreases |items| - from
  {
    if from >= |items| then []
    else (if Filter(items[from], d).Some? then [from] else []) + KeptPositions(items, d, from + 1)
  }

  /** List elements that are kept stay in order, each filtered, and none is invented. */
  lemma {:induction false} ListOrder(items: seq<Json>, d: string, from: nat)
    requires from <= |items|
    ensures var kept := KeptPositions(items, d, from);
            var r := FilterAll(items[from..], d);
            && |r| == |kept|
            && (forall i :: 0 <= i < |kept| ==> from <= kept[i] < |items| && Some(r[i]) == Filter(items[kept[i]], d))
            && (forall i, k :: 0 <= i < k < |kept| ==> kept[i] < kept[k])
            && (forall n :: from <= n < |items| && n !in kept ==> Filter(items[n], d) == None)
    decreases |items| - from
  {
    if from < |items| {
      ListOrder(items, d, from + 1);
      assert items[from..][1..] == items[from + 1..];
    }
  }

  /** No mapping anywhere in the value excludes the distribution. */
  ghost predicate Clean(j: Json, d: string)
    decreases j
  {
    match j
    case Obj(m) => !Excludes(m, d) && forall k :: k in m ==> Clean(m[k], d)
    case Arr(items) => forall i :: 0 <= i < |items| ==> Clean(items[i], d)
    case _ => true
  }

  lemma {:induction false} FilterAllStrings(items: seq<Json>, d: string, s: string)
    ensures Str(s) in FilterAll(items, d) <==> Str(s) in items
    decreases items
  {
    if items != [] {
      FilterAllStrings(items[1..], d, s);
      assert items == [items[0]] + items[1..];
    }
  }

  /** Filtering neither adds nor removes a reason to exclude. */
  lemma SameExclusion(m: map<string, Json>, d: string)
    requires !Excludes(m, d)
    ensures Filter(Obj(m), d).Some? && !Excludes(Filter(Obj(m), d).value.fields, d)
  {
    var r := Filter(Obj(m), d).value.fields;
    if "x-distributions" in m && m["x-distributions"].Arr? {
      FilterAllStrings(m["x-distributions"].items, d, d);
    }
    if "x-distributions-excluded" in m && m["x-distributions-excluded"].Arr? {
      FilterAllStrings(m["x-distributions-excluded"].items, d, d);
    }
  }

  lemma {:induction false} FilterIsClean(j: Json, d: string)
    requires Filter(j, d).Some?
    ensures Clean(Filter(j, d).value, d)
    decreases j
  {
    match j
    case Obj(m) =>
      SameExclusion(m, d);
      forall k | k in m && Filter(m[k], d).Some?
        ensures Clean(Filter(m[k], d).value, d)
      {
        FilterIsClean(m[k], d);
      }
    case Arr(items) => FilterAllIsClean(items, d);
    case _ =>
  }

  lemma {:induction false} FilterAllIsClean(items: seq<Json>, d: string)
    ensures forall i :: 0 <= i < |FilterAll(items, d)| ==> Clean(FilterAll(items, d)[i], d)
    decreases items
  {
    if items != [] {
      if Filter(items[0], d).Some? {
        FilterIsClean(items[0], d);
      }
      FilterAllIsClean(items[1..], d);
    }
  }

  lemma {:induction false} CleanIsKept(j: Json, d: string)
    requires Clean(j, d)
    ensures Filter(j, d) == Some(j)
    decreases j
  {
    match j
    case Obj(m) =>
      forall k | k in m
        ensures Filter(m[k], d) == Some(m[k])
      {
        CleanIsKept(m[k], d);
      }
      assert Filter(j, d).value.fields == m;
    case Arr(items) => CleanListIsKept(items, d);
    case _ =>
  }

  lemma {:induction false} CleanListIsKept(items: seq<Json>, d: string)
    requires forall i :: 0 <= i < |items| ==> Clean(items[i], d)
    ensures FilterAll(items, d) == items
    decreases items
  {
    if items != [] {
      CleanIsKept(items[0], d);
      CleanListIsKept(items[1..], d);
      assert items == [items[0]] + items[1..];
    }
  }

  /** What is left excludes the distribution nowhere, and filtering again changes nothing;
      a document that excludes it nowhere is not changed at all. */
  lemma FilterSettles(j: Json, d: string)
    ensures Filter(j, d).Some? ==> Clean(Filter(j, d).value, d) && Filter(Filter(j, d).value, d) == Filter(j, d)
    ensures Clean(j, d) <==> Filter(j, d) == Some(j)
  {
    if Filter(j, d).Some? {
      FilterIsClean(j, d);
      CleanIsKept(Filter(j, d).value, d);
    }
    if Clean(j, d) {
      CleanIsKept(j, d);
    }
  }
}
