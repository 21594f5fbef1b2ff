/**
 The two documents built from a base and its overlays (build_distribution_spec and
 build_unified_spec in aws_client_codegen/api_spec/overlay.py).
 */
module OverlayBuild {
  import opened Prelude
  import opened Json
  import opened HttpMethods
  import opened Overlay
  import opened OverlayFilter
  import opened OverlayPointers

  datatype BuildError =
    | NotMapping
    | NotOpenApi
    | OverlayFailed(reason: OverlayError)
    | RootExcluded
    | BadPaths            // .items() of something else than a mapping, or nothing to iterate over
    | Dangling(reference: string)

  // ---- remove_empty_paths ----

  /** Some element is the name of an HTTP method; None where membership raises (a mapping or
      a list is not hashable). */
  function AnyMethod(items: seq<Json>): Option<bool> {
    if items == [] then Some(false)
    else if items[0].Obj? || items[0].Arr? then None
    else if items[0].Str? && items[0].text in HTTP_METHODS then Some(true)
    else AnyMethod(items[1..])
  }

  /** A path item has an operation; None where iterating over it raises. */
  function HasOperation(item: Json): Option<bool> {
    match item
    case Obj(m) => Some(m.Keys * HTTP_METHODS != {})
    case Arr(items) => AnyMethod(items)
    case Str(_) => Some(false)   // no single character names a method
    case Atom(_) => None
  }

  /** A mapping is an operation's path item exactly when it has one of the eight methods. */
  lemma OperationMeans(m: map<string, Json>)
    ensures HasOperation(Obj(m)) == Some("get" in m || "put" in m || "post" in m || "delete" in m
                                         || "options" in m || "head" in m || "patch" in m || "trace" in m)
  {
    var eight := ["get", "put", "post", "delete", "options", "head", "patch", "trace"];
    forall k | k in HTTP_METHODS && k in m
      ensures k in m.Keys * HTTP_METHODS
    {}
    forall i | 0 <= i < 8 && eight[i] in m
      ensures eight[i] in m.Keys * HTTP_METHODS
    {}
  }

  predicate Hashable(j: Json) {
    j.Str? || j.Atom?
  }

  predicate NamesMethod(j: Json) {
    j.Str? && j.text in {"get", "put", "post", "delete", "options", "head", "patch", "trace"}
  }

  /** In a list the first element that is a method's name or cannot be hashed decides; a text has
      no operation, and over a number nothing can iterate. */
  lemma {:induction false} OperationInList(items: seq<Json>, k: nat, text: string)
    requires k <= |items| && forall i :: 0 <= i < k ==> Hashable(items[i]) && !NamesMethod(items[i])
    ensures HasOperation(Arr(items[..k])) == Some(false)
    ensures k < |items| && !Hashable(items[k]) ==> HasOperation(Arr(items)) == None
    ensures k < |items| && NamesMethod(items[k]) ==> HasOperation(Arr(items)) == Some(true)
    ensures HasOperation(Str(text)) == Some(false) && HasOperation(Atom(text)) == None
  {
    assert HTTP_METHODS == {"get", "put", "post", "delete", "options", "head", "patch", "trace"};
    if k > 0 {
      var tail := items[1..];
      OperationInList(tail, k - 1, text);
      assert items[..k][1..] == tail[..k - 1];
    }
  }

  function PathsOf(document: Fields): Json {
    if "paths" in document then document["paths"] else Obj(map[])
  }

  predicate PathsAreSound(document: Fields) {
    PathsOf(document).Obj? &&
    forall p :: p in PathsOf(document).fields ==> HasOperation(PathsOf(document).fields[p]).Some?
  }

  function WithoutEmptyPaths(document: Fields): Fields
    requires PathsAreSound(document)
  {
    var paths := PathsOf(document).fields;
    document["paths" := Obj(map p | p in paths && HasOperation(paths[p]).value :: paths[p])]
  }

  /** remove_empty_paths: the comprehension over the path items; None where it raises. */
  method RemoveEmptyPaths(document: Fields) returns (r: Option<Fields>)
    ensures r == if PathsAreSound(document) then Some(WithoutEmptyPaths(document)) else None
  {
    if !PathsOf(document).Obj? {
      return None;
    }
    var paths := PathsOf(document).fields;
    var kept: Fields := map[];
    var pending := paths.Keys;
    while pending != {}
      invariant pending <= paths.Keys
      invariant forall p :: p in paths && p !in pending ==> HasOperation(paths[p]).Some?
      invariant forall p :: p in kept <==> p in paths && p !in pending && HasOperation(paths[p]) == Some(true)
      invariant forall p :: p in kept ==> kept[p] == paths[p]
      decreases pending
    {
      var p :| p in pending;
      pending := pending - {p};
      var has := HasOperation(paths[p]);
      if has.None? {
        return None;
      }
      if has.value {
        kept := kept[p := paths[p]];
      }
    }
    assert kept == map p | p in paths && HasOperation(paths[p]).value :: paths[p];
    return Some(document["paths" := Obj(kept)]);
  }

  // ---- one distribution ----

  predicate IsOpenApi(base: Fields) {
    "openapi" in base && "paths" in base && base["paths"].Obj?
  }

  /** The distribution's document before its references are validated. */
  function Prepared(base: Json, overlay: Json, d: string): Result<Json, BuildError> {
    if !base.Obj? || !overlay.Obj? then Err(NotMapping)
    else if !IsOpenApi(base.fields) then Err(NotOpenApi)
    else
      var applied := Overlaid(base, overlay.fields);
      if applied.error.Some? then Err(OverlayFailed(applied.error.value))
      else
        var filtered := Filter(applied.document, d);
        if filtered.None? || !filtered.value.Obj? then Err(RootExcluded)
        else if !PathsAreSound(filtered.value.fields) then Err(BadPaths)
        else Ok(Obj(WithoutEmptyPaths(filtered.value.fields)))
  }

  /** When the preparation stops before any overlay is applied. */
  lemma BuildRefusals(base: Json, overlay: Json, d: string)
    ensures Prepared(base, overlay, d) == Err(NotMapping) <==> !base.Obj? || !overlay.Obj?
    ensures Prepared(base, overlay, d) == Err(NotOpenApi) <==>
            base.Obj? && overlay.Obj? && ("openapi" !in base.fields || "paths" !in base.fields || !base.fields["paths"].Obj?)
  {
    hide Overlaid, Filter;
  }

  method BuildDistribution(base: Json, overlay: Json, d: string) returns (r: Result<Json, BuildError>)
    ensures Prepared(base, overlay, d).Err? ==> r == Err(Prepared(base, overlay, d).error)
    ensures Prepared(base, overlay, d).Ok? ==>
              if AllResolve(Prepared(base, overlay, d).value) then r == Prepared(base, overlay, d)
              else r.Err? && r.error.Dangling? && FirstDangling(Prepared(base, overlay, d).value, r.error.reference)
  {
    if !base.Obj? || !overlay.Obj? {
      return Err(NotMapping);
    }
    if !IsOpenApi(base.fields) {
      return Err(NotOpenApi);
    }
    var document := new Document(base);
    var done, error := document.ApplyOverlay(overlay.fields);
    if error.Some? {
      return Err(OverlayFailed(error.value));
    }
    var filtered := Filter(document.content, d);
    if filtered.None? || !filtered.value.Obj? {
      return Err(RootExcluded);
    }
    var kept := RemoveEmptyPaths(filtered.value.fields);
    if kept.None? {
      return Err(BadPaths);
    }
    var validated := ValidateLocalReferences(Obj(kept.value));
    if validated.Err? {
      return Err(Dangling(validated.error));
    }
    return Ok(Obj(kept.value));
  }

  /** A path item without an operation is on the way to the key path. */
  ghost predicate UnderEmptyPath(document: Json, path: Path) {
    |path| >= 2 && path[0] == "paths" && At(document, path[..2]).Some?
    && HasOperation(At(document, path[..2]).value) == Some(false)
  }

  lemma WithoutEmptyPathsPaths(document: Fields, path: Path)
    requires PathsAreSound(document)
    ensures var r := At(Obj(WithoutEmptyPaths(document)), path);
            r.Some? <==> path == ["paths"] || (At(Obj(document), path).Some? && !UnderEmptyPath(Obj(document), path))
  {
    if |path| >= 2 && path[0] == "paths" {
      assert path[1..][1..] == path[2..];
      assert path[..2] == [path[0], path[1]];
      AtTwo(Obj(document), path);
      AtTwo(Obj(WithoutEmptyPaths(document)), path);
      assert path == path[..2] + path[2..];
      AtSplit(Obj(document), path[..2], path[2..]);
    } else if |path| == 1 {
      assert path == [path[0]];
    }
  }

  lemma AtTwo(j: Json, path: Path)
    requires |path| >= 2
    ensures At(j, path[..2]) == if j.Obj? && path[0] in j.fields && j.fields[path[0]].Obj?
                                   && path[1] in j.fields[path[0]].fields
                                then Some(j.fields[path[0]].fields[path[1]]) else None
    ensures At(j, path) == if At(j, path[..2]).Some? then At(At(j, path[..2]).value, path[2..]) else None
  {
    var first := path[..2];
    assert path == first + path[2..] && first == [path[0]] + [path[1]];
    AtSplit(j, first, path[2..]);
    AtSplit(j, [path[0]], [path[1]]);
  }

  /** The keys of a distribution's document: those of the overlaid base that no excluding
      mapping and no emptied path item is above (the paths mapping itself always stays). */
  lemma DistributionPaths(base: Json, overlay: Json, d: string, path: Path)
    requires Prepared(base, overlay, d).Ok?
    ensures var applied := Overlaid(base, overlay.fields).document;
            At(Prepared(base, overlay, d).value, path).Some? <==>
            path == ["paths"] || (At(applied, path).Some? && !ExcludedOn(applied, path, d)
                                  && !UnderEmptyPath(Filter(applied, d).value, path))
  {
    hide Overlaid, Filter, WithoutEmptyPaths, UnderEmptyPath, ExcludedOn;
    var applied := Overlaid(base, overlay.fields).document;
    var filtered := Filter(applied, d).value;
    FilterPaths(applied, path, d);
    WithoutEmptyPathsPaths(filtered.fields, path);
  }

  /** Nothing in a distribution's document excludes the distribution, and every path item
      left has an operation. */
  lemma DistributionIsClean(base: Json, overlay: Json, d: string)
    requires Prepared(base, overlay, d).Ok?
    ensures Clean(Prepared(base, overlay, d).value, d)
    ensures var paths := At(Prepared(base, overlay, d).value, ["paths"]);
            && paths.Some? && paths.value.Obj?
            && forall p :: p in paths.value.fields ==> HasOperation(paths.value.fields[p]) == Some(true)
  {
    hide Overlaid, Filter;
    var applied := Overlaid(base, overlay.fields).document;
    FilterIsClean(applied, d);
    CleanWithoutEmptyPaths(Filter(applied, d).value.fields, d);
    assert ["paths"][1..] == [];
  }

  lemma CleanWithoutEmptyPaths(document: Fields, d: string)
    requires PathsAreSound(document) && Clean(Obj(document), d)
    ensures Clean(Obj(WithoutEmptyPaths(document)), d)
  {
    var r := WithoutEmptyPaths(document);
    assert Clean(PathsOf(document), d);
    assert Clean(r["paths"], d);
    forall k | k in r
      ensures Clean(r[k], d)
    {
      if k != "paths" {
        assert r[k] == document[k];
      }
    }
  }

  // ---- the union ----

  /** The union's document before its references are validated. */
  function United(base: Json, aos: Json, aoss: Json): Result<Json, BuildError> {
    if !base.Obj? then Err(NotMapping)
    else if !IsOpenApi(base.fields) then Err(NotOpenApi)
    else if !aos.Obj? then Err(NotMapping)
    else
      var first := OverlaidAdditively(base, aos.fields);
      if first.error.Some? then Err(OverlayFailed(first.error.value))
      else if !aoss.Obj? then Err(NotMapping)
      else
        var second := OverlaidAdditively(first.document, aoss.fields);
        if second.error.Some? then Err(OverlayFailed(second.error.value)) else Ok(second.document)
  }

  method BuildUnified(base: Json, aos: Json, aoss: Json) returns (r: Result<Json, BuildError>)
    ensures United(base, aos, aoss).Err? ==> r == Err(United(base, aos, aoss).error)
    ensures United(base, aos, aoss).Ok? ==>
              if AllResolve(United(base, aos, aoss).value) then r == United(base, aos, aoss)
              else r.Err? && r.error.Dangling? && FirstDangling(United(base, aos, aoss).value, r.error.reference)
  {
    if !base.Obj? {
      return Err(NotMapping);
    }
    if !IsOpenApi(base.fields) {
      return Err(NotOpenApi);
    }
    var document := new Document(base);
    if !aos.Obj? {
      return Err(NotMapping);
    }
    var done, error := document.ApplyAdditiveOverlay(aos.fields);
    if error.Some? {
      return Err(OverlayFailed(error.value));
    }
    if !aoss.Obj? {
      return Err(NotMapping);
    }
    done, error := document.ApplyAdditiveOverlay(aoss.fields);
    if error.Some? {
      return Err(OverlayFailed(error.value));
    }
    var validated := ValidateLocalReferences(document.content);
    if validated.Err? {
      return Err(Dangling(validated.error));
    }
    return Ok(document.content);
  }

  /** The updates of both overlays, in order. */
  function Updates(aos: Fields, aoss: Fields): seq<Json>
    requires "actions" in aos && aos["actions"].Arr? && "actions" in aoss && aoss["actions"].Arr?
  {
    WithoutRemovals(aos["actions"].items) + WithoutRemovals(aoss["actions"].items)
  }

  /** The union is additive: a key path of the base is missing from it exactly when an update
      of either overlay cut it and no later update has it again. */
  lemma UnionKeeps(base: Json, aos: Json, aoss: Json, path: Path)
    requires United(base, aos, aoss).Ok? && At(base, path).Some?
    ensures var updates := Updates(aos.fields, aoss.fields);
            && WellTargeted(updates)
            && (At(United(base, aos, aoss).value, path).None? <==> CutForGood(updates, path))
  {
    hide At, Apply, CutForGood, LastWord;
    var first, second := WithoutRemovals(aos.fields["actions"].items), WithoutRemovals(aoss.fields["actions"].items);
    WithoutRemovalsMerge(aos.fields["actions"].items);
    WithoutRemovalsMerge(aoss.fields["actions"].items);
    ApplySplit(base, first, second);
    OverlayPaths(base, first + second, path);
    LastWordOfUpdates(first + second, path);
  }
}
