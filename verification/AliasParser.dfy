/**
 The loops of parse_modules and spec_operation_names
 (aws_client_codegen/generate_aos_api.py).
 */
module AliasParser {
  import opened Prelude
  import opened StringOrder
  import opened ApiGen
  import opened AliasNames
  import opened HttpMethods

  /** One turn of the inner loop. */
  method AliasOne(e: Entry) returns (r: Entry)
    ensures r == AliasEntry(e)
  {
    if e.method_ !in HTTP_METHODS || !e.definition.Operation? || e.definition.group.None? {
      return e;
    }
    var group := e.definition.group.value;
    if PREFIX <= group {
      group := ALIAS + "." + group[|PREFIX|..];
    }
    return Entry(e.method_, Operation(Some(group), e.definition.deprecated));
  }

  /** The nested loops that rewrite the groups of the parser's copy of the document. */
  method AliasGroups(spec: Spec) returns (copy: Spec)
    ensures copy == AliasSpec(spec)
  {
    hide AliasEntry;
    copy := [];
    assert spec[0..] == spec;
    for i := 0 to |spec|
      invariant AliasSpec(spec) == copy + AliasSpec(spec[i..])
    {
      assert spec[i..][1..] == spec[i + 1..];
      var entries := spec[i].entries;
      var rewritten: seq<Entry> := [];
      assert entries[0..] == entries;
      for j := 0 to |entries|
        invariant AliasEntries(entries) == rewritten + AliasEntries(entries[j..])
      {
        assert entries[j..][1..] == entries[j + 1..];
        var e := AliasOne(entries[j]);
        rewritten := rewritten + [e];
      }
      assert rewritten + [] == rewritten;
      copy := copy + [PathItem(spec[i].path, rewritten)];
    }
    assert copy + [] == copy;
  }

  method ParseModules(spec: Spec) returns (r: Result<seq<Module>, Unreadable>)
    ensures r == ParsedModules(spec)
  {
    var copy := AliasGroups(spec);
    var parsed := ReadModules(copy);
    if parsed.Err? {
      return Err(parsed.error);
    }
    var (found, rest) := Pop(parsed.value, ALIAS);
    if found.None? {
      return parsed;
    }
    return Ok(Store(rest, Module(DROPPED, RenameApis(found.value.apis, DROPPED))));
  }

  /** The nested loops that fill the set of operations. */
  method CollectGroups(spec: Spec) returns (r: Result<set<string>, Unreadable>)
    ensures r == SpecGroups(spec)
  {
    var operations: set<string> := {};
    assert spec[0..] == spec;
    BothNothing(SpecGroups(spec));
    for i := 0 to |spec|
      invariant SpecGroups(spec) == Both(Ok(operations), SpecGroups(spec[i..]))
    {
      assert spec[i..][1..] == spec[i + 1..];
      var path, entries := spec[i].path, spec[i].entries;
      ghost var later := SpecGroups(spec[i + 1..]);
      assert entries[0..] == entries;
      BothAssociates(Ok(operations), ItemGroups(path, entries), later);
      for j := 0 to |entries|
        invariant SpecGroups(spec) == Both(Both(Ok(operations), ItemGroups(path, entries[j..])), later)
      {
        assert entries[j..][1..] == entries[j + 1..];
        var e := entries[j];
        BothAssociates(Ok(operations), EntryGroups(path, e), ItemGroups(path, entries[j + 1..]));
        BothNothing(Ok(operations));
        if e.method_ !in HTTP_METHODS || !e.definition.Operation? {
          continue;
        }
        if e.definition.group.None? {
          return Err(Unreadable(path, e.method_));
        }
        if IsSkipped(e.definition.group.value, e.definition.deprecated) {
          continue;
        }
        operations := operations + {e.definition.group.value};
      }
      BothNothing(Ok(operations));
    }
    BothNothing(Ok(operations));
    return Ok(operations);
  }

  lemma BothAssociates(a: Result<set<string>, Unreadable>, b: Result<set<string>, Unreadable>,
                                          c: Result<set<string>, Unreadable>)
    ensures Both(a, Both(b, c)) == Both(Both(a, b), c)
  {
    if a.Ok? && b.Ok? && c.Ok? {
      assert a.value + (b.value + c.value) == (a.value + b.value) + c.value;
    }
  }

  lemma BothNothing(a: Result<set<string>, Unreadable>)
    ensures Both(Ok({}), a) == Both(a, Ok({})) == a
  {
    if a.Ok? {
      assert {} + a.value == a.value && a.value + {} == a.value;
    }
  }

  /** sorted(operations) */
  method SortSet(s: set<string>) returns (names: seq<string>)
    ensures SortedSet(names, s)
  {
    names := [];
    var pending := s;
    while pending != {}
      invariant pending <= s
      invariant SortedSet(names, s - pending)
      invariant forall x, y :: x in names && y in pending ==> Le(x, y)
      decreases pending
    {
      var m := First(pending);
      assert (s - pending) + {m} == s - (pending - {m});
      names := names + [m];
      pending := pending - {m};
    }
  }

  /** spec_operation_names */
  method SpecOperationNames(spec: Spec) returns (r: Result<seq<string>, Unreadable>)
    ensures match SpecGroups(spec) case Err(e) => r == Err(e) case Ok(s) => r.Ok? && SortedSet(r.value, s)
  {
    var operations := CollectGroups(spec);
    if operations.Err? {
      return Err(operations.error);
    }
    var names := SortSet(operations.value);
    return Ok(names);
  }
}
