/**
 Parsing a specification whose "ism" namespace the parser drops (parse_modules,
 operation_names and spec_operation_names in aws_client_codegen/generate_aos_api.py): the
 namespace goes in under an alias and comes back under its own name.
 */
module AliasNames {
  import opened Prelude
  import opened StringOrder
  import opened SortGroup
  import opened ApiGen
  import ApiPartition
  import opened HttpMethods

  const PREFIX := "ism."
  const ALIAS := "_aos_codegen_ism"
  const TOP := "__init__"

  // ---- aliasing ----

  function Aliased(group: string): string {
    if PREFIX <= group then ALIAS + "." + group[|PREFIX|..] else group
  }

  function AliasEntry(e: Entry): Entry {
    if e.method_ in HTTP_METHODS && e.definition.Operation? && e.definition.group.Some? then
      Entry(e.method_, Operation(Some(Aliased(e.definition.group.value)), e.definition.deprecated))
    else e
  }

  function AliasEntries(entries: seq<Entry>): seq<Entry> {
    if entries == [] then [] else [AliasEntry(entries[0])] + AliasEntries(entries[1..])
  }

  function AliasSpec(spec: Spec): Spec {
    if spec == [] then []
    else [PathItem(spec[0].path, AliasEntries(spec[0].entries))] + AliasSpec(spec[1..])
  }

  function RenameApis(apis: seq<Api>, namespace: string): seq<Api> {
    if apis == [] then [] else [Api(namespace, apis[0].name, apis[0].paths)] + RenameApis(apis[1..], namespace)
  }

  /** modules[m.namespace] = m */
  function Store(modules: seq<Module>, m: Module): seq<Module> {
    if modules == [] then [m]
    else if modules[0].namespace == m.namespace then [m] + modules[1..]
    else [modules[0]] + Store(modules[1..], m)
  }

  /** modules.pop(namespace) */
  function Pop(modules: seq<Module>, namespace: string): (Option<Module>, seq<Module>) {
    if modules == [] then (None, [])
    else if modules[0].namespace == namespace then (Some(modules[0]), modules[1..])
    else
      var (found, rest) := Pop(modules[1..], namespace);
      (found, [modules[0]] + rest)
  }

  function Unalias(modules: seq<Module>): seq<Module> {
    var (found, rest) := Pop(modules, ALIAS);
    if found.None? then modules else Store(rest, Module(DROPPED, RenameApis(found.value.apis, DROPPED)))
  }

  function ParsedModules(spec: Spec): Result<seq<Module>, Unreadable> {
    match Modules(AliasSpec(spec))
    case Err(e) => Err(e)
    case Ok(modules) => Ok(Unalias(modules))
  }

  // ---- names ----

  function Printed(namespace: string, name: string): string {
    if namespace == TOP then name else namespace + "." + name
  }

  function PrintedAll(namespace: string, apis: seq<Api>): seq<string> {
    if apis == [] then [] else [Printed(namespace, apis[0].name)] + PrintedAll(namespace, apis[1..])
  }

  /** The printed names, each namespace first renamed. */
  function Names(modules: seq<Module>, rename: string -> string): seq<string> {
    if modules == [] then []
    else PrintedAll(rename(modules[0].namespace), modules[0].apis) + Names(modules[1..], rename)
  }

  function Same(s: string): string {
    s
  }

  function Back(namespace: string): string {
    if namespace == ALIAS then DROPPED else namespace
  }

  function OperationNames(modules: seq<Module>): seq<string> {
    SortBy(Names(modules, Same), Same)
  }

  /** The groups of the entries that are operations; an operation without one raises. */
  function EntryGroups(path: string, e: Entry): Result<set<string>, Unreadable> {
    if e.method_ !in HTTP_METHODS || !e.definition.Operation? then Ok({})
    else if e.definition.group.None? then Err(Unreadable(path, e.method_))
    else if IsSkipped(e.definition.group.value, e.definition.deprecated) then Ok({})
    else Ok({e.definition.group.value})
  }

  function Both(a: Result<set<string>, Unreadable>, b: Result<set<string>, Unreadable>): Result<set<string>, Unreadable> {
    if a.Err? then a else if b.Err? then b else Ok(a.value + b.value)
  }

  function ItemGroups(path: string, entries: seq<Entry>): Result<set<string>, Unreadable> {
    if entries == [] then Ok({}) else Both(EntryGroups(path, entries[0]), ItemGroups(path, entries[1..]))
  }

  function SpecGroups(spec: Spec): Result<set<string>, Unreadable> {
    if spec == [] then Ok({}) else Both(ItemGroups(spec[0].path, spec[0].entries), SpecGroups(spec[1..]))
  }

  /** names is the sorted list of a set. */
  ghost predicate SortedSet(names: seq<string>, s: set<string>) {
    && (forall i, j :: 0 <= i < j < |names| ==> Le(names[i], names[j]) && names[i] != names[j])
    && forall x :: x in names <==> x in s
  }

  // ---- what is printed for one group ----

  /** A group whose name is not lost: at most the first dot after ism, and neither the alias
      nor the name of the top level as its namespace. A caller can check it in the spec. */
  predicate Survives(group: string) {
    && (PREFIX <= group ==> '.' !in group[|PREFIX|..])
    && Namespace(group) != ALIAS
    && ('.' in group ==> Namespace(group) != TOP)
  }

  function Out(group: string): string {
    Printed(Back(Namespace(group)), Name(group))
  }

  lemma SplitAtLastDot(a: string, b: string)
    requires '.' !in b
    ensures Namespace(a + "." + b) == a && Name(a + "." + b) == b
  {
    LastDotAfter(a, b);
    var s := a + "." + b;
    assert s[..|a|] == a && s[|a| + 1..] == b;
  }

  lemma {:induction false} LastDotAfter(a: string, b: string)
    requires '.' !in b
    ensures LastDot(a + "." + b) == Some(|a|)
  {
    var s := a + "." + b;
    if b != "" {
      assert s[..|s| - 1] == a + "." + b[..|b| - 1];
      LastDotAfter(a, b[..|b| - 1]);
    }
  }

  lemma SplitPrints(group: string)
    ensures '.' in group ==> group == Namespace(group) + "." + Name(group) && '.' !in Name(group)
    ensures '.' !in group ==> Namespace(group) == TOP && Name(group) == group
  {
    var d := LastDot(group);
    if d.Some? {
      assert group == group[..d.value] + [group[d.value]] + group[d.value + 1..];
    }
  }

  lemma DroppedIsPrefixed(group: string)
    ensures Namespace(group) == DROPPED ==> PREFIX <= group
    ensures Namespace(Aliased(group)) != DROPPED
  {
    SplitPrints(group);
    SplitPrints(Aliased(group));
    if PREFIX <= group {
      assert Aliased(group)[0] == '_';
    }
  }

  /** What the aliased group is printed as: a bare name, ism and a name, or itself. */
  lemma OutShapes(group: string)
    ensures var o := Out(Aliased(group));
            || '.' !in o
            || (PREFIX <= o && '.' !in o[|PREFIX|..])
            || (!(PREFIX <= o) && Namespace(o) != ALIAS && Namespace(o) != TOP)
  {
    var g := Aliased(group);
    SplitPrints(g);
    DroppedIsPrefixed(group);
    if Namespace(g) == ALIAS {
      assert Out(g) == DROPPED + "." + Name(g);
      assert Out(g)[|PREFIX|..] == Name(g);
    } else if PREFIX <= group {
      assert g[0] == '_';
    }
  }

  lemma PrefixedOnce(g: string)
    requires PREFIX <= g && '.' !in g[|PREFIX|..]
    ensures Namespace(g) == DROPPED
  {
    assert g == DROPPED + "." + g[|PREFIX|..];
    SplitAtLastDot(DROPPED, g[|PREFIX|..]);
  }

  lemma OutOfAlias(x: string)
    requires '.' !in x
    ensures Out(ALIAS + "." + x) == PREFIX + x
  {
    hide Namespace, Name;
    SplitAtLastDot(ALIAS, x);
  }

  lemma OutOfPlain(group: string)
    requires !(PREFIX <= group) && Survives(group)
    ensures Out(group) == group
  {
    hide Namespace, Name;
    SplitPrints(group);
  }

  lemma OutBack(group: string)
    requires Survives(group)
    ensures Out(Aliased(group)) == group
  {
    hide Out, Namespace;
    if PREFIX <= group {
      OutOfAlias(group[|PREFIX|..]);
      assert group == PREFIX + group[|PREFIX|..];
    } else {
      OutOfPlain(group);
    }
  }

  lemma OutNever(group: string, other: string)
    requires !Survives(group)
    ensures Out(Aliased(other)) != group
  {
    hide LastDot, Out, Aliased;
    SplitPrints(group);
    OutShapes(other);
    if PREFIX <= group && '.' !in group[|PREFIX|..] {
      PrefixedOnce(group);
    }
  }

  /** The three kinds of groups that are lost. */
  lemma SomeAreLost()
    ensures !Survives("ism.policies.get") && !Survives("_aos_codegen_ism.get") && !Survives("__init__.get")
  {
    assert "_aos_codegen_ism.get" == ALIAS + "." + "get" && "__init__.get" == TOP + "." + "get";
    SplitAtLastDot(ALIAS, "get");
    SplitAtLastDot(TOP, "get");
    assert "ism.policies.get"[|PREFIX|..][8] == '.';
  }

  // ---- the endpoints of the aliased spec ----

  /** Every entry of every path item is an operation with a group. */
  predicate OnlyOperations(spec: Spec) {
    forall i :: 0 <= i < |spec| ==> ItemOnlyOperations(spec[i].entries)
  }

  predicate ItemOnlyOperations(entries: seq<Entry>) {
    forall j :: 0 <= j < |entries| ==>
      entries[j].method_ in HTTP_METHODS && entries[j].definition.Operation? && entries[j].definition.group.Some?
  }

  ghost predicate HasOrigin(group: string, groups: set<string>) {
    exists g :: g in groups && group == Aliased(g)
  }

  ghost predicate HasEndpoint(es: seq<Endpoint>, group: string) {
    exists i :: 0 <= i < |es| && es[i].group == group
  }

  /** The groups of the aliased endpoints are the groups, aliased. */
  ghost predicate AliasOf(es: seq<Endpoint>, groups: set<string>) {
    && (forall i :: 0 <= i < |es| ==> HasOrigin(es[i].group, groups))
    && (forall g :: g in groups ==> HasEndpoint(es, Aliased(g)))
  }

  lemma HasOriginMore(group: string, groups: set<string>, more: set<string>)
    requires HasOrigin(group, groups) && groups <= more
    ensures HasOrigin(group, more)
  {}

  lemma HasEndpointMore(before: seq<Endpoint>, es: seq<Endpoint>, after: seq<Endpoint>, group: string)
    requires HasEndpoint(es, group)
    ensures HasEndpoint(before + es + after, group)
  {
    var i :| 0 <= i < |es| && es[i].group == group;
    assert (before + es + after)[|before| + i].group == group;
  }

  lemma AliasOfBoth(es: seq<Endpoint>, groups: set<string>, es': seq<Endpoint>, groups': set<string>)
    requires AliasOf(es, groups) && AliasOf(es', groups')
    ensures AliasOf(es + es', groups + groups')
  {
    hide Aliased, HasOrigin, HasEndpoint;
    forall i | 0 <= i < |es + es'|
      ensures HasOrigin((es + es')[i].group, groups + groups')
    {
      if i < |es| {
        HasOriginMore(es[i].group, groups, groups + groups');
      } else {
        HasOriginMore(es'[i - |es|].group, groups', groups + groups');
      }
    }
    assert [] + es + es' == es + es' && es + es' + [] == es + es';
    forall g | g in groups + groups'
      ensures HasEndpoint(es + es', Aliased(g))
    {
      if g in groups {
        HasEndpointMore([], es, es', Aliased(g));
      } else {
        HasEndpointMore(es, es', [], Aliased(g));
      }
    }
  }

  lemma AliasOfEntry(path: string, e: Entry)
    requires e.method_ in HTTP_METHODS && e.definition.Operation? && e.definition.group.Some?
    ensures EntryEndpoints(path, AliasEntry(e)).Ok? && EntryGroups(path, e).Ok?
    ensures AliasOf(EntryEndpoints(path, AliasEntry(e)).value, EntryGroups(path, e).value)
  {
    var g := e.definition.group.value;
    if PREFIX <= g {
      assert Aliased(g)[0] == '_' && g[0] == 'i';
    }
    var es := EntryEndpoints(path, AliasEntry(e)).value;
    if es != [] {
      assert es[0].group == Aliased(g);
    }
  }

  lemma {:induction false} AliasOfItem(path: string, entries: seq<Entry>)
    requires ItemOnlyOperations(entries)
    ensures ItemEndpoints(path, AliasEntries(entries)).Ok? && ItemGroups(path, entries).Ok?
    ensures AliasOf(ItemEndpoints(path, AliasEntries(entries)).value, ItemGroups(path, entries).value)
  {
    hide AliasEntry, EntryEndpoints, EntryGroups, AliasOf;
    if entries == [] {
      AliasOfNothing();
    } else {
      AliasOfEntry(path, entries[0]);
      assert forall j :: 0 <= j < |entries[1..]| ==> entries[1..][j] == entries[j + 1];
      AliasOfItem(path, entries[1..]);
      AliasOfBoth(EntryEndpoints(path, AliasEntry(entries[0])).value, EntryGroups(path, entries[0]).value,
                  ItemEndpoints(path, AliasEntries(entries[1..])).value, ItemGroups(path, entries[1..]).value);
    }
  }

  lemma AliasOfNothing()
    ensures AliasOf([], {})
  {}

  lemma {:induction false} AliasOfSpec(spec: Spec)
    requires OnlyOperations(spec)
    ensures Endpoints(AliasSpec(spec)).Ok? && SpecGroups(spec).Ok?
    ensures AliasOf(Endpoints(AliasSpec(spec)).value, SpecGroups(spec).value)
  {
    hide AliasEntries, ItemEndpoints, ItemGroups, AliasOf, ItemOnlyOperations;
    if spec == [] {
      AliasOfNothing();
    } else {
      var item := spec[0];
      AliasOfItem(item.path, item.entries);
      assert forall i :: 0 <= i < |spec[1..]| ==> spec[1..][i] == spec[i + 1];
      AliasOfSpec(spec[1..]);
      AliasOfBoth(ItemEndpoints(item.path, AliasEntries(item.entries)).value, ItemGroups(item.path, item.entries).value,
                  Endpoints(AliasSpec(spec[1..])).value, SpecGroups(spec[1..]).value);
    }
  }

  // ---- the names of the modules ----

  function OutNames(apis: seq<Api>, rename: string -> string): seq<string> {
    if apis == [] then [] else [Printed(rename(apis[0].namespace), apis[0].name)] + OutNames(apis[1..], rename)
  }

  lemma {:induction false} PrintedMore(namespace: string, apis: seq<Api>, api: Api)
    ensures PrintedAll(namespace, apis + [api]) == PrintedAll(namespace, apis) + [Printed(namespace, api.name)]
  {
    if apis == [] {
      assert apis + [api] == [api];
    } else {
      assert (apis + [api])[1..] == apis[1..] + [api];
      PrintedMore(namespace, apis[1..], api);
    }
  }

  lemma NamesOf(m: Module, rest: seq<Module>, rename: string -> string)
    ensures Names([m] + rest, rename) == PrintedAll(rename(m.namespace), m.apis) + Names(rest, rename)
    ensures Names([], rename) == [] && PrintedAll(rename(m.namespace), []) == []
  {
    assert ([m] + rest)[1..] == rest;
  }

  lemma {:induction false} AddNames(modules: seq<Module>, api: Api, rename: string -> string)
    ensures multiset(Names(Add(modules, api), rename)) ==
            multiset(Names(modules, rename)) + multiset{Printed(rename(api.namespace), api.name)}
  {
    hide Names, PrintedAll, Printed;
    if modules == [] {
      var m := Module(api.namespace, []);
      NamesOf(m, [], rename);
      PrintedMore(rename(api.namespace), [], api);
      assert [] + [api] == [api] && [m.(apis := [api])] + [] == Add(modules, api);
      NamesOf(m.(apis := [api]), [], rename);
    } else {
      var m, tail := modules[0], modules[1..];
      assert modules == [m] + tail;
      NamesOf(m, tail, rename);
      if m.namespace == api.namespace {
        PrintedMore(rename(api.namespace), m.apis, api);
        NamesOf(m.(apis := m.apis + [api]), tail, rename);
      } else {
        AddNames(tail, api, rename);
        NamesOf(m, Add(tail, api), rename);
      }
    }
  }

  lemma {:induction false} OutNamesMore(apis: seq<Api>, api: Api, rename: string -> string)
    ensures OutNames(apis + [api], rename) == OutNames(apis, rename) + [Printed(rename(api.namespace), api.name)]
  {
    if apis == [] {
      assert apis + [api] == [api];
    } else {
      assert (apis + [api])[1..] == apis[1..] + [api];
      OutNamesMore(apis[1..], api, rename);
    }
  }

  /** Collecting APIs into modules keeps their printed names. */
  lemma {:induction false} CollectNames(apis: seq<Api>, rename: string -> string)
    ensures multiset(Names(Collect(apis), rename)) == multiset(OutNames(apis, rename))
    decreases |apis|
  {
    hide Names, OutNames, Printed;
    if apis == [] {
      NoNames(rename);
    } else {
      var n := |apis| - 1;
      assert apis == apis[..n] + [apis[n]];
      CollectNames(apis[..n], rename);
      AddNames(Collect(apis[..n]), apis[n], rename);
      OutNamesMore(apis[..n], apis[n], rename);
    }
  }

  lemma NoNames(rename: string -> string)
    ensures Names([], rename) == [] && OutNames([], rename) == []
  {}

  ghost predicate Lacks(modules: seq<Module>, namespace: string) {
    forall i :: 0 <= i < |modules| ==> modules[i].namespace != namespace
  }

  ghost predicate OneEach(modules: seq<Module>) {
    forall i, j :: 0 <= i < j < |modules| ==> modules[i].namespace != modules[j].namespace
  }

  lemma {:induction false} LacksAlias(modules: seq<Module>)
    requires Lacks(modules, ALIAS)
    ensures Names(modules, Back) == Names(modules, Same)
  {
    if modules != [] {
      assert Lacks(modules[1..], ALIAS);
      LacksAlias(modules[1..]);
    }
  }

  lemma {:induction false} PopNames(modules: seq<Module>)
    requires OneEach(modules)
    ensures var (found, rest) := Pop(modules, ALIAS);
            if found.None? then Lacks(modules, ALIAS) && rest == modules
            else multiset(Names(modules, Back)) ==
                 multiset(PrintedAll(DROPPED, found.value.apis)) + multiset(Names(rest, Same))
  {
    if modules != [] {
      var tail := modules[1..];
      assert OneEach(tail);
      if modules[0].namespace == ALIAS {
        assert Lacks(tail, ALIAS);
        LacksAlias(tail);
      } else {
        PopNames(tail);
        var (found, rest) := Pop(tail, ALIAS);
        assert ([modules[0]] + rest)[1..] == rest;
        if found.None? {
          assert forall i :: 0 < i < |modules| ==> modules[i] == tail[i - 1];
          assert modules == [modules[0]] + rest;
        }
      }
    }
  }

  lemma {:induction false} PopLacks(modules: seq<Module>, namespace: string, other: string)
    requires Lacks(modules, other)
    ensures Lacks(Pop(modules, namespace).1, other)
  {
    if modules != [] && modules[0].namespace != namespace {
      assert Lacks(modules[1..], other);
      PopLacks(modules[1..], namespace, other);
    }
  }

  lemma {:induction false} StoreNames(modules: seq<Module>, m: Module)
    requires Lacks(modules, m.namespace)
    ensures Names(Store(modules, m), Same) == Names(modules, Same) + PrintedAll(m.namespace, m.apis)
  {
    hide Names, PrintedAll;
    NamesOf(m, [], Same);
    if modules == [] {
      assert [m] + [] == Store(modules, m);
    } else {
      var first, tail := modules[0], modules[1..];
      assert modules == [first] + tail && Lacks(tail, m.namespace);
      StoreNames(tail, m);
      NamesOf(first, tail, Same);
      NamesOf(first, Store(tail, m), Same);
    }
  }

  lemma {:induction false} RenamedNames(apis: seq<Api>, namespace: string, printed: string)
    ensures PrintedAll(printed, RenameApis(apis, namespace)) == PrintedAll(printed, apis)
  {
    if apis != [] {
      RenamedNames(apis[1..], namespace, printed);
    }
  }

  /** Renaming the module back renames its operations back, and no others. */
  lemma UnaliasNames(modules: seq<Module>)
    requires OneEach(modules) && Lacks(modules, DROPPED)
    ensures multiset(Names(Unalias(modules), Same)) == multiset(Names(modules, Back))
  {
    hide Names, PrintedAll, OneEach, Lacks, Pop, Store;
    var (found, rest) := Pop(modules, ALIAS);
    PopNames(modules);
    if found.None? {
      LacksAlias(modules);
    } else {
      PopLacks(modules, ALIAS, DROPPED);
      StoreNames(rest, Module(DROPPED, RenameApis(found.value.apis, DROPPED)));
      RenamedNames(found.value.apis, DROPPED, DROPPED);
    }
  }

  // ---- from groups to names ----

  function Outs(groups: seq<string>): seq<string> {
    if groups == [] then [] else [Out(groups[0])] + Outs(groups[1..])
  }

  lemma {:induction false} OutsAt(groups: seq<string>)
    ensures |Outs(groups)| == |groups| && forall i :: 0 <= i < |groups| ==> Outs(groups)[i] == Out(groups[i])
  {
    hide Out;
    if groups != [] {
      OutsAt(groups[1..]);
    }
  }

  lemma {:induction false} ApiNames(groups: seq<Group<Endpoint>>)
    ensures OutNames(Apis(groups), Back) == Outs(ApiPartition.KeysOf(ApiPartition.Kept(groups)))
  {
    hide Namespace, Name, ApiPaths;
    if groups != [] {
      ApiNames(groups[1..]);
      if Namespace(groups[0].key) != DROPPED {
        assert Apis(groups)[1..] == Apis(groups[1..]);
      }
    }
  }

  /** The parsed groups: distinct, and just the aliases of the spec's groups. */
  ghost predicate ParsedFrom(parsed: seq<string>, groups: set<string>) {
    && Distinct(parsed)
    && (forall i :: 0 <= i < |parsed| ==> HasOrigin(parsed[i], groups))
    && (forall g :: g in groups ==> Aliased(g) in parsed)
  }

  lemma KeptGroups(es: seq<Endpoint>, groups: set<string>)
    requires AliasOf(es, groups)
    ensures ParsedFrom(ApiPartition.KeysOf(ApiPartition.Kept(SortedGroups(es))), groups)
  {
    hide WithKey, SortedGroups, Namespace, Aliased, HasOrigin, Le, ApiPartition.Kept;
    var all := SortedGroups(es);
    var kept := ApiPartition.Kept(all);
    var parsed := ApiPartition.KeysOf(kept);
    ApiPartition.KeptKeysAscend(es);
    ApiPartition.GroupsInFileOrder(es);
    forall i | 0 <= i < |parsed|
      ensures HasOrigin(parsed[i], groups)
    {
      ApiPartition.KeptMember(all, kept[i]);
      var e := kept[i].members[0];
      WithKeyMember(es, GroupOf, kept[i].key, e);
      var k :| 0 <= k < |es| && es[k] == e;
      assert HasOrigin(es[k].group, groups);
    }
    forall g | g in groups
      ensures Aliased(g) in parsed
    {
      var k :| 0 <= k < |es| && es[k].group == Aliased(g);
      DroppedIsPrefixed(g);
      ApiPartition.KeptCovers(es, es[k]);
    }
  }

  lemma NothingDropped(es: seq<Endpoint>, groups: set<string>)
    requires AliasOf(es, groups)
    ensures OneEach(Collect(Apis(SortedGroups(es)))) && Lacks(Collect(Apis(SortedGroups(es))), DROPPED)
  {
    hide WithKey, SortedGroups, Namespace, Collect, Apis, ApiPartition.Kept;
    var all := SortedGroups(es);
    var apis := Apis(all);
    var modules := Collect(apis);
    ApiPartition.ModulesHouse(apis);
    ApiPartition.ApisAt(all);
    forall i | 0 <= i < |modules|
      ensures modules[i].namespace != DROPPED
    {
      var api := modules[i].apis[0];
      WithKeyMember(apis, ApiPartition.NamespaceOf, modules[i].namespace, api);
      var k :| 0 <= k < |apis| && apis[k] == api;
      ApiPartition.KeptMember(all, ApiPartition.Kept(all)[k]);
    }
  }

  /** The printed names are those of the parsed groups. */
  lemma ParsedNames(es: seq<Endpoint>, groups: set<string>)
    requires AliasOf(es, groups)
    ensures var modules := Collect(Apis(SortedGroups(es)));
            multiset(OperationNames(Unalias(modules))) ==
            multiset(Outs(ApiPartition.KeysOf(ApiPartition.Kept(SortedGroups(es)))))
  {
    hide SortedGroups, Collect, Apis, Unalias, Names, Outs, ApiPartition.Kept, ApiPartition.KeysOf, SortBy, AliasOf;
    var apis := Apis(SortedGroups(es));
    NothingDropped(es, groups);
    UnaliasNames(Collect(apis));
    CollectNames(apis, Back);
    ApiNames(SortedGroups(es));
    SortBySorts(Names(Unalias(Collect(apis)), Same), Same);
  }

  lemma SortedDistinct(names: seq<string>, outs: seq<string>, s: set<string>)
    requires Sorted(names, Same) && multiset(names) == multiset(outs) && Distinct(outs)
    requires forall x :: x in outs <==> x in s
    ensures SortedSet(names, s)
  {
    forall x
      ensures multiset(names)[x] <= 1
    {
      DistinctMultiplicity(outs, x);
    }
    MultiplicityDistinct(names);
    forall x
      ensures x in names <==> x in s
    {
      assert x in names <==> x in multiset(names);
      assert x in outs <==> x in multiset(outs);
    }
    forall i, j | 0 <= i < j < |names|
      ensures Le(names[i], names[j]) && names[i] != names[j]
    {
      assert Le(Same(names[i]), Same(names[j]));
    }
  }

  lemma AllSurvive(parsed: seq<string>, groups: set<string>)
    requires ParsedFrom(parsed, groups) && forall g :: g in groups ==> Survives(g)
    ensures Distinct(Outs(parsed)) && forall x :: x in Outs(parsed) <==> x in groups
  {
    hide Out, Aliased, Survives;
    var outs := Outs(parsed);
    OutsAt(parsed);
    forall i | 0 <= i < |parsed|
      ensures outs[i] in groups && Aliased(outs[i]) == parsed[i]
    {
      var g :| g in groups && parsed[i] == Aliased(g);
      OutBack(g);
    }
    forall g | g in groups
      ensures g in outs
    {
      var i :| 0 <= i < |parsed| && parsed[i] == Aliased(g);
      OutBack(g);
      assert outs[i] == g;
    }
  }

  lemma PrintedSurvives(parsed: seq<string>, groups: set<string>, g: string)
    requires ParsedFrom(parsed, groups) && g in Outs(parsed)
    ensures Survives(g)
  {
    hide Out, Aliased, Survives;
    OutsAt(parsed);
    var i :| 0 <= i < |parsed| && Outs(parsed)[i] == g;
    assert HasOrigin(parsed[i], groups);
    var h :| h in groups && parsed[i] == Aliased(h);
    if !Survives(g) {
      OutNever(g, h);
    }
  }

  /** Aliasing loses and invents nothing exactly for the specs in which every group survives:
      then the generated names are the spec's, each once, in order; otherwise not even the
      sets agree. */
  lemma {:induction false} AliasExact(spec: Spec)
    requires OnlyOperations(spec)
    ensures ParsedModules(spec).Ok? && SpecGroups(spec).Ok?
    ensures var names, groups := OperationNames(ParsedModules(spec).value), SpecGroups(spec).value;
            && (SortedSet(names, groups) <==> forall g :: g in groups ==> Survives(g))
            && ((set n | n in names) == groups <==> forall g :: g in groups ==> Survives(g))
  {
    hide Endpoints, AliasSpec, SpecGroups, SortedGroups, Collect, Apis, Unalias, Names, SortBy, Outs, Survives,
         ApiPartition.Kept, ApiPartition.KeysOf, AliasOf, ParsedFrom, Sorted;
    AliasOfSpec(spec);
    var es, groups := Endpoints(AliasSpec(spec)).value, SpecGroups(spec).value;
    var parsed := ApiPartition.KeysOf(ApiPartition.Kept(SortedGroups(es)));
    var names := OperationNames(ParsedModules(spec).value);
    KeptGroups(es, groups);
    ParsedNames(es, groups);
    SortBySorts(Names(Unalias(Collect(Apis(SortedGroups(es)))), Same), Same);
    if forall g :: g in groups ==> Survives(g) {
      AllSurvive(parsed, groups);
      SortedDistinct(names, Outs(parsed), groups);
    }
    forall g | g in groups && g in names
      ensures Survives(g)
    {
      assert g in multiset(names) && g in multiset(Outs(parsed));
      PrintedSurvives(parsed, groups, g);
    }
  }
}
