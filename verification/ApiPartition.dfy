/**
 What read_modules (utils/generate_api.py) makes of the endpoints: every one lands in exactly
 one API, and an API lists each of its paths once, with all its methods in file order.
 */
module ApiPartition {
  import opened Prelude
  import opened StringOrder
  import opened SortGroup
  import opened ApiGen

  // ---- the collected endpoints ----

  /** The keys of a mapping are distinct. */
  ghost predicate DistinctPaths(spec: Spec) {
    forall i, j :: 0 <= i < j < |spec| ==> spec[i].path != spec[j].path
  }

  /** The spec has this endpoint: an operation with this group under this path and method, that
      is not the deprecated form of hot_threads. */
  ghost predicate InSpec(spec: Spec, e: Endpoint) {
    exists i :: 0 <= i < |spec| && spec[i].path == e.path && InItem(spec[i].entries, e)
  }

  ghost predicate InItem(entries: seq<Entry>, e: Endpoint) {
    exists j :: 0 <= j < |entries| && IsEntry(entries[j], e)
  }

  ghost predicate IsEntry(entry: Entry, e: Endpoint) {
    && entry.method_ == e.method_ && entry.definition.Operation? && entry.definition.group == Some(e.group)
    && (e.group == "nodes.hot_threads" ==> !entry.definition.deprecated)
  }

  lemma {:induction false} ItemEndpointsMeans(path: string, entries: seq<Entry>, e: Endpoint)
    requires ItemEndpoints(path, entries).Ok?
    ensures e in ItemEndpoints(path, entries).value <==> e.path == path && InItem(entries, e)
  {
    if entries != [] {
      var tail := entries[1..];
      ItemEndpointsMeans(path, tail, e);
      assert IsEntry(entries[0], e) && e.path == path <==> e in EntryEndpoints(path, entries[0]).value;
      assert forall j :: 0 <= j < |tail| ==> tail[j] == entries[j + 1];
      if InItem(entries, e) && !IsEntry(entries[0], e) {
        var j :| 0 <= j < |entries| && IsEntry(entries[j], e);
        assert IsEntry(tail[j - 1], e);
      }
    }
  }

  /** Exactly the endpoints of the spec are collected. */
  lemma {:induction false} EndpointsMeans(spec: Spec, e: Endpoint)
    requires Endpoints(spec).Ok?
    ensures e in Endpoints(spec).value <==> InSpec(spec, e)
  {
    hide InItem, ItemEndpoints;
    if spec != [] {
      var tail := spec[1..];
      EndpointsMeans(tail, e);
      ItemEndpointsMeans(spec[0].path, spec[0].entries, e);
      assert forall i :: 0 <= i < |tail| ==> tail[i] == spec[i + 1];
      if InSpec(spec, e) && !(spec[0].path == e.path && InItem(spec[0].entries, e)) {
        var i :| 0 <= i < |spec| && spec[i].path == e.path && InItem(spec[i].entries, e);
        assert tail[i - 1].path == e.path;
      }
    }
  }

  lemma {:induction false} ItemPath(path: string, entries: seq<Entry>)
    requires ItemEndpoints(path, entries).Ok?
    ensures forall e :: e in ItemEndpoints(path, entries).value ==> e.path == path
  {
    if entries != [] {
      ItemPath(path, entries[1..]);
    }
  }

  lemma {:induction false} EndpointPath(spec: Spec)
    requires Endpoints(spec).Ok?
    ensures forall e :: e in Endpoints(spec).value ==> exists i :: 0 <= i < |spec| && spec[i].path == e.path
  {
    if spec != [] {
      var first, rest := ItemEndpoints(spec[0].path, spec[0].entries).value, Endpoints(spec[1..]).value;
      ItemPath(spec[0].path, spec[0].entries);
      EndpointPath(spec[1..]);
      forall e: Endpoint | e in first + rest
        ensures exists i :: 0 <= i < |spec| && spec[i].path == e.path
      {
        if e in rest {
          var i :| 0 <= i < |spec[1..]| && spec[1..][i].path == e.path;
          assert spec[i + 1].path == e.path;
        } else {
          assert spec[0].path == e.path;
        }
      }
    }
  }

  lemma {:induction false} EndpointBlocks(spec: Spec)
    requires DistinctPaths(spec) && Endpoints(spec).Ok?
    ensures Blocks(Endpoints(spec).value, PathOf)
  {
    if spec != [] {
      var first, rest := ItemEndpoints(spec[0].path, spec[0].entries).value, Endpoints(spec[1..]).value;
      ItemPath(spec[0].path, spec[0].entries);
      EndpointPath(spec[1..]);
      EndpointBlocks(spec[1..]);
      assert forall i :: 0 <= i < |spec[1..]| ==> spec[1..][i].path != spec[0].path;
      BlocksAppend(spec[0].path, first, rest, PathOf);
    }
  }

  // ---- one API ----

  /** t is s with each ASCII letter raised. */
  ghost predicate UpperOf(t: string, s: string) {
    |t| == |s| && forall i :: 0 <= i < |s| ==>
      t[i] as int == if 97 <= s[i] as int <= 122 then s[i] as int - 32 else s[i] as int
  }

  lemma {:induction false} UpperMeans(s: string)
    ensures UpperOf(Upper(s), s)
  {
    if s != "" {
      UpperMeans(s[1..]);
    }
  }

  /** The methods are those of the endpoints, one by one, in capitals. */
  ghost predicate MethodsOf(methods: seq<string>, es: seq<Endpoint>) {
    |methods| == |es| && forall k :: 0 <= k < |es| ==> UpperOf(methods[k], es[k].method_)
  }

  lemma {:induction false} MethodsMeans(es: seq<Endpoint>)
    ensures MethodsOf(Methods(es), es)
  {
    hide UpperOf;
    if es != [] {
      MethodsMeans(es[1..]);
      UpperMeans(es[0].method_);
    }
  }

  /** The entry has the path and the method of the endpoint. */
  ghost predicate Lists(p: ApiPath, e: Endpoint) {
    p.path == e.path && exists k :: 0 <= k < |p.methods| && UpperOf(p.methods[k], e.method_)
  }

  /** The paths list exactly these endpoints: each path once, with the methods of all its
      endpoints in order, so that every endpoint is found by its path and method. */
  ghost predicate ListsExactly(paths: seq<ApiPath>, members: seq<Endpoint>) {
    && (forall i, j :: 0 <= i < j < |paths| ==> paths[i].path != paths[j].path)
    && (forall i :: 0 <= i < |paths| ==>
          paths[i].methods != [] && MethodsOf(paths[i].methods, WithKey(members, PathOf, paths[i].path)))
    && (forall e :: e in members ==> exists i :: 0 <= i < |paths| && Lists(paths[i], e))
  }

  lemma ListsMember(p: ApiPath, members: seq<Endpoint>, e: Endpoint)
    requires e in members && p.path == e.path && MethodsOf(p.methods, WithKey(members, PathOf, p.path))
    ensures Lists(p, e)
  {
    hide UpperOf;
    WithKeyMember(members, PathOf, p.path, e);
    var k :| 0 <= k < |WithKey(members, PathOf, p.path)| && WithKey(members, PathOf, p.path)[k] == e;
  }

  lemma {:induction false} ApiPathsAt(groups: seq<Group<Endpoint>>)
    ensures |ApiPaths(groups)| == |groups|
    ensures forall i :: 0 <= i < |groups| ==> ApiPaths(groups)[i] == ApiPath(groups[i].key, Methods(groups[i].members))
  {
    if groups != [] {
      ApiPathsAt(groups[1..]);
    }
  }

  lemma ApiListsExactly(members: seq<Endpoint>)
    requires Blocks(members, PathOf)
    ensures ListsExactly(ApiPaths(GroupBy(members, PathOf)), members)
  {
    hide Blocks, WithKey, GroupBy, ApiPaths, MethodsOf, Lists;
    var groups := GroupBy(members, PathOf);
    var paths := ApiPaths(groups);
    GroupByExact(members, PathOf);
    ApiPathsAt(groups);
    forall i | 0 <= i < |paths|
      ensures paths[i].methods != [] && MethodsOf(paths[i].methods, WithKey(members, PathOf, paths[i].path))
    {
      MethodsMeans(groups[i].members);
    }
    forall e | e in members
      ensures exists i :: 0 <= i < |paths| && Lists(paths[i], e)
    {
      assert HasKey(groups, PathOf(e));
      var i :| 0 <= i < |groups| && groups[i].key == e.path;
      ListsMember(paths[i], members, e);
    }
  }

  // ---- all APIs ----

  /** The groups that are not left to hand-written code. */
  function Kept(groups: seq<Group<Endpoint>>): seq<Group<Endpoint>> {
    if groups == [] then []
    else if Namespace(groups[0].key) == DROPPED then Kept(groups[1..])
    else [groups[0]] + Kept(groups[1..])
  }

  lemma {:induction false} KeptMember(groups: seq<Group<Endpoint>>, g: Group<Endpoint>)
    ensures g in Kept(groups) <==> g in groups && Namespace(g.key) != DROPPED
  {
    if groups != [] {
      KeptMember(groups[1..], g);
      assert groups == [groups[0]] + groups[1..];
    }
  }

  lemma {:induction false} KeptAscend(groups: seq<Group<Endpoint>>)
    requires Ascending(groups)
    ensures Ascending(Kept(groups))
  {
    hide Le, Namespace;
    if groups != [] {
      var rest := Kept(groups[1..]);
      assert Ascending(groups[1..]);
      KeptAscend(groups[1..]);
      forall i | 0 <= i < |rest|
        ensures Le(groups[0].key, rest[i].key) && groups[0].key != rest[i].key
      {
        KeptMember(groups[1..], rest[i]);
        var j :| 0 <= j < |groups[1..]| && groups[1..][j] == rest[i];
        assert groups[j + 1] == rest[i];
      }
    }
  }

  lemma {:induction false} ApisAt(groups: seq<Group<Endpoint>>)
    ensures |Apis(groups)| == |Kept(groups)|
    ensures forall i :: 0 <= i < |Apis(groups)| ==> Apis(groups)[i] == ApiOf(Kept(groups)[i])
  {
    hide ApiOf, Namespace;
    if groups != [] {
      ApisAt(groups[1..]);
    }
  }

  /** Because the sort is stable, a group has its endpoints in file order. */
  lemma GroupsInFileOrder(es: seq<Endpoint>)
    ensures Ascending(SortedGroups(es)) && Exact(SortedGroups(es), es, GroupOf)
  {
    hide WithKey, Ascending, GroupBy, SortBy;
    var sorted := SortBy(es, GroupOf);
    SortBySorts(es, GroupOf);
    GroupsAscend(sorted, GroupOf);
    forall g
      ensures WithKey(sorted, GroupOf, g) == WithKey(es, GroupOf, g)
    {
      SortByStable(es, GroupOf, g);
    }
    forall e | e in es
      ensures e in sorted
    {
      assert e in multiset(es);
    }
  }

  /** The API is the one that its operation group should give. */
  ghost predicate Describes(api: Api, group: string, es: seq<Endpoint>) {
    && api.namespace == Namespace(group) && api.name == Name(group)
    && api.paths != [] && ListsExactly(api.paths, WithKey(es, GroupOf, group))
  }

  /** One API for each operation group outside the dropped namespace, in ascending order of
      the groups, and each lists exactly the endpoints of its group. */
  ghost predicate Partitions(apis: seq<Api>, groups: seq<string>, es: seq<Endpoint>) {
    && |apis| == |groups|
    && (forall i, j :: 0 <= i < j < |groups| ==> Le(groups[i], groups[j]) && groups[i] != groups[j])
    && (forall i :: 0 <= i < |groups| ==> Describes(apis[i], groups[i], es))
    && (forall e :: e in es ==> (e.group in groups <==> Namespace(e.group) != DROPPED))
    && (forall g :: g in groups ==> exists e :: e in es && e.group == g)
  }

  function KeysOf(groups: seq<Group<Endpoint>>): (r: seq<string>)
    ensures |r| == |groups| && forall i :: 0 <= i < |r| ==> r[i] == groups[i].key
  {
    if groups == [] then [] else [groups[0].key] + KeysOf(groups[1..])
  }

  lemma KeptDescribe(es: seq<Endpoint>, i: nat)
    requires Blocks(es, PathOf) && i < |Kept(SortedGroups(es))|
    ensures Describes(ApiOf(Kept(SortedGroups(es))[i]), Kept(SortedGroups(es))[i].key, es)
    ensures exists e :: e in es && e.group == Kept(SortedGroups(es))[i].key
  {
    hide Blocks, WithKey, SortedGroups, Namespace, Name, ListsExactly;
    var groups := SortedGroups(es);
    var g := Kept(groups)[i];
    GroupsInFileOrder(es);
    KeptMember(groups, g);
    assert g.members == WithKey(es, GroupOf, g.key);
    BlocksWithKey(es, GroupOf, g.key, PathOf);
    ApiListsExactly(g.members);
    WithKeyMember(es, GroupOf, g.key, g.members[0]);
    ApiPathsAt(GroupBy(g.members, PathOf));
  }

  lemma KeptCovers(es: seq<Endpoint>, e: Endpoint)
    requires e in es && Namespace(e.group) != DROPPED
    ensures e.group in KeysOf(Kept(SortedGroups(es)))
  {
    hide WithKey, SortedGroups, Namespace;
    var groups := SortedGroups(es);
    var kept := Kept(groups);
    GroupsInFileOrder(es);
    assert HasKey(groups, GroupOf(e));
    var i :| 0 <= i < |groups| && groups[i].key == e.group;
    KeptMember(groups, groups[i]);
    var j :| 0 <= j < |kept| && kept[j] == groups[i];
    assert KeysOf(kept)[j] == e.group;
  }

  lemma KeptIsKept(groups: seq<Group<Endpoint>>, g: string)
    requires g in KeysOf(Kept(groups))
    ensures Namespace(g) != DROPPED
  {
    var i :| 0 <= i < |Kept(groups)| && KeysOf(Kept(groups))[i] == g;
    KeptMember(groups, Kept(groups)[i]);
  }

  lemma KeptKeysAscend(es: seq<Endpoint>)
    ensures var names := KeysOf(Kept(SortedGroups(es)));
            forall i, j :: 0 <= i < j < |names| ==> Le(names[i], names[j]) && names[i] != names[j]
  {
    hide SortedGroups, Exact, Le, Kept;
    GroupsInFileOrder(es);
    KeptAscend(SortedGroups(es));
  }

  lemma ApisPartition(es: seq<Endpoint>)
    requires Blocks(es, PathOf)
    ensures Partitions(Apis(SortedGroups(es)), KeysOf(Kept(SortedGroups(es))), es)
  {
    hide Blocks, SortedGroups, Namespace, Apis, Describes, Le, Kept, ApiOf;
    var kept := Kept(SortedGroups(es));
    var names := KeysOf(kept);
    KeptKeysAscend(es);
    ApisAt(SortedGroups(es));
    forall i | 0 <= i < |kept|
      ensures Describes(Apis(SortedGroups(es))[i], names[i], es)
      ensures exists e :: e in es && e.group == names[i]
    {
      KeptDescribe(es, i);
    }
    forall e | e in es
      ensures e.group in names <==> Namespace(e.group) != DROPPED
    {
      if Namespace(e.group) != DROPPED {
        KeptCovers(es, e);
      }
      if e.group in names {
        KeptIsKept(SortedGroups(es), e.group);
      }
    }
  }

  // ---- modules ----

  function NamespaceOf(api: Api): string {
    api.namespace
  }

  /** Each namespace has one module, which holds the namespace's APIs in order. */
  ghost predicate Houses(modules: seq<Module>, apis: seq<Api>) {
    && (forall i, j :: 0 <= i < j < |modules| ==> modules[i].namespace != modules[j].namespace)
    && (forall i :: 0 <= i < |modules| ==>
          modules[i].apis != [] && modules[i].apis == WithKey(apis, NamespaceOf, modules[i].namespace))
    && (forall api :: api in apis ==> exists i :: 0 <= i < |modules| && modules[i].namespace == api.namespace)
  }

  lemma {:induction false} AddAt(modules: seq<Module>, api: Api)
    ensures var after := Add(modules, api);
            exists n: nat :: n <= |modules| && AddedAt(modules, api, after, n)
  {
    if modules == [] {
      assert AddedAt(modules, api, Add(modules, api), 0);
    } else if modules[0].namespace == api.namespace {
      assert Add(modules, api) == modules[0 := Module(api.namespace, modules[0].apis + [api])];
      assert AddedAt(modules, api, Add(modules, api), 0);
    } else {
      AddAt(modules[1..], api);
      var n: nat :| n <= |modules[1..]| && AddedAt(modules[1..], api, Add(modules[1..], api), n);
      assert AddedAt(modules, api, Add(modules, api), n + 1);
    }
  }

  /** The API was added to the module at n, or in a new one at the end. */
  ghost predicate AddedAt(modules: seq<Module>, api: Api, after: seq<Module>, n: nat)
    requires n <= |modules|
  {
    && (forall i :: 0 <= i < n ==> modules[i].namespace != api.namespace)
    && if n == |modules| then after == modules + [Module(api.namespace, [api])]
       else modules[n].namespace == api.namespace
            && after == modules[n := Module(api.namespace, modules[n].apis + [api])]
  }

  lemma {:induction false} ModulesHouse(apis: seq<Api>)
    ensures Houses(Collect(apis), apis)
    decreases |apis|
  {
    if apis != [] {
      var n := |apis| - 1;
      assert apis == apis[..n] + [apis[n]];
      ModulesHouse(apis[..n]);
      HousesMore(Collect(apis[..n]), apis[..n], apis[n]);
    }
  }

  lemma HousesMore(modules: seq<Module>, apis: seq<Api>, api: Api)
    requires Houses(modules, apis)
    ensures Houses(Add(modules, api), apis + [api])
  {
    hide WithKey, Add;
    var after := Add(modules, api);
    AddAt(modules, api);
    var n: nat :| n <= |modules| && AddedAt(modules, api, after, n);
    forall g
      ensures WithKey(apis + [api], NamespaceOf, g) ==
              WithKey(apis, NamespaceOf, g) + (if api.namespace == g then [api] else [])
    {
      OneWithKey(apis, api, g);
    }
    if n == |modules| {
      forall a | a in apis
        ensures a.namespace != api.namespace
      {
        var i :| 0 <= i < |modules| && modules[i].namespace == a.namespace;
      }
      NoneWithKey(apis, NamespaceOf, api.namespace);
    }
    forall a | a in apis + [api]
      ensures exists i :: 0 <= i < |after| && after[i].namespace == a.namespace
    {
      if a in apis {
        var i :| 0 <= i < |modules| && modules[i].namespace == a.namespace;
        assert after[i].namespace == a.namespace;
      } else {
        assert after[n].namespace == a.namespace;
      }
    }
  }

  lemma OneWithKey(apis: seq<Api>, api: Api, g: string)
    ensures WithKey(apis + [api], NamespaceOf, g) ==
            WithKey(apis, NamespaceOf, g) + (if api.namespace == g then [api] else [])
  {
    WithKeySplit(apis, [api], NamespaceOf, g);
    assert [api][1..] == [];
  }

  /** read_modules partitions the endpoints: those not skipped and not in the dropped
      namespace go to one API each, and each API to one module. */
  lemma ReadModulesPartitions(spec: Spec)
    requires DistinctPaths(spec) && Modules(spec).Ok?
    ensures var es := Endpoints(spec).value;
            var apis := Apis(SortedGroups(es));
            && Partitions(apis, KeysOf(Kept(SortedGroups(es))), es)
            && Houses(Modules(spec).value, apis)
  {
    hide Partitions, Houses, Apis, Collect;
    EndpointBlocks(spec);
    ApisPartition(Endpoints(spec).value);
    ModulesHouse(Apis(SortedGroups(Endpoints(spec).value)));
  }

  /** Every endpoint of the spec outside the dropped namespace is listed by one API, the one of
      its group. */
  lemma EndpointLands(spec: Spec, e: Endpoint) returns (i: nat)
    requires DistinctPaths(spec) && Modules(spec).Ok? && InSpec(spec, e) && Namespace(e.group) != DROPPED
    ensures var es := Endpoints(spec).value;
            var apis, names := Apis(SortedGroups(es)), KeysOf(Kept(SortedGroups(es)));
            && i < |apis| == |names| && names[i] == e.group && (forall j :: 0 <= j < |names| && j != i ==> names[j] != e.group)
            && Describes(apis[i], e.group, es)
            && exists p :: p in apis[i].paths && Lists(p, e)
  {
    hide Houses, Apis, Kept, SortedGroups, Collect, Namespace, InSpec, Lists, WithKey;
    var es := Endpoints(spec).value;
    var apis, names := Apis(SortedGroups(es)), KeysOf(Kept(SortedGroups(es)));
    ReadModulesPartitions(spec);
    EndpointsMeans(spec, e);
    i :| 0 <= i < |names| && names[i] == e.group;
    assert Describes(apis[i], names[i], es);
    WithKeyMember(es, GroupOf, e.group, e);
    var k :| 0 <= k < |apis[i].paths| && Lists(apis[i].paths[k], e);
    assert apis[i].paths[k] in apis[i].paths;
  }
}
