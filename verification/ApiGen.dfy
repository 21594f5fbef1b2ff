/**
 From the paths of a specification to APIs (read_modules in utils/generate_api.py): collect
 the endpoints, sort them by operation group, group neighbours by operation group and then
 by path.
 */
module ApiGen {
  import opened Prelude
  import opened SortGroup

  /** A value under a path item: a mapping with its x-operation-group, or something else. */
  datatype Definition = Operation(group: Option<string>, deprecated: bool) | NotMapping

  datatype Entry = Entry(method_: string, definition: Definition)

  /** A path and its entries in file order. */
  datatype PathItem = PathItem(path: string, entries: seq<Entry>)

  type Spec = seq<PathItem>

  datatype Endpoint = Endpoint(group: string, path: string, method_: string)

  datatype ApiPath = ApiPath(path: string, methods: seq<string>)

  datatype Api = Api(namespace: string, name: string, paths: seq<ApiPath>)

  datatype Module = Module(namespace: string, apis: seq<Api>)

  /** Where reading raises: an entry that is no mapping or has no operation group. */
  datatype Unreadable = Unreadable(path: string, method_: string)

  // ---- collecting ----

  predicate IsSkipped(group: string, deprecated: bool) {
    group == "nodes.hot_threads" && deprecated
  }

  function EntryEndpoints(path: string, e: Entry): Result<seq<Endpoint>, Unreadable> {
    if !e.definition.Operation? || e.definition.group.None? then Err(Unreadable(path, e.method_))
    else if IsSkipped(e.definition.group.value, e.definition.deprecated) then Ok([])
    else Ok([Endpoint(e.definition.group.value, path, e.method_)])
  }

  function Then(first: Result<seq<Endpoint>, Unreadable>, rest: Result<seq<Endpoint>, Unreadable>)
    : Result<seq<Endpoint>, Unreadable>
  {
    if first.Err? then first else if rest.Err? then rest else Ok(first.value + rest.value)
  }

  function ItemEndpoints(path: string, entries: seq<Entry>): Result<seq<Endpoint>, Unreadable> {
    if entries == [] then Ok([])
    else Then(EntryEndpoints(path, entries[0]), ItemEndpoints(path, entries[1..]))
  }

  /** Every endpoint that is not skipped, in file order. */
  function Endpoints(spec: Spec): Result<seq<Endpoint>, Unreadable> {
    if spec == [] then Ok([])
    else Then(ItemEndpoints(spec[0].path, spec[0].entries), Endpoints(spec[1..]))
  }

  // ---- grouping ----

  function GroupOf(e: Endpoint): string {
    e.group
  }

  function PathOf(e: Endpoint): string {
    e.path
  }

  function UpperChar(c: char): char {
    if 'a' <= c <= 'z' then c - 'a' + 'A' else c
  }

  function Upper(s: string): string {
    if s == "" then "" else [UpperChar(s[0])] + Upper(s[1..])
  }

  function Methods(es: seq<Endpoint>): seq<string> {
    if es == [] then [] else [Upper(es[0].method_)] + Methods(es[1..])
  }

  function ApiPaths(groups: seq<Group<Endpoint>>): seq<ApiPath> {
    if groups == [] then []
    else [ApiPath(groups[0].key, Methods(groups[0].members))] + ApiPaths(groups[1..])
  }

  /** The position of the last dot. */
  function LastDot(s: string): (r: Option<nat>)
    ensures r.Some? ==> r.value < |s| && s[r.value] == '.' && '.' !in s[r.value + 1..]
    ensures r.None? ==> '.' !in s
  {
    if s == "" then None
    else if s[|s| - 1] == '.' then Some(|s| - 1)
    else
      var r := LastDot(s[..|s| - 1]);
      assert s == s[..|s| - 1] + [s[|s| - 1]];
      assert r.Some? ==> s[r.value + 1..] == s[..|s| - 1][r.value + 1..] + [s[|s| - 1]];
      r
  }

  function Namespace(group: string): string {
    if LastDot(group).Some? then group[..LastDot(group).value] else "__init__"
  }

  function Name(group: string): string {
    if LastDot(group).Some? then group[LastDot(group).value + 1..] else group
  }

  /** The namespace that the generator leaves to hand-written code. */
  const DROPPED := "ism"

  function ApiOf(g: Group<Endpoint>): Api {
    Api(Namespace(g.key), Name(g.key), ApiPaths(GroupBy(g.members, PathOf)))
  }

  /** The APIs in sorted order of their groups. */
  function Apis(groups: seq<Group<Endpoint>>): seq<Api> {
    if groups == [] then []
    else if Namespace(groups[0].key) == DROPPED then Apis(groups[1..])
    else [ApiOf(groups[0])] + Apis(groups[1..])
  }

  function SortedGroups(es: seq<Endpoint>): seq<Group<Endpoint>> {
    GroupBy(SortBy(es, GroupOf), GroupOf)
  }

  /** The API goes to its namespace's module, a new one if there is none. */
  function Add(modules: seq<Module>, api: Api): seq<Module> {
    if modules == [] then [Module(api.namespace, [api])]
    else if modules[0].namespace == api.namespace then
      [Module(api.namespace, modules[0].apis + [api])] + modules[1..]
    else [modules[0]] + Add(modules[1..], api)
  }

  function Collect(apis: seq<Api>): seq<Module> {
    if apis == [] then [] else Add(Collect(apis[..|apis| - 1]), apis[|apis| - 1])
  }

  function Modules(spec: Spec): Result<seq<Module>, Unreadable> {
    match Endpoints(spec)
    case Err(e) => Err(e)
    case Ok(es) => Ok(Collect(Apis(SortedGroups(es))))
  }

  // ---- the code ----

  lemma ThenAssociates(a: Result<seq<Endpoint>, Unreadable>, b: Result<seq<Endpoint>, Unreadable>,
                                          c: Result<seq<Endpoint>, Unreadable>)
    ensures Then(a, Then(b, c)) == Then(Then(a, b), c)
  {
    if a.Ok? && b.Ok? && c.Ok? {
      assert a.value + (b.value + c.value) == (a.value + b.value) + c.value;
    }
  }

  lemma ThenNothing(a: Result<seq<Endpoint>, Unreadable>)
    ensures Then(Ok([]), a) == Then(a, Ok([])) == a
  {
    if a.Ok? {
      assert [] + a.value == a.value && a.value + [] == a.value;
    }
  }

  /** The nested loops over the paths and their methods. */
  method CollectEndpoints(spec: Spec) returns (r: Result<seq<Endpoint>, Unreadable>)
    ensures r == Endpoints(spec)
  {
    var found := [];
    assert spec[0..] == spec;
    ThenNothing(Endpoints(spec));
    for i := 0 to |spec|
      invariant Endpoints(spec) == Then(Ok(found), Endpoints(spec[i..]))
    {
      assert spec[i..][1..] == spec[i + 1..];
      var path, entries := spec[i].path, spec[i].entries;
      assert entries[0..] == entries;
      ghost var later := Endpoints(spec[i + 1..]);
      ThenAssociates(Ok(found), ItemEndpoints(path, entries), later);
      for j := 0 to |entries|
        invariant Endpoints(spec) == Then(Then(Ok(found), ItemEndpoints(path, entries[j..])), later)
      {
        assert entries[j..][1..] == entries[j + 1..];
        var e := entries[j];
        ThenAssociates(Ok(found), EntryEndpoints(path, e), ItemEndpoints(path, entries[j + 1..]));
        ThenNothing(Ok(found));
        if !e.definition.Operation? || e.definition.group.None? {
          return Err(Unreadable(path, e.method_));
        }
        if IsSkipped(e.definition.group.value, e.definition.deprecated) {
          continue;
        }
        found := found + [Endpoint(e.definition.group.value, path, e.method_)];
      }
      ThenNothing(Ok(found));
    }
    ThenNothing(Ok(found));
    return Ok(found);
  }

  /** The inner groupby: the paths of one group with their methods. */
  method GroupPaths(members: seq<Endpoint>) returns (paths: seq<ApiPath>)
    ensures paths == ApiPaths(GroupBy(members, PathOf))
  {
    var groups := GroupBy(members, PathOf);
    paths := [];
    assert groups[0..] == groups;
    for i := 0 to |groups|
      invariant ApiPaths(groups) == paths + ApiPaths(groups[i..])
    {
      assert groups[i..][1..] == groups[i + 1..];
      var inside := groups[i].members;
      var methods := [];
      assert inside[0..] == inside;
      for j := 0 to |inside|
        invariant Methods(inside) == methods + Methods(inside[j..])
      {
        assert inside[j..][1..] == inside[j + 1..];
        methods := methods + [Upper(inside[j].method_)];
      }
      assert methods + [] == methods;
      paths := paths + [ApiPath(groups[i].key, methods)];
    }
    assert paths + [] == paths;
  }

  /** modules[namespace].add(api), after making the module if it is new. */
  method AddApi(modules: seq<Module>, api: Api) returns (after: seq<Module>)
    ensures after == Add(modules, api)
  {
    var i := 0;
    assert modules[0..] == modules;
    while i < |modules| && modules[i].namespace != api.namespace
      invariant i <= |modules|
      invariant Add(modules, api) == modules[..i] + Add(modules[i..], api)
    {
      assert modules[i..][1..] == modules[i + 1..] && modules[..i + 1] == modules[..i] + [modules[i]];
      i := i + 1;
    }
    if i == |modules| {
      return modules + [Module(api.namespace, [api])];
    }
    assert modules[i..][1..] == modules[i + 1..];
    return modules[..i] + [Module(api.namespace, modules[i].apis + [api])] + modules[i + 1..];
  }

  method ReadModules(spec: Spec) returns (r: Result<seq<Module>, Unreadable>)
    ensures r == Modules(spec)
  {
    hide GroupBy, SortBy, LastDot, Namespace, Name, ApiPaths, Add, Endpoints;
    var endpoints := CollectEndpoints(spec);
    if endpoints.Err? {
      return Err(endpoints.error);
    }
    var groups := SortedGroups(endpoints.value);
    var modules: seq<Module> := [];
    ghost var apis := Apis(groups);
    ghost var done := [];
    assert groups[0..] == groups && done + apis == apis;
    for i := 0 to |groups|
      invariant apis == done + Apis(groups[i..]) && modules == Collect(done)
    {
      assert groups[i..][1..] == groups[i + 1..];
      var namespace, name := Namespace(groups[i].key), Name(groups[i].key);
      if namespace == DROPPED {
        continue;
      }
      var paths := GroupPaths(groups[i].members);
      var api := Api(namespace, name, paths);
      modules := AddApi(modules, api);
      assert done + ([api] + Apis(groups[i + 1..])) == (done + [api]) + Apis(groups[i + 1..]);
      done := done + [api];
    }
    assert done + [] == done;
    return Ok(modules);
  }
}
