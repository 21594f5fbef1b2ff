/**
 deep_merge as it runs (aws_client_codegen/api_spec/overlay.py): dictionaries and lists are
 objects on the heap, changed in place, and what is taken over from the update is copied.
 */
module MergeHeap {
  import opened Prelude
  import opened OverlayMerge
  import J = Json

  /** A mapping or a list; text and scalars are values. */
  class Node {
    var content: Content

    constructor (content: Content)
      ensures this.content == content
    {
      this.content := content;
    }
  }

  datatype Content = Mapping(entries: map<string, Value>) | Listing(elements: seq<Value>)

  datatype Value = Ref(node: Node) | Text(text: string) | Scalar(text: string)

  /** The objects of a value, laid out as a tree. */
  datatype Shape =
    | Leaf
    | Branch(node: Node, children: map<string, Shape>)
    | Row(node: Node, items: seq<Shape>)

  ghost function Nodes(s: Shape): set<Node> {
    match s
    case Leaf => {}
    case Branch(node, children) => {node} + set k, n | k in children && n in Nodes(children[k]) :: n
    case Row(node, items) => {node} + set i, n | 0 <= i < |items| && n in Nodes(items[i]) :: n
  }

  /** No object is met twice. */
  ghost predicate Tree(s: Shape) {
    match s
    case Leaf => true
    case Branch(node, children) =>
      && (forall k :: k in children ==> Tree(children[k]) && node !in Nodes(children[k]))
      && (forall k, l :: k in children && l in children && k != l ==> Nodes(children[k]) !! Nodes(children[l]))
    case Row(node, items) =>
      && (forall i :: 0 <= i < |items| ==> Tree(items[i]) && node !in Nodes(items[i]))
      && (forall i, j :: 0 <= i < j < |items| ==> Nodes(items[i]) !! Nodes(items[j]))
  }

  /** The value on the heap has this shape. */
  ghost predicate Matches(s: Shape, v: Value)
    reads Nodes(s)
  {
    match s
    case Leaf => !v.Ref?
    case Branch(node, children) =>
      && v == Ref(node) && node.content.Mapping? && node.content.entries.Keys == children.Keys
      && forall k :: k in children ==> Matches(children[k], node.content.entries[k])
    case Row(node, items) =>
      && v == Ref(node) && node.content.Listing? && |node.content.elements| == |items|
      && forall i :: 0 <= i < |items| ==> Matches(items[i], node.content.elements[i])
  }

  /** The document that the value stands for. */
  ghost function Abs(s: Shape, v: Value): J.Json
    requires Matches(s, v)
    reads Nodes(s)
  {
    match s
    case Leaf => if v.Text? then J.Str(v.text) else J.Atom(v.text)
    case Branch(node, children) => J.Obj(map k | k in children :: Abs(children[k], node.content.entries[k]))
    case Row(node, items) =>
      J.Arr(seq(|items|, i requires 0 <= i < |items| && Matches(s, v) reads Nodes(s) =>
        Abs(items[i], node.content.elements[i])))
  }

  // ---- the entries of a mapping ----

  ghost function Under(children: map<string, Shape>): set<Node> {
    set k, n | k in children && n in Nodes(children[k]) :: n
  }

  ghost predicate Forest(children: map<string, Shape>) {
    && (forall k :: k in children ==> Tree(children[k]))
    && (forall k, l :: k in children && l in children && k != l ==> Nodes(children[k]) !! Nodes(children[l]))
  }

  ghost predicate MatchAll(children: map<string, Shape>, entries: map<string, Value>)
    reads Under(children)
  {
    entries.Keys == children.Keys && forall k :: k in children ==> Matches(children[k], entries[k])
  }

  ghost function AbsAll(children: map<string, Shape>, entries: map<string, Value>): map<string, J.Json>
    requires MatchAll(children, entries)
    reads Under(children)
  {
    map k | k in children :: Abs(children[k], entries[k])
  }

  lemma BranchMeans(node: Node, children: map<string, Shape>)
    ensures var s := Branch(node, children);
            && Nodes(s) == {node} + Under(children)
            && (Tree(s) <==> Forest(children) && node !in Under(children))
            && (Matches(s, Ref(node)) <==> node.content.Mapping? && MatchAll(children, node.content.entries))
            && (Matches(s, Ref(node)) ==> Abs(s, Ref(node)) == J.Obj(AbsAll(children, node.content.entries)))
  {
    var s := Branch(node, children);
    assert Nodes(s) == {node} + Under(children);
    if Tree(s) {
      assert node !in Under(children);
    }
    if Forest(children) && node !in Under(children) {
      forall k | k in children
        ensures node !in Nodes(children[k])
      {
        assert forall n :: n in Nodes(children[k]) ==> n in Under(children);
      }
    }
  }

  /** From an object's shape to its entries. */
  lemma Opened(node: Node, s: Shape)
    requires s.Branch? && Matches(s, Ref(node)) && Tree(s)
    ensures s.node == node && node.content.Mapping? && Forest(s.children) && MatchAll(s.children, node.content.entries)
    ensures Nodes(s) == {node} + Under(s.children) && node !in Under(s.children)
    ensures Abs(s, Ref(node)) == J.Obj(AbsAll(s.children, node.content.entries))
  {
    BranchMeans(node, s.children);
  }

  /** From the entries to the object's shape. */
  lemma Grown(node: Node, children: map<string, Shape>)
    requires node.content.Mapping? && Forest(children) && MatchAll(children, node.content.entries)
    requires node !in Under(children)
    ensures var s := Branch(node, children);
            && Matches(s, Ref(node)) && Tree(s) && Nodes(s) == {node} + Under(children)
            && Abs(s, Ref(node)) == J.Obj(AbsAll(children, node.content.entries))
  {
    BranchMeans(node, children);
  }

  lemma Child(children: map<string, Shape>, entries: map<string, Value>, k: string)
    requires Forest(children) && MatchAll(children, entries) && k in children
    ensures k in entries && Matches(children[k], entries[k]) && Tree(children[k])
    ensures k in AbsAll(children, entries) && AbsAll(children, entries)[k] == Abs(children[k], entries[k])
    ensures Nodes(children[k]) <= Under(children)
  {}

  /** The entries without one of them: its objects are not among the others'. */
  lemma Apart(children: map<string, Shape>, entries: map<string, Value>, k: string)
    requires Forest(children) && MatchAll(children, entries)
    ensures var rest := children - {k};
            && Forest(rest) && MatchAll(rest, entries - {k})
            && AbsAll(rest, entries - {k}) == AbsAll(children, entries) - {k}
            && Under(rest) <= Under(children)
            && (k in children ==> Nodes(children[k]) !! Under(rest))
  {
    hide Nodes, Tree, Abs, Matches;
  }

  lemma OneMore(children: map<string, Shape>, entries: map<string, Value>, k: string, s: Shape, v: Value)
    requires Forest(children) && MatchAll(children, entries) && k !in children
    requires Tree(s) && Matches(s, v) && Nodes(s) !! Under(children)
    ensures var more := children[k := s];
            && Forest(more) && MatchAll(more, entries[k := v])
            && AbsAll(more, entries[k := v]) == AbsAll(children, entries)[k := Abs(s, v)]
            && Under(more) == Under(children) + Nodes(s)
  {
    hide Nodes, Tree, Abs, Matches;
    var more := children[k := s];
    forall l | l in children
      ensures Nodes(children[l]) !! Nodes(s)
    {
      assert forall n :: n in Nodes(children[l]) ==> n in Under(children);
    }
    forall n | n in Under(children) + Nodes(s)
      ensures n in Under(more)
    {
      if n in Nodes(s) {
        assert more[k] == s;
      } else {
        var l :| l in children && n in Nodes(children[l]);
        assert more[l] == children[l];
      }
    }
  }

  // ---- the elements of a list ----

  ghost function Across(items: seq<Shape>): set<Node> {
    set i, n | 0 <= i < |items| && n in Nodes(items[i]) :: n
  }

  ghost predicate Orchard(items: seq<Shape>) {
    && (forall i :: 0 <= i < |items| ==> Tree(items[i]))
    && (forall i, j :: 0 <= i < j < |items| ==> Nodes(items[i]) !! Nodes(items[j]))
  }

  ghost predicate MatchEach(items: seq<Shape>, elements: seq<Value>)
    reads Across(items)
  {
    |elements| == |items| && forall i :: 0 <= i < |items| ==> Matches(items[i], elements[i])
  }

  /** The elements stand for these documents. */
  ghost predicate StandFor(items: seq<Shape>, elements: seq<Value>, documents: seq<J.Json>)
    requires MatchEach(items, elements)
    reads Across(items)
  {
    |documents| == |items| && forall i :: 0 <= i < |items| ==> Abs(items[i], elements[i]) == documents[i]
  }

  lemma RowMeans(node: Node, items: seq<Shape>)
    ensures var s := Row(node, items);
            && Nodes(s) == {node} + Across(items)
            && (Tree(s) <==> Orchard(items) && node !in Across(items))
            && (Matches(s, Ref(node)) <==> node.content.Listing? && MatchEach(items, node.content.elements))
            && (Matches(s, Ref(node)) ==> Abs(s, Ref(node)).Arr?
                                          && StandFor(items, node.content.elements, Abs(s, Ref(node)).items))
  {
    var s := Row(node, items);
    assert Nodes(s) == {node} + Across(items);
    if Orchard(items) && node !in Across(items) {
      forall i | 0 <= i < |items|
        ensures node !in Nodes(items[i])
      {
        assert forall n :: n in Nodes(items[i]) ==> n in Across(items);
      }
    }
  }

  lemma RowAt(items: seq<Shape>, elements: seq<Value>, documents: seq<J.Json>, i: nat)
    requires Orchard(items) && MatchEach(items, elements) && StandFor(items, elements, documents) && i < |items|
    ensures Matches(items[i], elements[i]) && Tree(items[i]) && Nodes(items[i]) <= Across(items)
    ensures Abs(items[i], elements[i]) == documents[i]
  {}

  lemma Appended(items: seq<Shape>, elements: seq<Value>, s: Shape, v: Value, documents: seq<J.Json>)
    requires Orchard(items) && MatchEach(items, elements) && StandFor(items, elements, documents)
    requires Tree(s) && Matches(s, v) && Nodes(s) !! Across(items)
    ensures Orchard(items + [s]) && MatchEach(items + [s], elements + [v])
    ensures StandFor(items + [s], elements + [v], documents + [Abs(s, v)])
    ensures Across(items + [s]) == Across(items) + Nodes(s)
  {
    hide Nodes, Tree, Abs, Matches;
    var more := items + [s];
    forall i | 0 <= i < |items|
      ensures Nodes(items[i]) !! Nodes(s)
    {
      assert forall n :: n in Nodes(items[i]) ==> n in Across(items);
    }
    forall n | n in Across(items) + Nodes(s)
      ensures n in Across(more)
    {
      if n in Nodes(s) {
        assert more[|items|] == s;
      } else {
        var i :| 0 <= i < |items| && n in Nodes(items[i]);
        assert more[i] == items[i];
      }
    }
  }

  // ---- copying ----

  /** copy.deepcopy: new objects that stand for the same document. */
  method DeepCopy(v: Value, ghost s: Shape) returns (c: Value, ghost cs: Shape)
    requires Matches(s, v) && Tree(s)
    ensures Matches(cs, c) && Tree(cs) && fresh(Nodes(cs))
    ensures Abs(cs, c) == old(Abs(s, v))
    decreases s, 1
  {
    if !v.Ref? {
      return v, Leaf;
    }
    match v.node.content
    case Mapping(_) =>
      c, cs := CopyMapping(v.node, s);
    case Listing(_) =>
      c, cs := CopyListing(v.node, s);
  }

  method CopyMapping(node: Node, ghost s: Shape) returns (c: Value, ghost cs: Shape)
    requires s.Branch? && Matches(s, Ref(node)) && Tree(s)
    ensures Matches(cs, c) && Tree(cs) && fresh(Nodes(cs))
    ensures Abs(cs, c) == old(Abs(s, Ref(node)))
    decreases s, 0, 1
  {
    hide Nodes, Tree, Matches, Abs, Under, Forest, MatchAll, AbsAll;
    Opened(node, s);
    var entries, children := CopyEntries(node.content.entries, s);
    assert allocated(Under(children));
    var made := new Node(Mapping(entries));
    Grown(made, children);
    c, cs := Ref(made), Branch(made, children);
  }

  method CopyEntries(source: map<string, Value>, ghost s: Shape)
      returns (entries: map<string, Value>, ghost children: map<string, Shape>)
    requires s.Branch? && Forest(s.children) && MatchAll(s.children, source)
    ensures Forest(children) && fresh(Under(children)) && MatchAll(children, entries)
    ensures AbsAll(children, entries) == old(AbsAll(s.children, source))
    decreases s, 0, 0
  {
    hide Nodes, Tree, Matches, Abs, Under, Forest, MatchAll, AbsAll;
    ghost var from := AbsAll(s.children, source);
    entries, children := map[], map[];
    Nothing();
    SameKeys(s.children, source);
    var pending := source.Keys;
    while pending != {}
      invariant pending <= source.Keys
      invariant MatchAll(s.children, source) && AbsAll(s.children, source) == from
      invariant Forest(children) && fresh(Under(children)) && MatchAll(children, entries)
      invariant children.Keys == source.Keys - pending
      invariant AbsAll(children, entries) == from - pending
      decreases pending
    {
      var k :| k in pending;
      Child(s.children, source, k);
      assert allocated(Under(s.children)) && allocated(Under(children));
      var copy, shape := DeepCopy(source[k], s.children[k]);
      OneMore(children, entries, k, shape, copy);
      entries := entries[k := copy];
      children := children[k := shape];
      pending := pending - {k};
    }
    assert from - {} == from;
  }

  lemma Nothing()
    ensures Forest(map[]) && Under(map[]) == {} && MatchAll(map[], map[]) && AbsAll(map[], map[]) == map[]
  {}

  lemma SameKeys(children: map<string, Shape>, entries: map<string, Value>)
    requires MatchAll(children, entries)
    ensures children.Keys == entries.Keys == AbsAll(children, entries).Keys
  {}

  method CopyListing(node: Node, ghost s: Shape) returns (c: Value, ghost cs: Shape)
    requires s.Row? && Matches(s, Ref(node)) && Tree(s)
    ensures Matches(cs, c) && Tree(cs) && fresh(Nodes(cs))
    ensures Abs(cs, c) == old(Abs(s, Ref(node)))
    decreases s, 0, 1
  {
    assert s.node == node;
    hide Nodes, Tree, Matches, Abs, Across, Orchard, MatchEach, StandFor;
    RowMeans(node, s.items);
    ghost var from := Abs(s, Ref(node)).items;
    var elements, items := CopyElements(node.content.elements, s, from);
    assert allocated(Across(items));
    var made := new Node(Listing(elements));
    RowMeans(made, items);
    c, cs := Ref(made), Row(made, items);
    SameDocuments(items, elements, from, Abs(cs, c).items);
  }

  method CopyElements(source: seq<Value>, ghost s: Shape, ghost from: seq<J.Json>)
      returns (elements: seq<Value>, ghost items: seq<Shape>)
    requires s.Row? && Orchard(s.items) && MatchEach(s.items, source) && StandFor(s.items, source, from)
    ensures Orchard(items) && fresh(Across(items)) && MatchEach(items, elements)
    ensures StandFor(items, elements, from)
    decreases s, 0, 0
  {
    hide Nodes, Tree, Matches, Abs, Across, Orchard, MatchEach, StandFor;
    elements, items := [], [];
    NoElements();
    SameLengths(s.items, source, from);
    for i := 0 to |source|
      invariant MatchEach(s.items, source) && StandFor(s.items, source, from)
      invariant Orchard(items) && fresh(Across(items)) && MatchEach(items, elements)
      invariant StandFor(items, elements, from[..i])
    {
      RowAt(s.items, source, from, i);
      assert allocated(Across(s.items)) && allocated(Across(items));
      var copy, shape := DeepCopy(source[i], s.items[i]);
      Appended(items, elements, shape, copy, from[..i]);
      assert from[..i] + [from[i]] == from[..i + 1];
      elements := elements + [copy];
      items := items + [shape];
    }
    assert from[..|source|] == from;
  }

  lemma NoElements()
    ensures Orchard([]) && Across([]) == {} && MatchEach([], []) && StandFor([], [], [])
  {}

  lemma SameLengths(items: seq<Shape>, elements: seq<Value>, documents: seq<J.Json>)
    requires MatchEach(items, elements) && StandFor(items, elements, documents)
    ensures |items| == |elements| == |documents|
  {}

  lemma SameDocuments(items: seq<Shape>, elements: seq<Value>, a: seq<J.Json>, b: seq<J.Json>)
    requires MatchEach(items, elements) && StandFor(items, elements, a) && StandFor(items, elements, b)
    ensures a == b
  {
    assert forall i :: 0 <= i < |items| ==> a[i] == Abs(items[i], elements[i]) == b[i];
  }

  // ---- merging ----

  lemma Kind(s: Shape, v: Value)
    requires Matches(s, v)
    ensures Abs(s, v).Obj? <==> v.Ref? && v.node.content.Mapping?
    ensures Abs(s, v).Obj? ==> s.Branch? && s.node == v.node
  {}

  /** The update's mapping cut down to some keys. */
  ghost function Only(u: J.Json, keys: set<string>): (r: J.Json)
    requires u.Obj?
    ensures r.Obj?
  {
    J.Obj(map k | k in u.fields && k in keys :: u.fields[k])
  }

  /** The value at one key after merging the update's value into it. */
  ghost function Combined(fields: map<string, J.Json>, k: string, v: J.Json): J.Json {
    if k in fields && fields[k].Obj? && v.Obj? then Merge(fields[k], v) else v
  }

  lemma {:induction false} MergeOneMore(t: J.Json, u: J.Json, done: set<string>, k: string)
    requires t.Obj? && u.Obj? && k in u.fields && k !in done
    ensures var before := Merge(t, Only(u, done)).fields;
            Merge(t, Only(u, done + {k})).fields == before[k := Combined(before, k, u.fields[k])]
  {
    var before, after := Merge(t, Only(u, done)).fields, Merge(t, Only(u, done + {k})).fields;
    assert k in before <==> k in t.fields;
    assert after == before[k := Combined(before, k, u.fields[k])];
  }

  /** One turn of the loop of deep_merge: the update's value at one key. */
  method MergeKey(target: Node, k: string, v: Value, ghost children: map<string, Shape>, ghost s: Shape)
      returns (ghost after: map<string, Shape>, ghost made: set<Node>)
    requires target.content.Mapping? && Forest(children) && MatchAll(children, target.content.entries)
    requires target !in Under(children)
    requires Matches(s, v) && Tree(s) && Nodes(s) !! Under(children) && target !in Nodes(s)
    modifies {target} + Under(children)
    ensures target.content.Mapping? && Forest(after) && MatchAll(after, target.content.entries)
    ensures target !in Under(after) && Under(after) <= Under(children) + made && fresh(made)
    ensures var before := old(AbsAll(children, target.content.entries));
            AbsAll(after, target.content.entries) == before[k := Combined(before, k, old(Abs(s, v)))]
    decreases s, 2
  {
    hide Nodes, Tree, Matches, Abs, Under, Forest, MatchAll, AbsAll;
    var entries := target.content.entries;
    ghost var others := children - {k};
    SameKeys(children, entries);
    Apart(children, entries, k);
    Kind(s, v);
    if k in entries {
      Child(children, entries, k);
      Kind(children[k], entries[k]);
    }
    assert allocated(Under(others)) && allocated(Nodes(s));
    if k in entries && entries[k].Ref? && entries[k].node.content.Mapping? && v.Ref? && v.node.content.Mapping? {
      ghost var merged;
      merged, made := MergeInto(entries[k].node, v.node, children[k], s);
      OneMore(others, entries - {k}, k, merged, entries[k]);
      assert (entries - {k})[k := entries[k]] == entries;
      after := others[k := merged];
    } else {
      var copy, shape := DeepCopy(v, s);
      OneMore(others, entries - {k}, k, shape, copy);
      assert (entries - {k})[k := copy] == entries[k := copy];
      after, made := others[k := shape], Nodes(shape);
      assert allocated(Under(after));
      target.content := Mapping(entries[k := copy]);
    }
  }

  /** The loop of deep_merge. */
  method MergeEntries(target: Node, source: map<string, Value>, ghost ts: Shape, ghost us: Shape)
      returns (ghost after: map<string, Shape>, ghost made: set<Node>)
    requires ts.Branch? && us.Branch?
    requires target.content.Mapping? && Forest(ts.children) && MatchAll(ts.children, target.content.entries)
    requires Forest(us.children) && MatchAll(us.children, source)
    requires target !in Under(ts.children) && target !in Under(us.children) && Under(ts.children) !! Under(us.children)
    modifies {target} + Under(ts.children)
    ensures target.content.Mapping? && Forest(after) && MatchAll(after, target.content.entries)
    ensures target !in Under(after) && Under(after) <= Under(ts.children) + made && fresh(made)
    ensures J.Obj(AbsAll(after, target.content.entries)) ==
            Merge(J.Obj(old(AbsAll(ts.children, target.content.entries))), J.Obj(old(AbsAll(us.children, source))))
    decreases us, 0
  {
    hide Nodes, Tree, Matches, Abs, Under, Forest, MatchAll, AbsAll, Merge, Only, Combined;
    ghost var t := J.Obj(AbsAll(ts.children, target.content.entries));
    ghost var u := J.Obj(AbsAll(us.children, source));
    SameKeys(us.children, source);
    var pending := source.Keys;
    after, made := ts.children, {};
    MergeNothing(t, u);
    assert source.Keys - pending == {};
    while pending != {}
      invariant pending <= source.Keys
      invariant MatchAll(us.children, source) && AbsAll(us.children, source) == u.fields
      invariant target.content.Mapping? && Forest(after) && MatchAll(after, target.content.entries)
      invariant target !in Under(after) && Under(after) <= Under(ts.children) + made && fresh(made)
      invariant Under(after) !! Under(us.children)
      invariant J.Obj(AbsAll(after, target.content.entries)) == Merge(t, Only(u, source.Keys - pending))
      decreases pending
    {
      var k :| k in pending;
      Child(us.children, source, k);
      MergeOneMore(t, u, source.Keys - pending, k);
      assert (source.Keys - pending) + {k} == source.Keys - (pending - {k});
      assert allocated(Under(us.children));
      ghost var more;
      after, more := MergeKey(target, k, source[k], after, us.children[k]);
      made := made + more;
      pending := pending - {k};
    }
    assert source.Keys - pending == source.Keys;
    MergeEverything(t, u);
  }

  /** The merge in place, without what is said of the update. */
  method MergeInto(target: Node, update: Node, ghost ts: Shape, ghost us: Shape) returns (ghost rs: Shape, ghost made: set<Node>)
    requires ts.Branch? && Matches(ts, Ref(target)) && Tree(ts)
    requires us.Branch? && Matches(us, Ref(update)) && Tree(us)
    requires Nodes(ts) !! Nodes(us)
    modifies Nodes(ts)
    ensures rs.Branch? && Matches(rs, Ref(target)) && Tree(rs)
    ensures Abs(rs, Ref(target)) == Merge(old(Abs(ts, Ref(target))), old(Abs(us, Ref(update))))
    ensures Nodes(rs) <= Nodes(ts) + made && fresh(made)
    decreases us, 1
  {
    assert ts.node == target && us.node == update;
    hide Nodes, Tree, Matches, Abs, Under, Forest, MatchAll, AbsAll, Merge;
    Opened(target, ts);
    Opened(update, us);
    ghost var children;
    children, made := MergeEntries(target, update.content.entries, ts, us);
    rs := Branch(target, children);
    Grown(target, children);
  }

  /** deep_merge: the target becomes the merge of the two documents; the update is as it was
      and none of its objects has become part of the target. */
  method DeepMerge(target: Node, update: Node, ghost ts: Shape, ghost us: Shape) returns (ghost rs: Shape, ghost made: set<Node>)
    requires ts.Branch? && Matches(ts, Ref(target)) && Tree(ts)
    requires us.Branch? && Matches(us, Ref(update)) && Tree(us)
    requires Nodes(ts) !! Nodes(us)
    modifies Nodes(ts)
    ensures rs.Branch? && Matches(rs, Ref(target)) && Tree(rs)
    ensures Abs(rs, Ref(target)) == Merge(old(Abs(ts, Ref(target))), old(Abs(us, Ref(update))))
    ensures Matches(us, Ref(update)) && Abs(us, Ref(update)) == old(Abs(us, Ref(update)))
    ensures Nodes(rs) <= Nodes(ts) + made && fresh(made) && Nodes(rs) !! Nodes(us)
  {
    hide Nodes, Tree, Matches, Abs, Merge;
    assert allocated(Nodes(us));
    rs, made := MergeInto(target, update, ts, us);
  }

  lemma MergeNothing(t: J.Json, u: J.Json)
    requires t.Obj? && u.Obj?
    ensures Merge(t, Only(u, {})) == t
  {
    assert Merge(t, Only(u, {})).fields == t.fields;
  }

  lemma MergeEverything(t: J.Json, u: J.Json)
    requires t.Obj? && u.Obj?
    ensures Only(u, u.fields.Keys) == u
  {
    assert Only(u, u.fields.Keys).fields == u.fields;
  }
}
