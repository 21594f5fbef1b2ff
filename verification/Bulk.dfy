/**
 Bulk requests: the newline-delimited text that the client prints
 (opensearchpy/client/utils.py, _bulk_body), the parser that pairs its lines up again, and
 the request message built from the operations (opensearch_grpc/translation.py).
 */
module Bulk {
  import opened Prelude
  import opened Text

  /** A JSON value; the entries of a dictionary are in insertion order. */
  datatype Value =
    | Atom(text: string)     // a number, true, false or null
    | Text(text: string)
    | List(items: seq<Value>)
    | Dict(entries: seq<(string, Value)>)

  const NULL := Atom("null")

  /** A source that was read as null counts as none when the message is built. */
  datatype Operation = Operation(kind: string, meta: Value, source: Option<Value>)

  /** json.dumps and json.loads; loads gives None on malformed text. */
  datatype Codec = Codec(dumps: Value -> string, loads: string -> Option<Value>)

  datatype Error = NoAction | BadJson | UnknownKind | BadMeta | BadSource

  // ---- pairing actions with sources ----

  /** The loop of from_body over a list of values. */
  function FromItems(items: seq<Value>): Result<seq<Operation>, Error> {
    if items == [] then Ok([])
    else if !items[0].Dict? || items[0].entries == [] then Err(NoAction)
    else
      var (kind, meta) := items[0].entries[0];
      var paired := kind != "delete" && |items| > 1;
      match FromItems(items[if paired then 2 else 1..])
      case Err(e) => Err(e)
      case Ok(rest) => Ok([Operation(kind, meta, if paired then Some(items[1]) else None)] + rest)
  }

  function Action(op: Operation): Value {
    Dict([(op.kind, op.meta)])
  }

  /** The action and source list that a caller passes for some operations. */
  function Flatten(ops: seq<Operation>): seq<Value> {
    if ops == [] then []
    else [Action(ops[0])] + (if ops[0].source.Some? then [ops[0].source.value] else []) + Flatten(ops[1..])
  }

  /** A delete has no source, every other operation has one. */
  predicate WellFormed(op: Operation) {
    op.kind == "delete" <==> op.source == None
  }

  /** As WellFormed, except that the last operation may lack its source. */
  ghost predicate Readable(ops: seq<Operation>) {
    forall i :: 0 <= i < |ops| ==> WellFormed(ops[i]) || (i == |ops| - 1 && ops[i].source == None)
  }

  lemma {:induction false} FlattenHead(ops: seq<Operation>)
    requires ops != []
    ensures var items := Flatten(ops);
            && items[0] == Action(ops[0])
            && items[1..] == (if ops[0].source.Some? then [ops[0].source.value] else []) + Flatten(ops[1..])
            && (ops[0].source.Some? ==> |items| > 1 && items[1] == ops[0].source.value && items[2..] == Flatten(ops[1..]))
  {}

  /** Reading the flattened list gives the operations back exactly when every delete comes
      without a source and every other operation with one, the last perhaps without. */
  lemma {:induction false} ReadsBack(ops: seq<Operation>)
    ensures FromItems(Flatten(ops)) == Ok(ops) <==> Readable(ops)
    decreases |ops|, 1
  {
    if ops != [] {
      FlattenHead(ops);
      var rest := ops[1..];
      assert ops == [ops[0]] + rest;
      if ops[0].kind == "delete" {
        ReadsBackDelete(ops);
      } else if ops[0].source.Some? {
        ReadsBack(rest);
        ReadableTail(ops);
      } else if rest != [] {
        FlattenHead(rest);
        assert !WellFormed(ops[0]);
      } else {
        assert Flatten(rest) == [];
      }
    }
  }

  lemma ReadableTail(ops: seq<Operation>)
    requires ops != [] && WellFormed(ops[0])
    ensures Readable(ops) <==> Readable(ops[1..])
  {
    var rest := ops[1..];
    if Readable(rest) {
      forall i | 0 <= i < |ops|
        ensures WellFormed(ops[i]) || (i == |ops| - 1 && ops[i].source == None)
      {
        if i > 0 {
          assert ops[i] == rest[i - 1];
        }
      }
    }
  }

  lemma {:induction false} ReadsBackDelete(ops: seq<Operation>)
    requires ops != [] && ops[0].kind == "delete"
    ensures FromItems(Flatten(ops)) == Ok(ops) <==> Readable(ops)
    decreases |ops|, 0
  {
    FlattenHead(ops);
    var rest := ops[1..];
    assert ops == [ops[0]] + rest;
    if ops[0].source.None? {
      ReadsBack(rest);
      ReadableTail(ops);
    } else {
      assert !WellFormed(ops[0]);
    }
  }

  /** A list in which every action is a dictionary with one entry. */
  ghost predicate PlainActions(items: seq<Value>) {
    items == [] ||
    (items[0].Dict? && |items[0].entries| == 1
     && PlainActions(items[if items[0].entries[0].0 != "delete" && |items| > 1 then 2 else 1..]))
  }

  /** The other way round: a list of one-entry actions is read, and flattening what was
      read gives the list back. */
  lemma {:induction false} WritesBack(items: seq<Value>)
    requires PlainActions(items)
    ensures var r := FromItems(items);
            r.Ok? && Flatten(r.value) == items && Readable(r.value)
  {
    if items != [] {
      var kind := items[0].entries[0].0;
      var paired := kind != "delete" && |items| > 1;
      var tail := items[if paired then 2 else 1..];
      WritesBack(tail);
      var ops := FromItems(items).value;
      assert ops[1..] == FromItems(tail).value;
      assert items[0].entries == [items[0].entries[0]];
      assert items == [items[0]] + (if paired then [items[1]] else []) + tail;
      if WellFormed(ops[0]) {
        ReadableTail(ops);
      } else {
        assert tail == [];
      }
    }
  }

  // ---- the text form ----

  /** Python's white space, as str.strip removes it. */
  predicate IsSpace(c: char) {
    c in " \t\n\r" || c as int in {0x0b, 0x0c, 0x1c, 0x1d, 0x1e, 0x1f, 0x85, 0xa0, 0x1680, 0x2028, 0x2029, 0x202f, 0x205f, 0x3000}
    || 0x2000 <= c as int <= 0x200a
  }

  function StripSpace(s: string): string {
    if s != "" && IsSpace(s[0]) then StripSpace(s[1..])
    else if s != "" && IsSpace(s[|s| - 1]) then StripSpace(s[..|s| - 1])
    else s
  }

  function Lines(items: seq<Value>, codec: Codec): (r: seq<string>)
    ensures |r| == |items|
    ensures forall i :: 0 <= i < |r| ==> r[i] == codec.dumps(items[i])
  {
    seq(|items|, i requires 0 <= i < |items| => codec.dumps(items[i]))
  }

  /** _bulk_body: one line for each item, with a newline at the end. */
  function BulkBody(items: seq<Value>, codec: Codec): string {
    var body := Join(Lines(items, codec), '\n');
    if body != "" && body[|body| - 1] == '\n' then body else body + "\n"
  }

  /** The stripped lines that are not blank. */
  function Filled(lines: seq<string>): seq<string> {
    if lines == [] then []
    else if StripSpace(lines[0]) == "" then Filled(lines[1..])
    else [StripSpace(lines[0])] + Filled(lines[1..])
  }

  function LoadAll(lines: seq<string>, codec: Codec): Option<seq<Value>> {
    if lines == [] then Some([])
    else
      var first := codec.loads(lines[0]);
      var rest := LoadAll(lines[1..], codec);
      if first.None? || rest.None? then None else Some([first.value] + rest.value)
  }

  /** from_body on a text. */
  function FromText(text: string, codec: Codec): Result<seq<Operation>, Error> {
    match LoadAll(Filled(Split(text, '\n')), codec)
    case None => Err(BadJson)
    case Some(items) => FromItems(items)
  }

  /** An object prints as one line between braces that reads back (RFC 8259, sections 4
      and 7: control characters inside strings are escaped). */
  ghost predicate Lawful(codec: Codec, v: Value) {
    var line := codec.dumps(v);
    && |line| >= 2 && line[0] == '{' && line[|line| - 1] == '}'
    && '\n' !in line
    && codec.loads(line) == Some(v)
  }

  lemma StripNothing(s: string)
    requires s != "" && !IsSpace(s[0]) && !IsSpace(s[|s| - 1])
    ensures StripSpace(s) == s
  {}

  lemma {:induction false} FilledLines(items: seq<Value>, codec: Codec)
    requires forall v :: v in items ==> Lawful(codec, v)
    ensures Filled(Lines(items, codec)) == Lines(items, codec)
    ensures Filled(Lines(items, codec) + [""]) == Lines(items, codec)
    ensures LoadAll(Lines(items, codec), codec) == Some(items)
  {
    var lines := Lines(items, codec);
    if items == [] {
      assert Filled([""]) == Filled([""][1..]);
      assert lines == [] && lines + [""] == [""];
    } else {
      FilledLines(items[1..], codec);
      assert items[0] in items;
      StripNothing(lines[0]);
      assert lines[1..] == Lines(items[1..], codec);
      assert (lines + [""])[1..] == lines[1..] + [""];
      assert items == [items[0]] + items[1..];
    }
  }

  lemma {:induction false} JoinEnd(lines: seq<string>)
    requires lines != [] && forall l :: l in lines ==> l != "" && l[|l| - 1] == '}'
    ensures var s := Join(lines, '\n'); s != "" && s[|s| - 1] == '}'
    ensures Join(lines, '\n') + "\n" == Join(lines + [""], '\n')
  {
    if |lines| > 1 {
      JoinEnd(lines[1..]);
      assert (lines + [""])[1..] == lines[1..] + [""];
    } else {
      assert lines + [""] == [lines[0], ""];
      assert [lines[0], ""][1..] == [""];
    }
  }

  /** Splitting the printed text gives the lines, and one empty line at the end. */
  lemma BulkBodySplits(items: seq<Value>, codec: Codec)
    requires items != [] && forall v :: v in items ==> Lawful(codec, v)
    ensures Split(BulkBody(items, codec), '\n') == Lines(items, codec) + [""]
  {
    var lines := Lines(items, codec);
    forall l | l in lines
      ensures l != "" && l[|l| - 1] == '}' && '\n' !in l
    {
      var i :| 0 <= i < |lines| && lines[i] == l;
      assert items[i] in items;
    }
    JoinEnd(lines);
    SplitJoin(lines + [""], '\n');
  }

  /** Whatever list of objects is printed, reading the text is reading the list. */
  lemma TextIsList(items: seq<Value>, codec: Codec)
    requires forall v :: v in items ==> Lawful(codec, v)
    ensures FromText(BulkBody(items, codec), codec) == FromItems(items)
  {
    FilledLines(items, codec);
    if items == [] {
      assert Lines(items, codec) == [];
      assert BulkBody(items, codec) == "\n";
      assert Split("\n", '\n') == [""] + Split("\n"[1..], '\n');
      assert Filled(["", ""]) == Filled(["", ""][1..]);
      assert Filled([""]) == Filled([""][1..]);
    } else {
      BulkBodySplits(items, codec);
    }
  }

  /** The round trip: the printed bulk text of operations reads back as those operations,
      in order. */
  lemma {:induction false} RoundTrip(ops: seq<Operation>, codec: Codec)
    requires forall i :: 0 <= i < |ops| ==> WellFormed(ops[i])
    requires forall v :: v in Flatten(ops) ==> Lawful(codec, v)
    ensures FromText(BulkBody(Flatten(ops), codec), codec) == Ok(ops)
    ensures FromItems(Flatten(ops)) == Ok(ops)
  {
    TextIsList(Flatten(ops), codec);
    ReadsBack(ops);
  }

  // ---- texts from elsewhere ----

  ghost predicate Blank(s: string) {
    forall c :: c in s ==> IsSpace(c)
  }

  ghost predicate Padded(line: string, text: string, before: string, after: string) {
    line == before + text + after && Blank(before) && Blank(after)
  }

  /** The lines hold the items in order, with white space around them and blank lines anywhere. */
  ghost predicate Holds(lines: seq<string>, items: seq<Value>, codec: Codec) {
    if lines == [] then items == []
    else
      || (Blank(lines[0]) && Holds(lines[1..], items, codec))
      || (items != [] && (exists before, after :: Padded(lines[0], codec.dumps(items[0]), before, after))
          && Holds(lines[1..], items[1..], codec))
  }

  lemma {:induction false} StripBlank(s: string)
    requires Blank(s)
    ensures StripSpace(s) == ""
  {
    if s != "" {
      assert s[0] in s;
      StripBlank(s[1..]);
    }
  }

  lemma {:induction false} StripPadding(before: string, text: string, after: string)
    requires Blank(before) && Blank(after) && text != "" && !IsSpace(text[0]) && !IsSpace(text[|text| - 1])
    ensures StripSpace(before + text + after) == text
    decreases |before| + |after|
  {
    var s := before + text + after;
    if before != "" {
      assert s[0] == before[0] && before[0] in before;
      assert s[1..] == before[1..] + text + after;
      StripPadding(before[1..], text, after);
    } else if after != "" {
      var n := |after| - 1;
      assert s[0] == text[0] && s[|s| - 1] == after[n] && after[n] in after;
      assert s[..|s| - 1] == before + text + after[..n];
      StripPadding(before, text, after[..n]);
    } else {
      assert s == text;
      StripNothing(text);
    }
  }

  lemma {:induction false} HeldLines(lines: seq<string>, items: seq<Value>, codec: Codec)
    requires Holds(lines, items, codec) && forall v :: v in items ==> Lawful(codec, v)
    ensures LoadAll(Filled(lines), codec) == Some(items)
  {
    if lines != [] {
      if Blank(lines[0]) && Holds(lines[1..], items, codec) {
        StripBlank(lines[0]);
        HeldLines(lines[1..], items, codec);
      } else {
        var before, after :| Padded(lines[0], codec.dumps(items[0]), before, after);
        assert items[0] in items;
        StripPadding(before, codec.dumps(items[0]), after);
        HeldLines(lines[1..], items[1..], codec);
        assert Filled(lines)[1..] == Filled(lines[1..]);
        assert items == [items[0]] + items[1..];
      }
    }
  }

  /** White space around the lines and blank lines anywhere make no difference: such a text is
      read as the list of its objects. */
  lemma TextMeans(lines: seq<string>, items: seq<Value>, codec: Codec)
    requires lines != [] && forall l :: l in lines ==> '\n' !in l
    requires Holds(lines, items, codec) && forall v :: v in items ==> Lawful(codec, v)
    ensures FromText(Join(lines, '\n'), codec) == FromItems(items)
  {
    SplitJoin(lines, '\n');
    HeldLines(lines, items, codec);
  }

  // ---- the request message ----

  datatype Kind = Index | Create | Update | Delete

  function KindOf(name: string): Option<Kind> {
    if name == "index" then Some(Index)
    else if name == "create" then Some(Create)
    else if name == "update" then Some(Update)
    else if name == "delete" then Some(Delete)
    else None
  }

  /** The metadata keys that the builder of each kind copies into the message. */
  function MetaKeys(kind: Kind): set<string> {
    match kind
    case Index =>
      {"_id", "_index", "routing", "pipeline", "if_primary_term", "if_seq_no",
       "require_alias", "version", "version_type", "op_type"}
    case Create => {"_id", "_index", "routing", "pipeline", "require_alias"}
    case Update =>
      {"_id", "_index", "routing", "if_primary_term", "if_seq_no", "require_alias", "retry_on_conflict"}
    case Delete =>
      {"_id", "_index", "routing", "if_primary_term", "if_seq_no", "version", "version_type"}
  }

  const UPDATE_KEYS: set<string> :=
    {"doc", "doc_as_upsert", "upsert", "scripted_upsert", "detect_noop", "script", "_source"}

  /** The four operation names, and for each known key the kinds that know it. */
  lemma KnownNames(name: string, key: string, kind: Kind)
    ensures KindOf(name) == Some(kind) <==>
            name == match kind { case Index => "index" case Create => "create" case Update => "update" case Delete => "delete" }
    ensures key in MetaKeys(kind) <==>
            || key == "_id" || key == "_index" || key == "routing"
            || (key == "pipeline" && (kind.Index? || kind.Create?))
            || ((key == "if_primary_term" || key == "if_seq_no") && !kind.Create?)
            || (key == "require_alias" && !kind.Delete?)
            || ((key == "version" || key == "version_type") && (kind.Index? || kind.Delete?))
            || (key == "op_type" && kind.Index?)
            || (key == "retry_on_conflict" && kind.Update?)
    ensures key in UPDATE_KEYS <==>
            key == "doc" || key == "upsert" || key == "doc_as_upsert" || key == "scripted_upsert"
            || key == "detect_noop" || key == "script" || key == "_source"
  {}

  datatype Payload = NoPayload | Object(text: string) | UpdateAction(fields: map<string, Value>)

  datatype Body = Body(kind: Kind, fields: map<string, Value>, payload: Payload)

  /** The keys of a dictionary that are among the given ones, with their first values. */
  function Select(entries: seq<(string, Value)>, keys: set<string>): map<string, Value> {
    if entries == [] then map[]
    else
      var rest := Select(entries[1..], keys);
      if entries[0].0 in keys then rest[entries[0].0 := entries[0].1] else rest
  }

  /** Which values the message classes take: for the metadata fields of a kind, and for the
      fields of an update action. Any other value raises. */
  datatype Messages = Messages(metaTakes: (Kind, string, Value) -> bool, actionTakes: (string, Value) -> bool)

  /** A metadata value is taken: version_type and op_type are looked up in a table, which
      takes whatever is hashable; the others go into the message as they are. */
  predicate TakesMeta(messages: Messages, kind: Kind, key: string, v: Value) {
    if key in {"version_type", "op_type"} then !v.List? && !v.Dict? else messages.metaTakes(kind, key, v)
  }

  /** doc and upsert are printed as JSON, whatever they are. */
  predicate TakesAction(messages: Messages, key: string, v: Value) {
    key in {"doc", "upsert"} || messages.actionTakes(key, v)
  }

  /** k in t, for two texts. */
  predicate Contains(t: string, k: string) {
    k <= t || (t != "" && Contains(t[1..], k))
  }

  /** What the membership tests and look-ups of a builder give: the fields that are there.
      Membership is defined for dictionaries, texts and lists, a look-up only for
      dictionaries. */
  function Fields(v: Value, keys: set<string>, takes: (string, Value) -> bool): Option<map<string, Value>> {
    match v
    case Atom(_) => None
    case Text(t) => if exists k :: k in keys && Contains(t, k) then None else Some(map[])
    case List(items) => if exists k :: k in keys && Text(k) in items then None else Some(map[])
    case Dict(entries) =>
      var fields := Select(entries, keys);
      if forall k :: k in fields ==> takes(k, fields[k]) then Some(fields) else None
  }

  /** The body built for one operation, or the reason why there is none. */
  function BodyOf(op: Operation, codec: Codec, messages: Messages): Result<Body, Error> {
    match KindOf(op.kind)
    case None => Err(UnknownKind)
    case Some(kind) =>
      match Fields(op.meta, MetaKeys(kind), (k, v) => TakesMeta(messages, kind, k, v))
      case None => Err(BadMeta)
      case Some(fields) =>
        if op.source.None? || op.source.value == NULL then Ok(Body(kind, fields, NoPayload))
        else if kind == Update then
          match Fields(op.source.value, UPDATE_KEYS, (k, v) => TakesAction(messages, k, v))
          case None => Err(BadSource)
          case Some(action) => Ok(Body(kind, fields, UpdateAction(action)))
        else Ok(Body(kind, fields, Object(codec.dumps(op.source.value))))
  }

  class BulkRequestProtoBuilder {
    var operations: seq<Operation>

    constructor ()
      ensures operations == []
    {
      operations := [];
    }

    /** The index loop of from_body, appending to the operations. */
    method ReadItems(items: seq<Value>) returns (error: Option<Error>)
      modifies this
      ensures error.None? <==> FromItems(items).Ok?
      ensures error.None? ==> operations == old(operations) + FromItems(items).value
      ensures error.Some? ==> FromItems(items) == Err(error.value)
    {
      var i := 0;
      assert items[0..] == items;
      while i < |items|
        invariant 0 <= i <= |items|
        invariant match FromItems(items[i..])
                  case Err(e) => FromItems(items) == Err(e)
                  case Ok(rest) => FromItems(items).Ok? && old(operations) + FromItems(items).value == operations + rest
      {
        var action := items[i];
        ghost var here := items[i..];
        if !action.Dict? || action.entries == [] {
          return Some(NoAction);
        }
        i := i + 1;
        var (kind, meta) := action.entries[0];
        var source := None;
        if kind != "delete" && i < |items| {
          source := Some(items[i]);
          i := i + 1;
        }
        assert items[i..] == here[if source.Some? then 2 else 1..];
        operations := operations + [Operation(kind, meta, source)];
        ghost var tail := FromItems(items[i..]);
        if tail.Ok? {
          AppendAssoc(operations, Operation(kind, meta, source), tail.value);
        }
      }
      assert items[i..] == [];
      return None;
    }

    /** One body for each operation, in order; the first operation without one stops it. */
    method Build(codec: Codec, messages: Messages) returns (request: Result<seq<Body>, Error>)
      ensures request.Ok? <==> forall i :: 0 <= i < |operations| ==> BodyOf(operations[i], codec, messages).Ok?
      ensures request.Ok? ==> |request.value| == |operations|
      ensures request.Ok? ==> forall i :: 0 <= i < |operations| ==> BodyOf(operations[i], codec, messages) == Ok(request.value[i])
      ensures request.Err? ==>
                exists i :: 0 <= i < |operations| && BodyOf(operations[i], codec, messages) == Err(request.error)
                            && forall j :: 0 <= j < i ==> BodyOf(operations[j], codec, messages).Ok?
    {
      var bodies := [];
      for i := 0 to |operations|
        invariant |bodies| == i
        invariant forall j :: 0 <= j < i ==> BodyOf(operations[j], codec, messages) == Ok(bodies[j])
      {
        match BodyOf(operations[i], codec, messages) {
          case Err(e) => return Err(e);
          case Ok(body) => bodies := bodies + [body];
        }
      }
      return Ok(bodies);
    }
  }

  lemma AppendAssoc(ops: seq<Operation>, op: Operation, rest: seq<Operation>)
    requires ops != [] && ops[|ops| - 1] == op
    ensures ops[..|ops| - 1] + ([op] + rest) == ops + rest
  {}

  /** The values of single fields: what a table looks up needs only be hashable, JSON takes
      anything, and the rest is up to the messages. */
  lemma FieldTaken(messages: Messages, kind: Kind, key: string, v: Value)
    ensures Passes(Dict([(key, v)]), {key}, (k, w) => TakesMeta(messages, kind, k, w)) <==>
            if key == "version_type" || key == "op_type" then v.Atom? || v.Text? else messages.metaTakes(kind, key, v)
    ensures Passes(Dict([(key, v)]), {key}, (k, w) => TakesAction(messages, k, w)) <==>
            key == "doc" || key == "upsert" || messages.actionTakes(key, v)
  {
    var entries := [(key, v)];
    assert entries[0].0 == key && entries[0].1 == v;
  }

  /** A builder finds its way through the value: nothing to look up in a text or list, and in
      a dictionary only values that are taken, the first one for each key. */
  predicate Passes(v: Value, keys: set<string>, takes: (string, Value) -> bool) {
    match v
    case Atom(_) => false
    case Text(t) => forall k :: k in keys ==> !Contains(t, k)
    case List(items) => forall k :: k in keys ==> Text(k) !in items
    case Dict(entries) =>
      forall i :: 0 <= i < |entries| && entries[i].0 in keys && (forall j :: 0 <= j < i ==> entries[j].0 != entries[i].0)
        ==> takes(entries[i].0, entries[i].1)
  }

  /** The operation has a known kind, and metadata and an update source that pass. */
  predicate Buildable(op: Operation, messages: Messages) {
    && KindOf(op.kind).Some?
    && var kind := KindOf(op.kind).value;
    && Passes(op.meta, MetaKeys(kind), (k, v) => TakesMeta(messages, kind, k, v))
    && (op.kind == "update" && op.source.Some? && op.source.value != NULL ==>
          Passes(op.source.value, UPDATE_KEYS, (k, v) => TakesAction(messages, k, v)))
  }

  /** The body says what the operation says: its kind, its document, and exactly the
      metadata keys that its kind knows. */
  ghost predicate Says(body: Body, op: Operation, codec: Codec) {
    && Some(body.kind) == KindOf(op.kind)
    && Picks(body.fields, op.meta, MetaKeys(body.kind))
    && match body.payload
       case NoPayload => op.source == None || op.source == Some(NULL)
       case Object(text) => op.source.Some? && op.kind != "update" && codec.loads(text) == op.source
       case UpdateAction(fields) =>
         op.source.Some? && op.kind == "update" && Picks(fields, op.source.value, UPDATE_KEYS)
  }

  /** The fields are the entries whose keys are among the given ones, with the first value
      for each; a value that is no dictionary has none. */
  ghost predicate Picks(fields: map<string, Value>, v: Value, keys: set<string>) {
    if v.Dict? then forall k :: PicksKey(fields, v.entries, keys, k) else fields == map[]
  }

  ghost predicate PicksKey(fields: map<string, Value>, entries: seq<(string, Value)>, keys: set<string>, k: string) {
    && (k in fields <==> k in keys && exists i :: 0 <= i < |entries| && entries[i].0 == k)
    && (k in fields ==> exists i :: 0 <= i < |entries| && FirstAt(entries, i, k) && entries[i].1 == fields[k])
  }

  ghost predicate FirstAt(entries: seq<(string, Value)>, i: nat, k: string)
    requires i < |entries|
  {
    entries[i].0 == k && forall j :: 0 <= j < i ==> entries[j].0 != k
  }

  lemma {:induction false} SelectPicks(entries: seq<(string, Value)>, keys: set<string>, k: string)
    ensures PicksKey(Select(entries, keys), entries, keys, k)
  {
    if entries != [] {
      var tail := entries[1..];
      SelectPicks(tail, keys, k);
      assert forall i :: 0 <= i < |tail| ==> tail[i] == entries[i + 1];
      if entries[0].0 == k {
        assert FirstAt(entries, 0, k);
      } else {
        if k in Select(tail, keys) {
          var i :| 0 <= i < |tail| && FirstAt(tail, i, k) && tail[i].1 == Select(tail, keys)[k];
          assert FirstAt(entries, i + 1, k);
        }
        if exists i :: 0 <= i < |entries| && entries[i].0 == k {
          var i :| 0 <= i < |entries| && entries[i].0 == k;
          assert tail[i - 1].0 == k;
        }
      }
    }
  }

  lemma FieldsPick(v: Value, keys: set<string>, takes: (string, Value) -> bool)
    ensures Fields(v, keys, takes).Some? <==> Passes(v, keys, takes)
    ensures Fields(v, keys, takes).Some? ==> Picks(Fields(v, keys, takes).value, v, keys)
  {
    if v.Dict? {
      var entries := v.entries;
      var fields := Select(entries, keys);
      forall k
        ensures PicksKey(fields, entries, keys, k)
      {
        SelectPicks(entries, keys, k);
      }
      forall i | 0 <= i < |entries| && entries[i].0 in keys && FirstAt(entries, i, entries[i].0)
        ensures entries[i].0 in fields && fields[entries[i].0] == entries[i].1
      {
        var k := entries[i].0;
        assert PicksKey(fields, entries, keys, k);
        var j :| 0 <= j < |entries| && FirstAt(entries, j, k) && entries[j].1 == fields[k];
        assert i == j;
      }
      if Passes(v, keys, takes) {
        forall k | k in fields
          ensures takes(k, fields[k])
        {
          assert PicksKey(fields, entries, keys, k);
          var j :| 0 <= j < |entries| && FirstAt(entries, j, k) && entries[j].1 == fields[k];
        }
      }
    }
  }

  lemma BodySays(op: Operation, codec: Codec, messages: Messages)
    requires op.source.Some? ==> Lawful(codec, op.source.value)
    ensures BodyOf(op, codec, messages).Ok? <==> Buildable(op, messages)
    ensures BodyOf(op, codec, messages).Ok? ==> Says(BodyOf(op, codec, messages).value, op, codec)
  {
    hide Fields, Passes, Picks;
    if KindOf(op.kind).Some? {
      var kind := KindOf(op.kind).value;
      FieldsPick(op.meta, MetaKeys(kind), (k, v) => TakesMeta(messages, kind, k, v));
      if op.source.Some? {
        FieldsPick(op.source.value, UPDATE_KEYS, (k, v) => TakesAction(messages, k, v));
      }
    }
  }

  lemma {:induction false} SourcesInFlat(ops: seq<Operation>, i: nat)
    requires i < |ops| && ops[i].source.Some?
    ensures ops[i].source.value in Flatten(ops)
  {
    if i > 0 {
      SourcesInFlat(ops[1..], i - 1);
    }
  }

  /** From the client to the message: printing, reading and building well-formed operations
      fails only for an operation that no builder takes, and then body i says what
      operation i says. */
  method HandleBulk(ops: seq<Operation>, codec: Codec, messages: Messages) returns (request: Result<seq<Body>, Error>)
    requires forall i :: 0 <= i < |ops| ==> WellFormed(ops[i])
    requires forall v :: v in Flatten(ops) ==> Lawful(codec, v)
    ensures request.Ok? <==> forall i :: 0 <= i < |ops| ==> Buildable(ops[i], messages)
    ensures request.Ok? ==> |request.value| == |ops|
    ensures request.Ok? ==> forall i :: 0 <= i < |ops| ==> Says(request.value[i], ops[i], codec)
  {
    var text := BulkBody(Flatten(ops), codec);
    RoundTrip(ops, codec);
    var items := LoadAll(Filled(Split(text, '\n')), codec).value;
    var builder := new BulkRequestProtoBuilder();
    var error := builder.ReadItems(items);
    assert builder.operations == ops;
    request := builder.Build(codec, messages);
    forall i | 0 <= i < |ops|
      ensures BodyOf(ops[i], codec, messages).Ok? <==> Buildable(ops[i], messages)
      ensures BodyOf(ops[i], codec, messages).Ok? ==> Says(BodyOf(ops[i], codec, messages).value, ops[i], codec)
    {
      if ops[i].source.Some? {
        SourcesInFlat(ops, i);
      }
      BodySays(ops[i], codec, messages);
    }
  }
}
