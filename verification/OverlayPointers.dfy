/**
 Local references (resolve_pointer and validate_local_references in
 aws_client_codegen/api_spec/overlay.py) as JSON pointers, sections 3 and 4 of RFC 6901.
 */
module OverlayPointers {
  import opened Prelude
  import opened Json
  import opened StringOrder
  import Text

  // ---- escaping ----

  /** s.replace(a + b, c) for single characters. */
  function Replace(s: string, a: char, b: char, c: char): string {
    if |s| < 2 then s
    else if s[0] == a && s[1] == b then [c] + Replace(s[2..], a, b, c)
    else [s[0]] + Replace(s[1..], a, b, c)
  }

  function Unescape(raw: string): string {
    Replace(Replace(raw, '~', '1', '/'), '~', '0', '~')
  }

  /** A key as section 3 of RFC 6901 writes it. */
  function Escape(key: string): string {
    if key == "" then ""
    else (if key[0] == '~' then "~0" else if key[0] == '/' then "~1" else [key[0]]) + Escape(key[1..])
  }

  function EscapeTilde(key: string): string {
    if key == "" then "" else (if key[0] == '~' then "~0" else [key[0]]) + EscapeTilde(key[1..])
  }

  lemma ReplaceOther(x: char, s: string, a: char, b: char, c: char)
    requires x != a
    ensures Replace([x] + s, a, b, c) == [x] + Replace(s, a, b, c)
  {
    assert ([x] + s)[1..] == s;
  }

  lemma ReplacePair(x: char, y: char, s: string, a: char, b: char, c: char)
    requires y != a
    ensures Replace([x, y] + s, a, b, c) == (if x == a && y == b then [c] else [x, y]) + Replace(s, a, b, c)
  {
    assert ([x, y] + s)[1..] == [y] + s && ([x, y] + s)[2..] == s;
    ReplaceOther(y, s, a, b, c);
  }

  lemma {:induction false} UnescapeSlash(key: string)
    ensures Replace(Escape(key), '~', '1', '/') == EscapeTilde(key)
  {
    if key != "" {
      var rest := Escape(key[1..]);
      UnescapeSlash(key[1..]);
      if key[0] == '~' {
        ReplacePair('~', '0', rest, '~', '1', '/');
      } else if key[0] == '/' {
        ReplacePair('~', '1', rest, '~', '1', '/');
      } else {
        ReplaceOther(key[0], rest, '~', '1', '/');
      }
    }
  }

  lemma {:induction false} UnescapeTilde(key: string)
    ensures Replace(EscapeTilde(key), '~', '0', '~') == key
  {
    if key != "" {
      var rest := EscapeTilde(key[1..]);
      UnescapeTilde(key[1..]);
      if key[0] == '~' {
        ReplacePair('~', '0', rest, '~', '0', '~');
      } else {
        ReplaceOther(key[0], rest, '~', '0', '~');
      }
      assert key == [key[0]] + key[1..];
    }
  }

  /** Unescaping undoes escaping, and an escaped key has no separator in it. */
  lemma UnescapeEscape(key: string)
    ensures Unescape(Escape(key)) == key
    ensures '/' !in Escape(key)
  {
    UnescapeSlash(key);
    UnescapeTilde(key);
    EscapeHasNoSlash(key);
  }

  lemma {:induction false} EscapeHasNoSlash(key: string)
    ensures '/' !in Escape(key)
  {
    if key != "" {
      EscapeHasNoSlash(key[1..]);
    }
  }

  // ---- pointers ----

  function EscapeAll(keys: Path): (parts: seq<string>)
    ensures |parts| == |keys|
  {
    if keys == [] then [] else [Escape(keys[0])] + EscapeAll(keys[1..])
  }

  function UnescapeAll(parts: seq<string>): (keys: Path)
    ensures |keys| == |parts|
  {
    if parts == [] then [] else [Unescape(parts[0])] + UnescapeAll(parts[1..])
  }

  /** The local reference that names a non-empty chain of keys. */
  function Pointer(keys: Path): string {
    "#/" + Text.Join(EscapeAll(keys), '/')
  }

  /** The chain of keys that resolve_pointer follows for a reference. */
  function PointerKeys(reference: string): Path {
    UnescapeAll(Text.Split(if |reference| >= 2 then reference[2..] else "", '/'))
  }

  lemma {:induction false} UnescapeEscapeAll(keys: Path)
    ensures UnescapeAll(EscapeAll(keys)) == keys
    ensures forall part :: part in EscapeAll(keys) ==> '/' !in part
  {
    if keys != [] {
      UnescapeEscape(keys[0]);
      UnescapeEscapeAll(keys[1..]);
      assert keys == [keys[0]] + keys[1..];
    }
  }

  lemma PointerNamesKeys(keys: Path)
    requires keys != []
    ensures PointerKeys(Pointer(keys)) == keys
  {
    UnescapeEscapeAll(keys);
    Text.SplitJoin(EscapeAll(keys), '/');
    assert Pointer(keys)[2..] == Text.Join(EscapeAll(keys), '/');
  }

  predicate Resolves(document: Json, reference: string) {
    At(document, PointerKeys(reference)).Some?
  }

  /** A pointer resolves exactly when its keys do, through mappings; pointers to different
      key chains are different. */
  lemma PointerResolves(document: Json, keys: Path, other: Path)
    requires keys != [] && other != []
    ensures Resolves(document, Pointer(keys)) <==> At(document, keys).Some?
    ensures Pointer(keys) == Pointer(other) ==> keys == other
  {
    PointerNamesKeys(keys);
    PointerNamesKeys(other);
  }

  lemma {:induction false} UnescapeAllAt(parts: seq<string>, i: nat)
    requires i < |parts|
    ensures UnescapeAll(parts)[i] == Unescape(parts[i])
  {
    if i > 0 {
      UnescapeAllAt(parts[1..], i - 1);
    }
  }

  /** resolve_pointer: follows the keys one by one; ok is false where it raises. */
  method ResolvePointer(document: Json, reference: string) returns (ok: bool)
    ensures ok == Resolves(document, reference)
  {
    ghost var keys := PointerKeys(reference);
    var parts := Text.Split(if |reference| >= 2 then reference[2..] else "", '/');
    var node := document;
    for i := 0 to |parts|
      invariant At(document, keys) == At(node, keys[i..])
    {
      var key := Unescape(parts[i]);
      UnescapeAllAt(parts, i);
      assert keys[i..][1..] == keys[i + 1..];
      if !node.Obj? || key !in node.fields {
        return false;
      }
      node := node.fields[key];
    }
    return true;
  }

  // ---- all references of a document ----

  /** One step down: to a key of a mapping or to a position of a list. */
  datatype Step = Key(key: string) | Index(index: nat)

  ghost function Descend(j: Json, steps: seq<Step>): Option<Json> {
    if steps == [] then Some(j)
    else match steps[0]
      case Key(key) => if j.Obj? && key in j.fields then Descend(j.fields[key], steps[1..]) else None
      case Index(i) => if j.Arr? && i < |j.items| then Descend(j.items[i], steps[1..]) else None
  }

  /** The local reference that the mapping itself holds. */
  predicate Holds(j: Json, reference: string) {
    j.Obj? && "$ref" in j.fields && j.fields["$ref"] == Str(reference) && "#/" <= reference
  }

  /** Somewhere in the value, through mappings and lists, a mapping holds the reference. */
  ghost predicate HoldsWithin(j: Json, reference: string) {
    exists steps :: Descend(j, steps).Some? && Holds(Descend(j, steps).value, reference)
  }

  function OwnReference(m: map<string, Json>): set<string> {
    if "$ref" in m && m["$ref"].Str? && "#/" <= m["$ref"].text then {m["$ref"].text} else {}
  }

  /** Every local reference of the value. */
  function References(j: Json): set<string>
    decreases j, 1, 0
  {
    match j
    case Obj(m) => OwnReference(m) + ReferencesUnder(j, m.Keys)
    case Arr(items) => ReferencesUpTo(j, |items|)
    case _ => {}
  }

  function ReferencesUnder(j: Json, keys: set<string>): set<string>
    requires j.Obj? && keys <= j.fields.Keys
    decreases j, 0, 0
  {
    set k, r | k in keys && r in References(j.fields[k]) :: r
  }

  function ReferencesUpTo(j: Json, n: nat): set<string>
    requires j.Arr? && n <= |j.items|
    decreases j, 0, n
  {
    if n == 0 then {} else ReferencesUpTo(j, n - 1) + References(j.items[n - 1])
  }

  lemma {:induction false} UpToMeans(j: Json, n: nat, reference: string)
    requires j.Arr? && n <= |j.items|
    ensures reference in ReferencesUpTo(j, n) <==> exists i: nat :: i < n && reference in References(j.items[i])
  {
    if n > 0 {
      UpToMeans(j, n - 1, reference);
    }
  }

  lemma {:induction false} ReferencesHeld(j: Json, reference: string)
    requires reference in References(j)
    ensures HoldsWithin(j, reference)
    decreases j
  {
    if Holds(j, reference) {
      assert Descend(j, []) == Some(j);
    } else if j.Obj? {
      var k :| k in j.fields && reference in References(j.fields[k]);
      ReferencesHeld(j.fields[k], reference);
      var steps :| Descend(j.fields[k], steps).Some? && Holds(Descend(j.fields[k], steps).value, reference);
      assert Descend(j, [Key(k)] + steps) == Descend(j.fields[k], steps) by {
        assert ([Key(k)] + steps)[1..] == steps;
      }
    } else {
      UpToMeans(j, |j.items|, reference);
      var i: nat :| i < |j.items| && reference in References(j.items[i]);
      ReferencesHeld(j.items[i], reference);
      var steps :| Descend(j.items[i], steps).Some? && Holds(Descend(j.items[i], steps).value, reference);
      assert Descend(j, [Index(i)] + steps) == Descend(j.items[i], steps) by {
        assert ([Index(i)] + steps)[1..] == steps;
      }
    }
  }

  lemma {:induction false} HeldReferences(j: Json, steps: seq<Step>, reference: string)
    requires Descend(j, steps).Some? && Holds(Descend(j, steps).value, reference)
    ensures reference in References(j)
  {
    if steps != [] {
      match steps[0] {
        case Key(key) => HeldReferences(j.fields[key], steps[1..], reference);
        case Index(i) =>
          HeldReferences(j.items[i], steps[1..], reference);
          UpToMeans(j, |j.items|, reference);
      }
    }
  }

  /** The references collected are those some mapping holds, however deep. */
  lemma ReferencesMeans(j: Json, reference: string)
    ensures reference in References(j) <==> HoldsWithin(j, reference)
  {
    if reference in References(j) {
      ReferencesHeld(j, reference);
    }
    if HoldsWithin(j, reference) {
      var steps :| Descend(j, steps).Some? && Holds(Descend(j, steps).value, reference);
      HeldReferences(j, steps, reference);
    }
  }

  /** A mapping that only refers elsewhere: a local reference counts, any other does not. */
  lemma OwnReferences(text: string)
    ensures References(J1("$ref", Str(text))) == if |text| >= 2 && text[0] == '#' && text[1] == '/' then {text} else {}
    ensures References(J1("$ref", Atom(text))) == {}
  {
    var a, b := map["$ref" := Str(text)], map["$ref" := Atom(text)];
    assert "#/" <= text <==> |text| >= 2 && text[0] == '#' && text[1] == '/';
    assert References(Str(text)) == {} && References(Atom(text)) == {};
    assert ReferencesUnder(Obj(a), a.Keys) == {} && ReferencesUnder(Obj(b), b.Keys) == {};
  }

  function J1(key: string, value: Json): Json {
    Obj(map[key := value])
  }

  /** The set that the nested function visit fills. */
  class ReferenceCollector {
    var references: set<string>

    constructor ()
      ensures references == {}
    {
      references := {};
    }

    method Visit(value: Json)
      modifies this
      ensures references == old(references) + References(value)
      decreases value
    {
      match value
      case Obj(m) =>
        references := references + OwnReference(m);
        var keys := m.Keys;
        while keys != {}
          invariant keys <= m.Keys
          invariant references == old(references) + OwnReference(m) + ReferencesUnder(value, m.Keys - keys)
          decreases keys
        {
          var k :| k in keys;
          Visit(m[k]);
          assert m.Keys - (keys - {k}) == (m.Keys - keys) + {k};
          keys := keys - {k};
        }
        assert m.Keys - keys == m.Keys;
      case Arr(items) =>
        for i := 0 to |items|
          invariant references == old(references) + ReferencesUpTo(value, i)
        {
          Visit(items[i]);
        }
      case _ =>
    }
  }

  ghost predicate AllResolve(document: Json) {
    forall r :: r in References(document) ==> Resolves(document, r)
  }

  /** The first of the sorted references that does not resolve. */
  ghost predicate FirstDangling(document: Json, reference: string) {
    Least(reference, set x | x in References(document) && !Resolves(document, x))
  }

  /** validate_local_references: the number of references when every one resolves, else the
      first one in sorted order that does not. */
  method ValidateLocalReferences(document: Json) returns (r: Result<nat, string>)
    ensures r.Ok? <==> AllResolve(document)
    ensures r.Ok? ==> r.value == |References(document)|
    ensures r.Err? ==> FirstDangling(document, r.error)
  {
    var collector := new ReferenceCollector();
    collector.Visit(document);
    var references := collector.references;
    var pending := references;
    while pending != {}
      invariant pending <= References(document)
      invariant forall x :: x in References(document) && x !in pending ==> Resolves(document, x)
      decreases pending
    {
      var reference := First(pending);
      var ok := ResolvePointer(document, reference);
      if !ok {
        return Err(reference);
      }
      pending := pending - {reference};
    }
    return Ok(|references|);
  }
}
