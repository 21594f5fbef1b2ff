/** JSON documents as trees, and key paths through their mappings. */
module Json {
  import opened Prelude

  datatype Json =
    | Obj(fields: map<string, Json>)
    | Arr(items: seq<Json>)
    | Str(text: string)
    | Atom(text: string)   // numbers, true, false, null

  const TRUE := Atom("true")

  type Path = seq<string>

  /** The node that a chain of keys leads to, through mappings only. */
  function At(j: Json, path: Path): Option<Json> {
    if path == [] then Some(j)
    else if j.Obj? && path[0] in j.fields then At(j.fields[path[0]], path[1..])
    else None
  }

  lemma {:induction false} AtSplit(j: Json, p: Path, q: Path)
    ensures At(j, p + q) == if At(j, p).Some? then At(At(j, p).value, q) else None
  {
    if p == [] {
      assert p + q == q;
    } else {
      assert (p + q)[1..] == p[1..] + q;
      if j.Obj? && p[0] in j.fields {
        AtSplit(j.fields[p[0]], p[1..], q);
      }
    }
  }

  /** A node on the way to a node is a mapping. */
  lemma AtPrefix(j: Json, path: Path, n: nat)
    requires At(j, path).Some? && n <= |path|
    ensures At(j, path[..n]).Some?
    ensures n < |path| ==> At(j, path[..n]).value.Obj?
  {
    assert path == path[..n] + path[n..];
    AtSplit(j, path[..n], path[n..]);
  }

  /** The document with the node at path, which exists, replaced. */
  function Put(j: Json, path: Path, v: Json): (r: Json)
    requires At(j, path).Some?
  {
    if path == [] then v
    else Obj(j.fields[path[0] := Put(j.fields[path[0]], path[1..], v)])
  }

  /** Inside the replaced node the new value is seen; a path that parts from the replaced
      one, or stops before it, resolves as before. */
  lemma {:induction false} AtPut(j: Json, path: Path, v: Json, q: Path)
    requires At(j, path).Some?
    ensures path <= q ==> At(Put(j, path, v), q) == At(v, q[|path|..])
    ensures !(path <= q) ==> (At(Put(j, path, v), q).Some? <==> At(j, q).Some?)
    ensures !(path <= q) && !(q <= path) ==> At(Put(j, path, v), q) == At(j, q)
  {
    if path != [] && q != [] {
      var tail := path[1..];
      assert path == [path[0]] + tail && q == [q[0]] + q[1..];
      if q[0] == path[0] {
        AtPut(j.fields[path[0]], tail, v, q[1..]);
        assert path <= q <==> tail <= q[1..];
        assert q <= path <==> q[1..] <= tail;
        if tail <= q[1..] {
          assert q[|path|..] == q[1..][|tail|..];
        }
      }
    }
  }
}
