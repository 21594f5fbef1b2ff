/**
 Overlay targets (aws_client_codegen/api_spec/overlay.py, parse_target): a dollar sign
 followed by .key and ['key'] segments.
 */
module OverlayTargets {
  import opened Prelude

  datatype TargetError = NoDollar | EmptySegment | Unterminated | Unsupported

  predicate Stops(c: char) {
    c == '.' || c == '['
  }

  /** Length of the longest prefix without a stop character. */
  function Span(t: string): (n: nat)
    ensures n <= |t|
  {
    if t == "" || Stops(t[0]) then 0 else 1 + Span(t[1..])
  }

  lemma {:induction false} SpanMeans(t: string)
    ensures forall i :: 0 <= i < Span(t) ==> !Stops(t[i])
    ensures Span(t) < |t| ==> Stops(t[Span(t)])
  {
    if t != "" && !Stops(t[0]) {
      SpanMeans(t[1..]);
    }
  }

  predicate ClosesAt(t: string, i: nat) {
    i + 1 < |t| && t[i] == '\'' && t[i + 1] == ']'
  }

  /** The first position of '] at or after i. */
  function Find(t: string, i: nat): (r: Option<nat>)
    ensures r.Some? ==> i <= r.value && ClosesAt(t, r.value)
    decreases |t| - i
  {
    if i + 1 >= |t| then None else if ClosesAt(t, i) then Some(i) else Find(t, i + 1)
  }

  lemma {:induction false} FindMeans(t: string, i: nat)
    ensures var r := Find(t, i);
            forall k :: i <= k && (r.Some? ==> k < r.value) ==> !ClosesAt(t, k)
    decreases |t| - i
  {
    if i + 1 < |t| && !ClosesAt(t, i) {
      FindMeans(t, i + 1);
    }
  }

  /** The keys of the text after the dollar sign. */
  function Keys(t: string): Result<seq<string>, TargetError>
    decreases |t|
  {
    if t == "" then Ok([])
    else if t[0] == '.' then
      var n := Span(t[1..]);
      if n == 0 then Err(EmptySegment)
      else
        match Keys(t[1 + n..])
        case Err(e) => Err(e)
        case Ok(rest) => Ok([t[1..1 + n]] + rest)
    else if |t| >= 2 && t[0] == '[' && t[1] == '\'' then
      match Find(t, 2)
      case None => Err(Unterminated)
      case Some(end) =>
        match Keys(t[end + 2..])
        case Err(e) => Err(e)
        case Ok(rest) => Ok([t[2..end]] + rest)
    else Err(Unsupported)
  }

  function Target(target: string): Result<seq<string>, TargetError> {
    if target == "" || target[0] != '$' then Err(NoDollar) else Keys(target[1..])
  }

  /** whole is what parsing gives when the keys so far are followed by rest. */
  ghost predicate Resumes(whole: Result<seq<string>, TargetError>, keys: seq<string>, rest: Result<seq<string>, TargetError>) {
    match rest
    case Err(e) => whole == Err(e)
    case Ok(more) => whole == Ok(keys + more)
  }

  /** One more key in front. */
  function Prepend(key: string, rest: Result<seq<string>, TargetError>): Result<seq<string>, TargetError> {
    match rest
    case Err(e) => Err(e)
    case Ok(keys) => Ok([key] + keys)
  }

  lemma ResumesKey(whole: Result<seq<string>, TargetError>, keys: seq<string>, key: string,
                                      rest: Result<seq<string>, TargetError>)
    requires Resumes(whole, keys, Prepend(key, rest))
    ensures Resumes(whole, keys + [key], rest)
  {
    if rest.Ok? {
      assert keys + ([key] + rest.value) == (keys + [key]) + rest.value;
    }
  }

  /** The inner loop: the end of a .key segment. */
  method SegmentEnd(target: string, position: nat) returns (end: nat)
    requires position < |target|
    ensures position < end <= |target| && end - position - 1 == Span(target[position + 1..])
  {
    end := position + 1;
    while end < |target| && !Stops(target[end])
      invariant position < end <= |target|
      invariant Span(target[position + 1..]) == (end - position - 1) + Span(target[end..])
    {
      assert target[end..][1..] == target[end + 1..];
      end := end + 1;
    }
  }

  lemma KeysDot(t: string)
    requires t != "" && t[0] == '.'
    ensures var n := Span(t[1..]);
            Keys(t) == if n == 0 then Err(EmptySegment) else Prepend(t[1..1 + n], Keys(t[1 + n..]))
  {
    hide Span, Find;
  }

  lemma KeysAtDot(target: string, position: nat)
    requires position < |target| && target[position] == '.'
    ensures var n := Span(target[position + 1..]);
            Keys(target[position..]) == if n == 0 then Err(EmptySegment)
              else Prepend(target[position + 1..position + 1 + n], Keys(target[position + 1 + n..]))
  {
    hide Keys, Span, Prepend;
    var t := target[position..];
    KeysDot(t);
    assert t[1..] == target[position + 1..];
    var n := Span(target[position + 1..]);
    assert t[1..1 + n] == target[position + 1..position + 1 + n] && t[1 + n..] == target[position + 1 + n..];
  }

  lemma {:induction false} KeysBracket(t: string)
    requires |t| >= 2 && t[0] == '[' && t[1] == '\''
    ensures Keys(t) ==
            match Find(t, 2)
            case None => Err(Unterminated)
            case Some(end) => Prepend(t[2..end], Keys(t[end + 2..]))
  {
    hide Find;
  }

  lemma {:induction false} KeysAtBracket(target: string, position: nat)
    requires position + 1 < |target| && target[position] == '[' && target[position + 1] == '\''
    ensures Keys(target[position..]) ==
            match Find(target, position + 2)
            case None => Err(Unterminated)
            case Some(end) => Prepend(target[position + 2..end], Keys(target[end + 2..]))
  {
    hide Keys, Find, Prepend;
    var t := target[position..];
    KeysBracket(t);
    FindShift(target, position, 2);
    if Find(t, 2).Some? {
      var end := Find(target, position + 2).value;
      assert t[2..end - position] == target[position + 2..end];
      assert t[end - position + 2..] == target[end + 2..];
    }
  }

  lemma KeysElse(t: string)
    ensures t == "" ==> Keys(t) == Ok([])
    ensures t != "" && t[0] != '.' && (|t| < 2 || t[0] != '[' || t[1] != '\'') ==> Keys(t) == Err(Unsupported)
  {}

  /** One turn of the cursor loop: the key at the position and the position after it,
      which is further on. */
  method NextKey(target: string, position: nat) returns (r: Result<(string, nat), TargetError>)
    requires position < |target|
    ensures r.Ok? ==> position < r.value.1 <= |target|
    ensures r.Ok? ==> Keys(target[position..]) == Prepend(r.value.0, Keys(target[r.value.1..]))
    ensures r.Err? ==> Keys(target[position..]) == Err(r.error)
  {
    hide Keys, Prepend, Find, Span;
    if target[position] == '.' {
      KeysAtDot(target, position);
      var end := SegmentEnd(target, position);
      if end == position + 1 {
        return Err(EmptySegment);
      }
      return Ok((target[position + 1..end], end));
    }
    if position + 1 < |target| && target[position] == '[' && target[position + 1] == '\'' {
      KeysAtBracket(target, position);
      var found := Find(target, position + 2);
      if found.None? {
        return Err(Unterminated);
      }
      return Ok((target[position + 2..found.value], found.value + 2));
    }
    KeysElse(target[position..]);
    return Err(Unsupported);
  }

  /** The cursor loop of parse_target. */
  method ParseTarget(target: string) returns (r: Result<seq<string>, TargetError>)
    ensures r == Target(target)
  {
    if target == "" || target[0] != '$' {
      return Err(NoDollar);
    }
    ghost var whole := Keys(target[1..]);
    var keys := [];
    var position := 1;
    assert whole.Ok? ==> [] + whole.value == whole.value;
    while position < |target|
      invariant 1 <= position <= |target|
      invariant Resumes(whole, keys, Keys(target[position..]))
      decreases |target| - position
    {
      var next := NextKey(target, position);
      if next.Err? {
        return Err(next.error);
      }
      var (key, after) := next.value;
      ResumesKey(whole, keys, key, Keys(target[after..]));
      keys := keys + [key];
      position := after;
    }
    assert target[position..] == "" && keys + [] == keys;
    return Ok(keys);
  }

  lemma {:induction false} FindShift(target: string, position: nat, i: nat)
    requires position <= |target|
    ensures Find(target, position + i) ==
            match Find(target[position..], i) case None => None case Some(r) => Some(position + r)
    decreases |target| - i
  {
    var t := target[position..];
    assert forall k: nat {:trigger ClosesAt(t, k)} :: ClosesAt(t, k) <==> ClosesAt(target, position + k);
    var a, b := Find(t, i), Find(target, position + i);
    FindMeans(t, i);
    FindMeans(target, position + i);
    if a.Some? {
      assert ClosesAt(target, position + a.value);
    }
    if b.Some? {
      assert ClosesAt(t, b.value - position);
    }
  }

  // ---- printing ----

  datatype Segment = Dotted(key: string) | Bracketed(key: string)

  function Show(s: Segment): string {
    match s
    case Dotted(key) => "." + key
    case Bracketed(key) => "['" + key + "']"
  }

  function ShowAll(segments: seq<Segment>): string {
    if segments == [] then "" else Show(segments[0]) + ShowAll(segments[1..])
  }

  function KeysOf(segments: seq<Segment>): seq<string> {
    if segments == [] then [] else [segments[0].key] + KeysOf(segments[1..])
  }

  /** .key takes a non-empty key without stop characters, ['key'] one without '] inside. */
  ghost predicate Printable(s: Segment) {
    match s
    case Dotted(key) => key != "" && forall i :: 0 <= i < |key| ==> !Stops(key[i])
    case Bracketed(key) => forall i: nat :: !ClosesAt(key, i)
  }

  lemma ShowStops(segments: seq<Segment>)
    ensures ShowAll(segments) != "" ==> Stops(ShowAll(segments)[0])
  {}

  lemma SpanPrefix(key: string, tail: string)
    requires forall i :: 0 <= i < |key| ==> !Stops(key[i])
    requires tail != "" ==> Stops(tail[0])
    ensures Span(key + tail) == |key|
  {
    var t := key + tail;
    SpanMeans(t);
    assert forall i :: 0 <= i < |key| ==> t[i] == key[i];
    assert tail != "" ==> t[|key|] == tail[0];
  }

  lemma FindClose(key: string, tail: string)
    requires forall i: nat :: !ClosesAt(key, i)
    ensures Find("['" + key + "']" + tail, 2) == Some(2 + |key|)
  {
    var t := "['" + key + "']" + tail;
    assert t[2..2 + |key|] == key;
    assert t[2 + |key|] == '\'' && t[3 + |key|] == ']';
    assert ClosesAt(t, 2 + |key|);
    FindMeans(t, 2);
    forall k: nat | 2 <= k < 2 + |key|
      ensures !ClosesAt(t, k)
    {
      assert t[k] == key[k - 2];
      assert !ClosesAt(key, k - 2);
    }
  }

  lemma KeysDotted(key: string, tail: string)
    requires Printable(Dotted(key)) && (tail != "" ==> Stops(tail[0]))
    ensures Keys("." + key + tail) == Prepend(key, Keys(tail))
  {
    var t := "." + key + tail;
    SpanPrefix(key, tail);
    assert t[1..] == key + tail;
    assert t[1..1 + |key|] == key && t[1 + |key|..] == tail;
  }

  lemma KeysBracketed(key: string, tail: string)
    requires Printable(Bracketed(key))
    ensures Keys("['" + key + "']" + tail) == Prepend(key, Keys(tail))
  {
    var t := "['" + key + "']" + tail;
    FindClose(key, tail);
    assert t[2..2 + |key|] == key && t[2 + |key| + 2..] == tail;
  }

  lemma {:induction false} ParsesShown(segments: seq<Segment>)
    requires forall s :: s in segments ==> Printable(s)
    ensures Keys(ShowAll(segments)) == Ok(KeysOf(segments))
  {
    if segments != [] {
      var s, rest := segments[0], segments[1..];
      assert s in segments;
      ParsesShown(rest);
      ShowStops(rest);
      match s {
        case Dotted(key) => KeysDotted(key, ShowAll(rest));
        case Bracketed(key) => KeysBracketed(key, ShowAll(rest));
      }
    }
  }

  /** The text cannot go on like this, with the error that says why: nothing after a dot, a
      bracket that is not closed, or something that starts no segment. */
  ghost predicate GoesWrong(rest: string, e: TargetError) {
    if rest == "" then false
    else if rest[0] == '.' then e == EmptySegment && (|rest| == 1 || rest[1] == '.' || rest[1] == '[')
    else if rest[0] == '[' && |rest| > 1 && rest[1] == '\'' then e == Unterminated && forall k: nat :: k >= 2 ==> !ClosesAt(rest, k)
    else e == Unsupported
  }

  lemma KeysGoWrong(rest: string, e: TargetError)
    requires GoesWrong(rest, e)
    ensures Keys(rest) == Err(e)
  {
    if rest[0] == '.' {
      SpanMeans(rest[1..]);
    } else if rest[0] == '[' && |rest| > 1 && rest[1] == '\'' {
      FindMeans(rest, 2);
    }
  }

  /** After good segments the first thing that goes wrong is the error. A dotted key takes
      everything up to the next stop, so what follows one starts with a stop. */
  lemma {:induction false} ErrorAfter(segments: seq<Segment>, rest: string, e: TargetError)
    requires (forall s :: s in segments ==> Printable(s)) && GoesWrong(rest, e)
    requires segments != [] && segments[|segments| - 1].Dotted? ==> Stops(rest[0])
    ensures Keys(ShowAll(segments) + rest) == Err(e)
  {
    if segments == [] {
      assert ShowAll(segments) + rest == rest;
      KeysGoWrong(rest, e);
    } else {
      var s, more := segments[0], segments[1..];
      assert s in segments;
      var tail := ShowAll(more) + rest;
      ErrorAfter(more, rest, e);
      ShowStops(more);
      assert Show(s) + ShowAll(more) + rest == Show(s) + tail;
      if more == [] {
        assert tail == rest;
      } else {
        ShowsSomething(more);
        assert tail[0] == ShowAll(more)[0];
      }
      match s {
        case Dotted(key) => KeysDotted(key, tail);
        case Bracketed(key) => KeysBracketed(key, tail);
      }
    }
  }

  lemma ShowsSomething(segments: seq<Segment>)
    requires segments != []
    ensures ShowAll(segments) != ""
  {}

  /** A missing dollar sign is an error of its own. */
  lemma NoDollarExactly(target: string)
    ensures Target(target) == Err(NoDollar) <==> |target| == 0 || target[0] != '$'
  {
    NeverNoDollar(if target == "" then "" else target[1..]);
  }

  /** The other errors of parse_target: what goes wrong after the good segments. */
  lemma {:induction false} TargetErrors(segments: seq<Segment>, rest: string, e: TargetError)
    requires (forall s :: s in segments ==> Printable(s)) && GoesWrong(rest, e)
    requires segments != [] && segments[|segments| - 1].Dotted? ==> Stops(rest[0])
    ensures Target("$" + ShowAll(segments) + rest) == Err(e)
  {
    hide ShowAll, Keys, Target, GoesWrong;
    ErrorAfter(segments, rest, e);
    AfterDollar(ShowAll(segments) + rest);
    assert "$" + ShowAll(segments) + rest == "$" + (ShowAll(segments) + rest);
  }

  lemma AfterDollar(t: string)
    ensures Target("$" + t) == Keys(t)
  {
    hide Keys;
    assert ("$" + t)[1..] == t;
  }

  lemma {:induction false} NeverNoDollar(t: string)
    ensures Keys(t) != Err(NoDollar)
    decreases |t|
  {
    if t != "" && t[0] == '.' {
      NeverNoDollar(t[1 + Span(t[1..])..]);
    } else if |t| >= 2 && t[0] == '[' && t[1] == '\'' && Find(t, 2).Some? {
      NeverNoDollar(t[Find(t, 2).value + 2..]);
    }
  }

  ghost predicate Shows(t: string, segments: seq<Segment>) {
    && ShowAll(segments) == t && Keys(t) == Ok(KeysOf(segments))
    && forall s :: s in segments ==> Printable(s)
  }

  lemma ShowsMore(s: Segment, rest: seq<Segment>)
    requires Printable(s) && Shows(ShowAll(rest), rest)
    ensures Shows(Show(s) + ShowAll(rest), [s] + rest)
  {
    ShowStops(rest);
    match s {
      case Dotted(key) => KeysDotted(key, ShowAll(rest));
      case Bracketed(key) => KeysBracketed(key, ShowAll(rest));
    }
    assert ([s] + rest)[1..] == rest;
  }

  /** The first segment of an accepted text. */
  lemma Peel(t: string) returns (s: Segment, tail: string)
    requires t != "" && Keys(t).Ok?
    ensures Printable(s) && t == Show(s) + tail && |tail| < |t| && Keys(tail).Ok?
  {
    if t[0] == '.' {
      var n := Span(t[1..]);
      SpanMeans(t[1..]);
      s, tail := Dotted(t[1..1 + n]), t[1 + n..];
      assert t == "." + t[1..1 + n] + tail;
    } else {
      var end := Find(t, 2).value;
      s, tail := Bracketed(t[2..end]), t[end + 2..];
      NoClose(t, end);
      assert t == "['" + t[2..end] + "']" + tail;
    }
  }

  /** Every accepted text is the printed form of printable segments with these keys. */
  lemma {:induction false} ShowsParsed(t: string) returns (segments: seq<Segment>)
    requires Keys(t).Ok?
    ensures Shows(t, segments)
    decreases |t|
  {
    if t == "" {
      segments := [];
    } else {
      var s, tail := Peel(t);
      var rest := ShowsParsed(tail);
      ShowsMore(s, rest);
      segments := [s] + rest;
    }
  }

  lemma NoClose(t: string, end: nat)
    requires Find(t, 2) == Some(end)
    ensures Printable(Bracketed(t[2..end]))
  {
    var key := t[2..end];
    FindMeans(t, 2);
    forall i: nat
      ensures !ClosesAt(key, i)
    {
      if i + 1 < |key| {
        assert key[i] == t[i + 2] && key[i + 1] == t[i + 3];
        assert !ClosesAt(t, i + 2);
      }
    }
  }

  /** parse_target undoes printing, whatever mix of the two forms is used. */
  lemma PrintThenParse(segments: seq<Segment>)
    requires forall s :: s in segments ==> Printable(s)
    ensures Target("$" + ShowAll(segments)) == Ok(KeysOf(segments))
  {
    ParsesShown(segments);
    assert ("$" + ShowAll(segments))[1..] == ShowAll(segments);
  }

  ghost predicate PrintedForm(target: string, keys: seq<string>, segments: seq<Segment>) {
    && target == "$" + ShowAll(segments)
    && KeysOf(segments) == keys
    && forall s :: s in segments ==> Printable(s)
  }

  /** The accepted targets are exactly the printed forms, and printing what was parsed
      gives the target back. */
  lemma ParseThenPrint(target: string, keys: seq<string>)
    ensures Target(target) == Ok(keys) <==> exists segments :: PrintedForm(target, keys, segments)
  {
    if Target(target) == Ok(keys) {
      var segments := ShowsParsed(target[1..]);
      assert target == "$" + target[1..];
      assert PrintedForm(target, keys, segments);
    }
    forall segments | PrintedForm(target, keys, segments)
      ensures Target(target) == Ok(keys)
    {
      PrintThenParse(segments);
    }
  }
}
