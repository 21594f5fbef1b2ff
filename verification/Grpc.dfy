/**
 The gRPC transport: which requests it takes, its own retry loop, and the fall back to the
 REST transport underneath (opensearch_grpc/grpc_transport.py).
 */
module GrpcTransport {
  import opened Prelude
  import opened Text
  import opened TransportSpec
  import TransportClass

  // ---- error mapping ----

  datatype Code =
    | OK | CANCELLED | UNKNOWN | INVALID_ARGUMENT | DEADLINE_EXCEEDED | NOT_FOUND
    | ALREADY_EXISTS | PERMISSION_DENIED | RESOURCE_EXHAUSTED | FAILED_PRECONDITION
    | ABORTED | OUT_OF_RANGE | UNIMPLEMENTED | INTERNAL | UNAVAILABLE | DATA_LOSS
    | UNAUTHENTICATED

  datatype ExceptionClass =
    | TransportError | ConnectionError | ConnectionTimeout | NotFoundError | ConflictError
    | RequestError | AuthenticationException | AuthorizationException

  /** _raise_grpc_error: the class raised and its status; nothing for OK. */
  function RaiseGrpcError(code: Code): Option<(ExceptionClass, Failure)> {
    match code
    case OK => None
    case UNAVAILABLE => Some((ConnectionError, Unreachable))
    case DEADLINE_EXCEEDED => Some((ConnectionTimeout, Timeout))
    case UNAUTHENTICATED => Some((AuthenticationException, Status(401)))
    case PERMISSION_DENIED => Some((AuthorizationException, Status(403)))
    case NOT_FOUND => Some((NotFoundError, Status(404)))
    case ALREADY_EXISTS => Some((ConflictError, Status(409)))
    case ABORTED => Some((ConflictError, Status(409)))
    case INVALID_ARGUMENT => Some((RequestError, Status(400)))
    case FAILED_PRECONDITION => Some((RequestError, Status(400)))
    case OUT_OF_RANGE => Some((RequestError, Status(400)))
    case RESOURCE_EXHAUSTED => Some((TransportError, Status(429)))
    case UNIMPLEMENTED => Some((TransportError, Status(501)))
    case INTERNAL => Some((TransportError, Status(500)))
    case DATA_LOSS => Some((TransportError, Status(500)))
    case CANCELLED => Some((TransportError, NoStatus))
    case UNKNOWN => Some((TransportError, NoStatus))
  }

  /** The class that the REST client raises for an HTTP status (HTTP_EXCEPTIONS). */
  function RestClass(status: int): ExceptionClass {
    if status == 400 then RequestError
    else if status == 401 then AuthenticationException
    else if status == 403 then AuthorizationException
    else if status == 404 then NotFoundError
    else if status == 409 then ConflictError
    else TransportError
  }

  /** _grpc_to_rest_status, for the items of a bulk response that are not OK. */
  function ItemStatus(code: Code): int
    requires code != OK
  {
    match code
    case CANCELLED => 499
    case UNKNOWN => 500
    case INVALID_ARGUMENT => 400
    case DEADLINE_EXCEEDED => 408
    case NOT_FOUND => 404
    case ALREADY_EXISTS => 409
    case PERMISSION_DENIED => 403
    case RESOURCE_EXHAUSTED => 429
    case FAILED_PRECONDITION => 412
    case ABORTED => 409
    case OUT_OF_RANGE => 400
    case UNIMPLEMENTED => 501
    case INTERNAL => 500
    case UNAVAILABLE => 503
    case DATA_LOSS => 500
    case UNAUTHENTICATED => 401
  }

  /** Existing except blocks keep working: an error with an HTTP status has the class that
      the REST client raises for that status. The two status tables of the package agree
      on every such code but one. */
  lemma ErrorClasses(code: Code)
    requires RaiseGrpcError(code).Some? && RaiseGrpcError(code).value.1.Status?
    ensures var (cls, f) := RaiseGrpcError(code).value;
            cls == RestClass(f.code)
            && (ItemStatus(code) == f.code <==> code != FAILED_PRECONDITION)
  {}

  /** Which codes give which errors. */
  lemma ErrorKinds(code: Code)
    ensures RaiseGrpcError(code).None? <==> code == OK
    ensures code != OK ==>
              var (cls, f) := RaiseGrpcError(code).value;
              && (f == Unreachable <==> code == UNAVAILABLE) && (cls == ConnectionError <==> code == UNAVAILABLE)
              && (f == Timeout <==> code == DEADLINE_EXCEEDED) && (cls == ConnectionTimeout <==> code == DEADLINE_EXCEEDED)
              && (f == Status(401) <==> code == UNAUTHENTICATED)
              && (f == Status(403) <==> code == PERMISSION_DENIED)
              && (f == Status(404) <==> code == NOT_FOUND)
              && (f == Status(409) <==> code == ALREADY_EXISTS || code == ABORTED)
              && (f == Status(400) <==> code == INVALID_ARGUMENT || code == FAILED_PRECONDITION || code == OUT_OF_RANGE)
              && (f == Status(429) <==> code == RESOURCE_EXHAUSTED)
              && (f == Status(501) <==> code == UNIMPLEMENTED)
              && (f == Status(500) <==> code == INTERNAL || code == DATA_LOSS)
              && (f == NoStatus <==> code == CANCELLED || code == UNKNOWN)
  {}

  /** Which codes of bulk items give which status. */
  lemma ItemStatuses(code: Code)
    requires code != OK
    ensures ItemStatus(code) == 400 <==> code == INVALID_ARGUMENT || code == OUT_OF_RANGE
    ensures ItemStatus(code) == 401 <==> code == UNAUTHENTICATED
    ensures ItemStatus(code) == 403 <==> code == PERMISSION_DENIED
    ensures ItemStatus(code) == 404 <==> code == NOT_FOUND
    ensures ItemStatus(code) == 408 <==> code == DEADLINE_EXCEEDED
    ensures ItemStatus(code) == 409 <==> code == ALREADY_EXISTS || code == ABORTED
    ensures ItemStatus(code) == 412 <==> code == FAILED_PRECONDITION
    ensures ItemStatus(code) == 429 <==> code == RESOURCE_EXHAUSTED
    ensures ItemStatus(code) == 499 <==> code == CANCELLED
    ensures ItemStatus(code) == 501 <==> code == UNIMPLEMENTED
    ensures ItemStatus(code) == 503 <==> code == UNAVAILABLE
    ensures ItemStatus(code) == 500 <==> code == UNKNOWN || code == INTERNAL || code == DATA_LOSS
  {}

  // ---- routing ----

  /** The text that _BULK_PATTERN has to match to its end: $ also matches before a final
      newline. */
  function Line(url: string): string {
    if url != "" && url[|url| - 1] == '\n' then url[..|url| - 1] else url
  }

  /** A match of ^/([^/]+/)?_bulk$: the optional group without its slash. */
  function MatchBulk(url: string): Option<Option<string>> {
    var line := Line(url);
    if line == "/_bulk" then Some(None)
    else if |line| > 7 && line[0] == '/' && line[|line| - 6..] == "/_bulk" && '/' !in line[1..|line| - 6] then
      Some(Some(line[1..|line| - 6]))
    else None
  }

  predicate TakesGrpc(method_: string, url: string) {
    method_ in {"POST", "PUT"} && MatchBulk(url).Some?
  }

  function ExtractIndex(url: string, endpoint: string): Option<string> {
    var parts := Split(Strip(url, '/'), '/');
    if |parts| >= 2 && parts[|parts| - 1] == endpoint then Some(Join(parts[..|parts| - 1], '/'))
    else None
  }

  /** The two bulk URLs, as the pattern reads them. */
  ghost predicate IsBulkUrl(url: string, index: Option<string>, end: string) {
    && (end == "" || end == "\n")
    && if index.None? then url == "/_bulk" + end
       else index.value != "" && '/' !in index.value && url == "/" + index.value + "/_bulk" + end
  }

  /** Exactly POST and PUT requests to such a URL go to gRPC, with the index matched. */
  lemma TakesExactly(method_: string, url: string)
    ensures TakesGrpc(method_, url) <==>
            (method_ == "POST" || method_ == "PUT") && exists index, end :: IsBulkUrl(url, index, end)
    ensures MatchBulk(url).Some? ==> IsBulkUrl(url, MatchBulk(url).value, url[|Line(url)|..])
  {
    var line, end := Line(url), url[|Line(url)|..];
    assert url == line + end;
    if MatchBulk(url).Some? {
      match MatchBulk(url).value {
        case None =>
        case Some(index) => assert line == "/" + index + "/_bulk";
      }
      assert IsBulkUrl(url, MatchBulk(url).value, end);
    }
    forall index, end' | IsBulkUrl(url, index, end')
      ensures MatchBulk(url).Some?
    {
      BulkUrlMatches(url, index, end');
    }
  }

  lemma LineOf(body: string, end: string)
    requires body != "" && body[|body| - 1] != '\n' && (end == "" || end == "\n")
    ensures Line(body + end) == body
  {
    if end == "" {
      assert body + end == body;
    } else {
      assert (body + end)[..|body|] == body;
    }
  }

  lemma BulkUrlMatches(url: string, index: Option<string>, end: string)
    requires IsBulkUrl(url, index, end)
    ensures MatchBulk(url) == Some(index)
  {
    hide Line;
    if index.None? {
      LineOf("/_bulk", end);
    } else {
      LineOf("/" + index.value + "/_bulk", end);
    }
  }

  lemma StripInner(s: string)
    requires s != "" && s[0] != '/' && s[|s| - 1] != '/'
    ensures Strip("/" + s, '/') == s
  {
    assert ("/" + s)[1..] == s;
    assert StripLeft(s, '/') == s;
  }

  /** An index without slashes in front of the endpoint is extracted; nothing else than a
      newline at the end, which the pattern lets through, hides it. */
  lemma ExtractsIndex(index: string, end: string)
    requires index != "" && '/' !in index && '/' !in end
    ensures ExtractIndex("/" + index + "/_bulk" + end, "_bulk") == if end == "" then Some(index) else None
  {
    hide Strip, Split, Join;
    var last := "_bulk" + end;
    var s := index + "/" + last;
    assert "/" + index + "/_bulk" + end == "/" + s;
    assert s[|s| - 1] != '/' && s[0] == index[0];
    StripInner(s);
    SplitFirst(index, last, '/');
    SplitFirst(last, "", '/');
    assert Split(s, '/') == [index, last];
    JoinOne(index);
    assert [index, last][..1] == [index];
    if end != "" {
      assert |last| > 5;
    }
  }

  lemma JoinOne(index: string)
    ensures Join([index], '/') == index
  {}

  /** For every request that goes to gRPC: the index extracted from its URL is the one the
      pattern matched, if and only if the URL does not end in a newline or has no index. */
  lemma RoutedIndex(method_: string, url: string)
    requires TakesGrpc(method_, url)
    ensures ExtractIndex(url, "_bulk") == MatchBulk(url).value <==> (url == Line(url) || MatchBulk(url).value.None?)
  {
    var line := Line(url);
    var end := url[|line|..];
    assert url == line + end && '/' !in end;
    match MatchBulk(url).value
    case Some(index) =>
      assert line == "/" + index + "/_bulk";
      assert url == "/" + index + "/_bulk" + end;
      ExtractsIndex(index, end);
    case None =>
      var last := "_bulk" + end;
      assert url == "/" + last;
      assert last[|last| - 1] != '/';
      StripInner(last);
      SplitFirst(last, "", '/');
  }

  // ---- the retry loop ----

  /** What one call of the gRPC handler does. Building the request may raise, and an error
      with code OK leaves the response unset: both are not TransportErrors. */
  datatype GrpcAnswer = Reply(data: string) | RpcError(code: Code) | Breaks

  datatype Phase =
    | Answered(data: string)
    | Raises(failure: Failure)
    | BreaksOff
    | FallsBack

  function FailureOf(a: GrpcAnswer): Option<Failure> {
    if a.RpcError? && RaiseGrpcError(a.code).Some? then Some(RaiseGrpcError(a.code).value.1) else None
  }

  /** The loop goes on after this answer. */
  predicate GoesOnAfter(cfg: Config, a: GrpcAnswer, attempt: nat) {
    match FailureOf(a)
    case None => false
    case Some(f) => attempt < cfg.maxRetries && Retryable(cfg, f)
  }

  /** How an answer after which the loop does not go on ends the phase. */
  function EndOf(a: GrpcAnswer): Phase {
    match a
    case Reply(data) => Answered(data)
    case Breaks => BreaksOff
    case RpcError(_) =>
      match FailureOf(a)
      case None => BreaksOff
      case Some(Timeout) => FallsBack
      case Some(Unreachable) => FallsBack
      case Some(f) => Raises(f)
  }

  /** The gRPC phase from the given attempt on: how it ends, and how many calls it makes. */
  function GrpcPhase(cfg: Config, answers: nat -> GrpcAnswer, attempt: nat): (r: (Phase, nat))
    decreases cfg.maxRetries + 1 - attempt
  {
    if attempt > cfg.maxRetries then (FallsBack, 0)
    else if GoesOnAfter(cfg, answers(attempt), attempt) then
      var (end, calls) := GrpcPhase(cfg, answers, attempt + 1);
      (end, calls + 1)
    else (EndOf(answers(attempt)), 1)
  }

  /** after is before with at most n more. */
  ghost predicate Grown(before: set<Channel>, after: set<Channel>, n: nat) {
    before <= after && |after| <= |before| + n
  }

  class Channel {
    var closed: bool

    constructor ()
      ensures !closed
    {
      closed := false;
    }
  }

  class GrpcTransport {
    const rest: TransportClass.Transport
    var channel: Channel
    /** Every channel made so far. */
    ghost var made: set<Channel>

    /** The current channel is the only one that this transport has not closed itself. */
    ghost predicate Valid()
      reads this, made
    {
      channel in made && forall c :: c in made && c != channel ==> c.closed
    }

    constructor (rest: TransportClass.Transport)
      ensures Valid() && this.rest == rest && made == {channel} && fresh(channel) && !channel.closed
    {
      this.rest := rest;
      channel := new Channel();
      made := {channel};
    }

    /** The old channel is closed, and an open one that was never used before takes its
        place: no channel is leaked open. */
    method ReconnectChannel()
      requires Valid()
      modifies this, channel
      ensures Valid() && !channel.closed
      ensures fresh(channel) && made == old(made) + {channel}
      ensures forall c :: c in old(made) ==> c.closed
    {
      channel.closed := true;
      channel := new Channel();
      made := made + {channel};
    }

    /** _ensure_channel_connected: a channel that was shut down is replaced. */
    method EnsureChannelConnected()
      requires Valid()
      modifies this, channel
      ensures Valid() && !channel.closed
      ensures if old(channel.closed) then fresh(channel) && made == old(made) + {channel}
              else channel == old(channel) && made == old(made)
    {
      if channel.closed {
        ReconnectChannel();
      }
    }

    /** The body of the loop: None when there is to be another attempt. */
    method TryGrpc(answer: GrpcAnswer, attempt: nat) returns (ended: Option<Phase>)
      requires Valid() && !channel.closed && attempt <= rest.cfg.maxRetries
      modifies this, channel
      ensures ended == if GoesOnAfter(rest.cfg, answer, attempt) then None else Some(EndOf(answer))
      ensures Valid() && !channel.closed && Grown(old(made), made, 1)
      ensures channel == old(channel) || fresh(channel)
      ensures fresh(made - old(made))
    {
      match answer {
        case Reply(data) =>
          return Some(Answered(data));
        case Breaks =>
          return Some(BreaksOff);
        case RpcError(code) =>
          match RaiseGrpcError(code) {
            case None =>
              return Some(BreaksOff);
            case Some((_, f)) =>
              match f {
                case Timeout =>
                  return if rest.cfg.retryOnTimeout && attempt < rest.cfg.maxRetries then None else Some(FallsBack);
                case Unreachable =>
                  if attempt < rest.cfg.maxRetries {
                    ReconnectChannel();
                    return None;
                  }
                  return Some(FallsBack);
                case Status(status) =>
                  return if status in rest.cfg.retryOnStatus && attempt < rest.cfg.maxRetries then None else Some(Raises(f));
                case NoStatus =>
                  return Some(Raises(f));
              }
          }
      }
    }

    /** The loop over the gRPC handler: every call is made on an open channel, and at most one
        channel is made for each call, besides one for a channel found shut down. */
    method CallGrpc(answers: nat -> GrpcAnswer) returns (end: Phase, calls: nat)
      requires Valid()
      modifies this, made
      ensures (end, calls) == GrpcPhase(rest.cfg, answers, 0)
      ensures Valid() && !channel.closed && Grown(old(made), made, calls + 1)
      ensures fresh(made - old(made))
      ensures old(channel.closed) ==> fresh(channel)
    {
      EnsureChannelConnected();
      var attempt := 0;
      while attempt < rest.cfg.maxRetries + 1
        invariant Valid() && !channel.closed && (old(channel.closed) ==> fresh(channel))
        invariant Grown(old(made), made, attempt + 1) && fresh(made - old(made))
        invariant GrpcPhase(rest.cfg, answers, 0) ==
                  var (e, n) := GrpcPhase(rest.cfg, answers, attempt); (e, n + attempt)
        decreases rest.cfg.maxRetries + 1 - attempt
      {
        var ended := TryGrpc(answers(attempt), attempt);
        attempt := attempt + 1;
        if ended.Some? {
          return ended.value, attempt;
        }
      }
      return FallsBack, attempt;
    }

    /** perform_request: gRPC for bulk requests, REST for the others and as a fall back. */
    method PerformRequest(method_: string, url: string, answers: nat -> GrpcAnswer, env: nat -> Env)
      returns (bulk: Option<string>, reply: TransportSpec.Reply, ghost calls: nat, ghost tries: seq<Try>)
      requires Valid() && rest.Valid()
      modifies this, made, rest
      ensures Valid() && rest.Valid() && (TakesGrpc(method_, url) ==> !channel.closed)
      ensures var phase := if TakesGrpc(method_, url) then GrpcPhase(rest.cfg, answers, 0) else (FallsBack, 0);
              var request := Request(old(rest.Value()), rest.cfg, method_ == "HEAD", env, 0);
              && calls == phase.1
              && (if phase.0.FallsBack? then (rest.Value(), reply, tries) == request && bulk == None
                  else rest.Value() == old(rest.Value()) && tries == [])
              && (phase.0.Answered? ==> bulk == Some(phase.0.data))
              && (phase.0.Raises? ==> bulk == None && reply == Raised(phase.0.failure))
              && (phase.0.BreaksOff? ==> bulk == None && reply == Crashed)
    {
      calls, tries, bulk := 0, [], None;
      if TakesGrpc(method_, url) {
        var end, n := CallGrpc(answers);
        calls := n;
        match end {
          case Answered(data) =>
            return Some(data), FellOff, calls, tries;
          case Raises(f) =>
            return None, Raised(f), calls, tries;
          case BreaksOff =>
            return None, Crashed, calls, tries;
          case FallsBack =>
        }
      }
      reply, tries := rest.PerformRequest(method_ == "HEAD", env);
    }
  }

  // ---- what the loop does ----

  /** The gRPC phase ends with the first answer after which the loop does not go on. */
  lemma {:induction false} PhaseDecided(cfg: Config, answers: nat -> GrpcAnswer, attempt: nat, k: nat)
    requires attempt <= k <= cfg.maxRetries
    requires forall j :: attempt <= j < k ==> GoesOnAfter(cfg, answers(j), j)
    requires !GoesOnAfter(cfg, answers(k), k)
    ensures GrpcPhase(cfg, answers, attempt) == (EndOf(answers(k)), k - attempt + 1)
    decreases k - attempt
  {
    if attempt < k {
      PhaseDecided(cfg, answers, attempt + 1, k);
    }
  }

  /** A phase over at least one attempt falls back to REST exactly when its last call timed
      out or found the server unreachable; every other error reaches the caller. */
  lemma {:induction false} FallsBackExactly(cfg: Config, answers: nat -> GrpcAnswer, attempt: nat)
    requires attempt <= cfg.maxRetries
    ensures var (end, calls) := GrpcPhase(cfg, answers, attempt);
            && 1 <= calls <= cfg.maxRetries + 1 - attempt
            && (end == FallsBack <==> FailureOf(answers(attempt + calls - 1)) in {Some(Timeout), Some(Unreachable)})
            && (forall f :: end == Raises(f) <==>
                  FailureOf(answers(attempt + calls - 1)) == Some(f) && f !in {Timeout, Unreachable})
    decreases cfg.maxRetries + 1 - attempt
  {
    if GoesOnAfter(cfg, answers(attempt), attempt) {
      FallsBackExactly(cfg, answers, attempt + 1);
    }
  }

  /** The phase makes one more call, whatever follows. */
  ghost predicate CallsAgain(cfg: Config, answers: nat -> GrpcAnswer, attempt: nat) {
    GrpcPhase(cfg, answers, attempt) == (GrpcPhase(cfg, answers, attempt + 1).0, GrpcPhase(cfg, answers, attempt + 1).1 + 1)
  }

  /** What one call does, code by code: an unreachable server and, if timeouts are retried, a
      timeout lead to another call, and on the last attempt to REST; an error whose status is in
      retry_on_status leads to another call too, but never to REST. */
  lemma CodeDecides(cfg: Config, answers: nat -> GrpcAnswer, attempt: nat)
    requires attempt <= cfg.maxRetries
    ensures var a, phase, more := answers(attempt), GrpcPhase(cfg, answers, attempt), attempt < cfg.maxRetries;
            && (a.Reply? ==> phase == (Answered(a.data), 1))
            && (a.Breaks? || a == RpcError(OK) ==> phase == (BreaksOff, 1))
            && (a == RpcError(UNAVAILABLE) ==> if more then CallsAgain(cfg, answers, attempt) else phase == (FallsBack, 1))
            && (a == RpcError(DEADLINE_EXCEEDED) ==>
                  if cfg.retryOnTimeout && more then CallsAgain(cfg, answers, attempt) else phase == (FallsBack, 1))
            && (a == RpcError(CANCELLED) || a == RpcError(UNKNOWN) ==> phase == (Raises(NoStatus), 1))
            && (a == RpcError(RESOURCE_EXHAUSTED) ==>
                  if 429 in cfg.retryOnStatus && more then CallsAgain(cfg, answers, attempt) else phase == (Raises(Status(429)), 1))
            && (a.RpcError? && RaiseGrpcError(a.code).Some? && RaiseGrpcError(a.code).value.1.Status? ==>
                  var code := RaiseGrpcError(a.code).value.1.code;
                  if code in cfg.retryOnStatus && more then CallsAgain(cfg, answers, attempt)
                  else phase == (Raises(Status(code)), 1))
  {}

  lemma {:induction false} TriesBounded(s: State, cfg: Config, head: bool, env: nat -> Env, attempt: nat)
    requires s.pool.Usable()
    ensures |Request(s, cfg, head, env, attempt).2| <= if attempt > cfg.maxRetries then 0 else cfg.maxRetries + 1 - attempt
    decreases cfg.maxRetries + 1 - attempt
  {
    if attempt <= cfg.maxRetries {
      var last := attempt == cfg.maxRetries;
      TurnUsable(s, cfg, head, env(attempt), last);
      var (s1, ended, try) := Turn(s, cfg, head, env(attempt), last);
      if ended.None? {
        TriesBounded(s1, cfg, head, env, attempt + 1);
      }
    }
  }

  /** One bulk request is sent at most 2 * (maxRetries + 1) times, over both protocols. */
  lemma SendsBounded(s: State, cfg: Config, head: bool, answers: nat -> GrpcAnswer, env: nat -> Env)
    requires s.pool.Usable() && cfg.maxRetries >= 0
    ensures GrpcPhase(cfg, answers, 0).1 + |Request(s, cfg, head, env, 0).2| <= 2 * (cfg.maxRetries + 1)
  {
    FallsBackExactly(cfg, answers, 0);
    TriesBounded(s, cfg, head, env, 0);
  }
}
