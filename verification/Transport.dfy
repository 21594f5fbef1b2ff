/**
 The transport: connection reuse when the hosts change, sniffing, and the retry loop over
 the pool (opensearchpy/transport.py). The pool is used as a value here; PoolClasses ties
 that value to the pool object. What the servers answer, what the clock shows and how the
 selector chooses is an arbitrary stream, one element for each attempt.
 */
module TransportSpec {
  import opened Prelude
  import opened PoolSpec

  type Host = string

  /** The kinds of TransportError that the retry loop tells apart. */
  datatype Failure =
    | Timeout               // ConnectionTimeout
    | Unreachable           // any other ConnectionError
    | Status(code: int)     // an HTTP status
    | NoStatus              // status_code "N/A"

  datatype Payload = Nothing | Text(data: string) | Undecodable

  datatype Answer =
    | Success(status: int, payload: Payload)
    | Fails(failure: Failure)
    | Crashes               // any exception that is not a TransportError

  /** How perform_request ends. FellOff is the loop ending without an attempt deciding. */
  datatype Reply =
    | Returned(data: Option<string>)
    | Exists(yes: bool)
    | Raised(failure: Failure)
    | Crashed
    | FellOff

  datatype Config = Config(
    maxRetries: int,
    retryOnTimeout: bool,
    retryOnStatus: set<int>,
    snifferTimeout: Option<real>,
    sniffOnConnectionFail: bool,
    deadTimeout: real,
    timeoutCutoff: int)

  predicate Retryable(cfg: Config, f: Failure) {
    match f
    case Timeout => cfg.retryOnTimeout
    case Unreachable => true
    case Status(code) => code in cfg.retryOnStatus
    case NoStatus => false
  }

  /** The answer ends the request, whatever attempts are left. */
  predicate Decides(cfg: Config, head: bool, a: Answer) {
    a.Fails? ==> (head && a.failure == Status(404)) || !Retryable(cfg, a.failure)
  }

  /** What the caller gets from an answer that ends the request. */
  function Outcome(head: bool, a: Answer): (r: Reply)
    ensures r != FellOff
  {
    match a
    case Success(status, payload) =>
      if head then Exists(200 <= status < 300)
      else
        (match payload
         case Nothing => Returned(None)
         case Text(data) => Returned(Some(data))
         case Undecodable => Crashed)
    case Fails(f) => if head && f == Status(404) then Exists(false) else Raised(f)
    case Crashes => Crashed
  }

  // ---- pools ----

  /** A single connection gets a pool that never changes; without hosts there is none. */
  datatype AnyPool = NoPool | Dummy(conn: Conn) | Regular(pool: Pool)
  {
    predicate Usable() {
      Regular? ==> pool.orig != []
    }

    function Connections(): seq<Conn> {
      match this
      case NoPool => []
      case Dummy(c) => [c]
      case Regular(p) => p.live
    }
  }

  function PoolMarkDead(p: AnyPool, c: Conn, now: real): AnyPool {
    if p.Regular? then Regular(MarkDead(p.pool, c, now)) else p
  }

  function PoolMarkLive(p: AnyPool, c: Conn): AnyPool {
    if p.Regular? then Regular(MarkLive(p.pool, c)) else p
  }

  /** The clock readings and choices of one attempt. */
  datatype Env = Env(
    answer: Answer,
    checkedAt: real, sniffedAt: real, now: real, later: real, failedAt: real, resniffedAt: real,
    pick: nat, sel: nat,
    getNodes: nat -> NodeAnswer, deadNodes: nat -> NodeAnswer,
    shuffle: seq<Conn> -> seq<Conn>)

  /** One attempt as seen from outside: its connection, and whether the live list was
      empty after the unforced resurrect. */
  datatype Try = Try(conn: Conn, forced: bool)

  function PoolGet(p: AnyPool, env: Env): (AnyPool, Try)
    requires p.Usable() && !p.NoPool?
  {
    match p
    case Dummy(c) => (p, Try(c, false))
    case Regular(q) =>
      var r := GetConnection(q, env.now, env.later, env.pick, env.sel);
      (Regular(r.0), Try(r.1, Resurrect(q, false, env.now, env.pick).0.live == []))
  }

  // ---- set_connections ----

  datatype State = State(
    pool: AnyPool,
    opts: seq<(Conn, Host)>,
    seeds: seq<Conn>,
    lastSniff: real,
    nextId: Conn)   // identity of the next connection object to be created

  function Lookup(opts: seq<(Conn, Host)>, host: Host): Option<Conn> {
    if opts == [] then None
    else if opts[0].1 == host then Some(opts[0].0)
    else Lookup(opts[1..], host)
  }

  /** The connections for hosts: an unchanged host keeps its connection. */
  function Connect(opts: seq<(Conn, Host)>, hosts: seq<Host>, nextId: Conn): (r: (seq<Conn>, Conn))
    ensures |r.0| == |hosts| && r.1 >= nextId
  {
    if hosts == [] then ([], nextId)
    else
      var known := Lookup(opts, hosts[0]);
      var (rest, last) := Connect(opts, hosts[1..], if known.Some? then nextId else nextId + 1);
      ([if known.Some? then known.value else nextId] + rest, last)
  }

  function Zip(conns: seq<Conn>, hosts: seq<Host>): seq<(Conn, Host)>
    requires |conns| == |hosts|
  {
    seq(|hosts|, i requires 0 <= i < |hosts| => (conns[i], hosts[i]))
  }

  /** shuffle stands for random.shuffle: only a permutation is taken for one. */
  function NewPool(cfg: Config, conns: seq<Conn>, shuffle: seq<Conn> -> seq<Conn>): AnyPool {
    if |conns| == 1 then Dummy(conns[0])
    else
      var live := if multiset(shuffle(conns)) == multiset(conns) then shuffle(conns) else conns;
      Regular(Pool(conns, live, [], map[], cfg.deadTimeout, cfg.timeoutCutoff))
  }

  function SetConnections(s: State, cfg: Config, hosts: seq<Host>, shuffle: seq<Conn> -> seq<Conn>): State {
    var (conns, last) := Connect(s.opts, hosts, s.nextId);
    s.(pool := NewPool(cfg, conns, shuffle), opts := Zip(conns, hosts), nextId := last)
  }

  // ---- sniffing ----

  /** What one node answers to the sniff request; hosts are those left by the filter. */
  datatype NodeAnswer =
    | Nodes(hosts: seq<Host>)
    | Silent            // ConnectionError or SerializationError: ask the next one
    | Refuses(failure: Failure)   // another TransportError
    | Garbled           // another exception while asking or decoding
    | Shapeless         // decoded, but without the list of nodes

  datatype SniffReply = Sniffed | SniffFailed(failure: Failure) | SniffCrashed

  /** The first of the n connections, from i on, that is not silent. */
  function FirstResponder(nodes: nat -> NodeAnswer, i: nat, n: nat): Option<NodeAnswer>
    decreases n - i
  {
    if i >= n then None
    else if nodes(i).Silent? then FirstResponder(nodes, i + 1, n)
    else Some(nodes(i))
  }

  /** sniff_hosts. On an error while asking, last_sniff keeps its value; a reply that
      cannot be used is only noticed after last_sniff has been reset. */
  function SniffHosts(s: State, cfg: Config, nodes: nat -> NodeAnswer, now: real, shuffle: seq<Conn> -> seq<Conn>): (State, SniffReply) {
    match FirstResponder(nodes, 0, |s.pool.Connections() + s.seeds|)
    case None => (s, SniffFailed(NoStatus))
    case Some(Refuses(f)) => (s, SniffFailed(f))
    case Some(Garbled) => (s, SniffCrashed)
    case Some(Shapeless) => (s.(lastSniff := now), SniffCrashed)
    case Some(Nodes(hosts)) =>
      if hosts == [] then (s.(lastSniff := now), SniffFailed(NoStatus))
      else (SetConnections(s.(lastSniff := now), cfg, hosts, shuffle), Sniffed)
    case Some(Silent) => (s, SniffFailed(NoStatus))
  }

  predicate SniffDue(s: State, cfg: Config, now: real) {
    cfg.snifferTimeout.Some? && cfg.snifferTimeout.value != 0.0 && now >= s.lastSniff + cfg.snifferTimeout.value
  }

  /** get_connection of the transport: a due sniff comes first, and its error is the caller's. */
  function Acquire(s: State, cfg: Config, env: Env): (r: (State, Result<Try, Reply>))
    requires s.pool.Usable()
    ensures r.1.Err? ==> r.1.error != FellOff
  {
    var (s1, sniff) := if SniffDue(s, cfg, env.checkedAt) then SniffHosts(s, cfg, env.getNodes, env.sniffedAt, env.shuffle) else (s, Sniffed);
    match sniff
    case SniffFailed(f) => (s1, Err(Raised(f)))
    case SniffCrashed => (s1, Err(Crashed))
    case Sniffed =>
      if s1.pool.NoPool? then (s1, Err(Crashed)) else
      var (p, try) := PoolGet(s1.pool, env);
      (s1.(pool := p), Ok(try))
  }

  /** mark_dead of the transport; false when the sniff it starts raises something other
      than a TransportError. */
  function Fail(s: State, cfg: Config, c: Conn, env: Env): (State, bool) {
    var s1 := s.(pool := PoolMarkDead(s.pool, c, env.failedAt));
    if cfg.sniffOnConnectionFail then
      var (s2, sniff) := SniffHosts(s1, cfg, env.deadNodes, env.resniffedAt, env.shuffle);
      (s2, !sniff.SniffCrashed?)
    else (s1, true)
  }

  // ---- perform_request ----

  /** One turn of the retry loop: the state it leaves, the reply when the request ends
      here, and the try made, if a connection was obtained. */
  function Turn(s: State, cfg: Config, head: bool, env: Env, last: bool): (r: (State, Option<Reply>, seq<Try>))
    requires s.pool.Usable()
    ensures r.1 != Some(FellOff) && (last ==> r.1.Some?)
  {
    var (s1, got) := Acquire(s, cfg, env);
    match got
    case Err(reply) => (s1, Some(reply), [])
    case Ok(try) =>
      if env.answer.Success? then
        (s1.(pool := PoolMarkLive(s1.pool, try.conn)), Some(Outcome(head, env.answer)), [try])
      else if Decides(cfg, head, env.answer) then (s1, Some(Outcome(head, env.answer)), [try])
      else
        var (s2, ok) := Fail(s1, cfg, try.conn, env);
        (s2, if !ok then Some(Crashed) else if last then Some(Raised(env.answer.failure)) else None, [try])
  }

  lemma AcquireUsable(s: State, cfg: Config, env: Env)
    requires s.pool.Usable()
    ensures var r := Acquire(s, cfg, env).0;
            r.pool.Usable() && (!s.pool.NoPool? ==> !r.pool.NoPool?)
  {}

  lemma FailUsable(s: State, cfg: Config, c: Conn, env: Env)
    requires s.pool.Usable()
    ensures var r := Fail(s, cfg, c, env).0;
            r.pool.Usable() && (!s.pool.NoPool? ==> !r.pool.NoPool?)
  {}

  lemma TurnUsable(s: State, cfg: Config, head: bool, env: Env, last: bool)
    requires s.pool.Usable()
    ensures var r := Turn(s, cfg, head, env, last).0;
            r.pool.Usable() && (!s.pool.NoPool? ==> !r.pool.NoPool?)
  {
    AcquireUsable(s, cfg, env);
    var (s1, got) := Acquire(s, cfg, env);
    if got.Ok? {
      FailUsable(s1, cfg, got.value.conn, env);
    }
  }

  /** The attempts from the given one on: the state they leave, what the caller gets, and
      the tries they make. */
  function Request(s: State, cfg: Config, head: bool, env: nat -> Env, attempt: nat): (State, Reply, seq<Try>)
    requires s.pool.Usable()
    decreases cfg.maxRetries + 1 - attempt
  {
    if attempt > cfg.maxRetries then (s, FellOff, [])
    else
      var (s1, ended, try) := Turn(s, cfg, head, env(attempt), attempt == cfg.maxRetries);
      if ended.Some? then (s1, ended.value, try)
      else
        TurnUsable(s, cfg, head, env(attempt), attempt == cfg.maxRetries);
        var (s2, reply, tries) := Request(s1, cfg, head, env, attempt + 1);
        (s2, reply, try + tries)
  }

  /** whole is the request that has made the given tries and goes on as rest. */
  ghost predicate GoesOn(whole: (State, Reply, seq<Try>), tries: seq<Try>, rest: (State, Reply, seq<Try>)) {
    whole == (rest.0, rest.1, tries + rest.2)
  }

  lemma GoesOnTurn(whole: (State, Reply, seq<Try>), tries: seq<Try>,
                                      s: State, cfg: Config, head: bool, env: nat -> Env, attempt: nat)
    requires s.pool.Usable() && attempt <= cfg.maxRetries
    requires GoesOn(whole, tries, Request(s, cfg, head, env, attempt))
    ensures var (s1, ended, try) := Turn(s, cfg, head, env(attempt), attempt == cfg.maxRetries);
            && s1.pool.Usable()
            && if ended.Some? then whole == (s1, ended.value, tries + try)
               else GoesOn(whole, tries + try, Request(s1, cfg, head, env, attempt + 1))
  {
    hide Turn;
    var (s1, ended, try) := Turn(s, cfg, head, env(attempt), attempt == cfg.maxRetries);
    TurnUsable(s, cfg, head, env(attempt), attempt == cfg.maxRetries);
    if ended.None? {
      var rest := Request(s1, cfg, head, env, attempt + 1).2;
      assert tries + (try + rest) == (tries + try) + rest;
    }
  }

  // ---- which attempt decides ----

  lemma {:induction false} ResponderIsAnswer(nodes: nat -> NodeAnswer, i: nat, n: nat)
    ensures var r := FirstResponder(nodes, i, n);
            if r.None? then forall j :: i <= j < n ==> nodes(j).Silent?
            else exists j :: i <= j < n && nodes(j) == r.value && !nodes(j).Silent?
                   && forall m :: i <= m < j ==> nodes(m).Silent?
    decreases n - i
  {
    if i < n && nodes(i).Silent? {
      ResponderIsAnswer(nodes, i + 1, n);
    }
  }

  /** How many connections a sniff asks. */
  function Asked(s: State): nat {
    |s.pool.Connections() + s.seeds|
  }

  /** The first connection that is not silent names at least one host. */
  predicate FindsHosts(s: State, nodes: nat -> NodeAnswer) {
    match FirstResponder(nodes, 0, Asked(s))
    case Some(Nodes(hosts)) => hosts != []
    case _ => false
  }

  /** What the caller of a sniff that finds no hosts gets: an error of the node, or that no
      host is to be had, or an exception that is not a TransportError. */
  function SniffError(s: State, nodes: nat -> NodeAnswer): Reply {
    match FirstResponder(nodes, 0, Asked(s))
    case Some(Refuses(f)) => Raised(f)
    case Some(Garbled) => Crashed
    case Some(Shapeless) => Crashed
    case _ => Raised(NoStatus)
  }

  /** The attempt gets a connection: a sniff that is due finds hosts, and without one there
      is a pool. */
  predicate Connects(s: State, cfg: Config, env: Env) {
    if SniffDue(s, cfg, env.checkedAt) then FindsHosts(s, env.getNodes) else !s.pool.NoPool?
  }

  /** The state in which a failed attempt may start another sniff. */
  function AtFailure(s: State, cfg: Config, env: Env): State
    requires s.pool.Usable()
  {
    var (s1, got) := Acquire(s, cfg, env);
    if got.Ok? then s1.(pool := PoolMarkDead(s1.pool, got.value.conn, env.failedAt)) else s1
  }

  /** The sniff after a failure raises something other than a TransportError. */
  predicate BreaksOff(s: State, cfg: Config, env: Env)
    requires s.pool.Usable()
  {
    cfg.sniffOnConnectionFail && SniffError(AtFailure(s, cfg, env), env.deadNodes) == Crashed
  }

  /** How an attempt that starts in s ends the request; None when there is another one. */
  function Ending(s: State, cfg: Config, head: bool, env: Env, last: bool): Option<Reply>
    requires s.pool.Usable()
  {
    if !Connects(s, cfg, env) then
      Some(if SniffDue(s, cfg, env.checkedAt) then SniffError(s, env.getNodes) else Crashed)
    else if Decides(cfg, head, env.answer) then Some(Outcome(head, env.answer))
    else if BreaksOff(s, cfg, env) then Some(Crashed)
    else if last then Some(Raised(env.answer.failure))
    else None
  }

  lemma SniffReplies(s: State, cfg: Config, nodes: nat -> NodeAnswer, now: real, shuffle: seq<Conn> -> seq<Conn>)
    ensures var (t, reply) := SniffHosts(s, cfg, nodes, now, shuffle);
            && (reply.Sniffed? <==> FindsHosts(s, nodes))
            && (reply.Sniffed? ==> !t.pool.NoPool?)
            && (reply.SniffFailed? ==> SniffError(s, nodes) == Raised(reply.failure))
            && (reply.SniffCrashed? <==> SniffError(s, nodes) == Crashed)
  {
    ResponderIsAnswer(nodes, 0, Asked(s));
  }

  /** A sniff that fails keeps last_sniff, unless the answer turns out to be unusable only
      after it was taken: without the list of nodes, or without a viable host. */
  lemma LastSniffKept(s: State, cfg: Config, nodes: nat -> NodeAnswer, now: real, shuffle: seq<Conn> -> seq<Conn>)
    requires now != s.lastSniff
    ensures var (t, reply) := SniffHosts(s, cfg, nodes, now, shuffle);
            var answer := FirstResponder(nodes, 0, Asked(s));
            if t.lastSniff == s.lastSniff then !reply.Sniffed?
            else t.lastSniff == now && (reply.Sniffed? || answer == Some(Shapeless) || answer == Some(Nodes([])))
    ensures FirstResponder(nodes, 0, Asked(s)) in {Some(Shapeless), Some(Nodes([]))} ==>
              var (t, reply) := SniffHosts(s, cfg, nodes, now, shuffle); t.lastSniff == now && !reply.Sniffed?
  {}

  /** One seed that answers without the list of nodes, or with no viable host. */
  lemma SniffTooLate(cfg: Config, seed: Conn, now: real, shuffle: seq<Conn> -> seq<Conn>)
    requires now != 0.0
    ensures var s := State(NoPool, [], [seed], 0.0, 1);
            && SniffHosts(s, cfg, _ => Shapeless, now, shuffle) == (s.(lastSniff := now), SniffCrashed)
            && SniffHosts(s, cfg, _ => Nodes([]), now, shuffle) == (s.(lastSniff := now), SniffFailed(NoStatus))
            && SniffHosts(s, cfg, _ => Silent, now, shuffle) == (s, SniffFailed(NoStatus))
  {
    var s := State(NoPool, [], [seed], 0.0, 1);
    assert Asked(s) == 1;
    assert FirstResponder(_ => Silent, 1, 1) == None;
  }

  lemma AcquireConnects(s: State, cfg: Config, env: Env)
    requires s.pool.Usable()
    ensures var got := Acquire(s, cfg, env).1;
            && (got.Ok? <==> Connects(s, cfg, env))
            && (got.Err? ==> got.error == if SniffDue(s, cfg, env.checkedAt) then SniffError(s, env.getNodes) else Crashed)
  {
    hide SniffHosts, FindsHosts, SniffError, NewPool;
    SniffReplies(s, cfg, env.getNodes, env.sniffedAt, env.shuffle);
    if SniffDue(s, cfg, env.checkedAt) {
      var reply := SniffHosts(s, cfg, env.getNodes, env.sniffedAt, env.shuffle).1;
      assert reply.Sniffed? || reply.SniffFailed? || reply.SniffCrashed?;
    }
  }

  /** One attempt, for every answer and every sniff before and after it. */
  lemma TurnDecided(s: State, cfg: Config, head: bool, env: Env, last: bool)
    requires s.pool.Usable()
    ensures var (_, ended, try) := Turn(s, cfg, head, env, last);
            && ended == Ending(s, cfg, head, env, last)
            && |try| == if Connects(s, cfg, env) then 1 else 0
  {
    hide Acquire, SniffHosts, FindsHosts, SniffError, SniffDue, Connects;
    AcquireConnects(s, cfg, env);
    SniffReplies(AtFailure(s, cfg, env), cfg, env.deadNodes, env.resniffedAt, env.shuffle);
  }

  /** The state with which attempt k starts, when the attempts before it all go on. */
  ghost function StartOf(s: State, cfg: Config, head: bool, env: nat -> Env, attempt: nat, k: nat): (r: State)
    requires s.pool.Usable() && attempt <= k
    ensures r.pool.Usable()
    decreases k - attempt
  {
    if attempt == k then s
    else
      TurnUsable(s, cfg, head, env(attempt), attempt == cfg.maxRetries);
      StartOf(Turn(s, cfg, head, env(attempt), attempt == cfg.maxRetries).0, cfg, head, env, attempt + 1, k)
  }

  /** How attempt k ends the request, if it comes to it. */
  ghost function EndingAt(s: State, cfg: Config, head: bool, env: nat -> Env, attempt: nat, k: nat): Option<Reply>
    requires s.pool.Usable() && attempt <= k
  {
    Ending(StartOf(s, cfg, head, env, attempt, k), cfg, head, env(k), k == cfg.maxRetries)
  }

  /** Attempt k is the first one to end the request. */
  ghost predicate FirstEnding(s: State, cfg: Config, head: bool, env: nat -> Env, attempt: nat, k: nat)
    requires s.pool.Usable() && attempt <= k
  {
    EndingAt(s, cfg, head, env, attempt, k).Some?
    && forall j :: attempt <= j < k ==> EndingAt(s, cfg, head, env, attempt, j).None?
  }

  /** The request ends as its first attempt that ends it says; every attempt before made one
      try, and this one made one if it got a connection. */
  lemma {:induction false} EndsFirst(s: State, cfg: Config, head: bool, env: nat -> Env, attempt: nat, k: nat)
    requires s.pool.Usable() && attempt <= k <= cfg.maxRetries
    requires FirstEnding(s, cfg, head, env, attempt, k)
    ensures var (_, reply, tries) := Request(s, cfg, head, env, attempt);
            && Some(reply) == EndingAt(s, cfg, head, env, attempt, k)
            && |tries| == k - attempt + if Connects(StartOf(s, cfg, head, env, attempt, k), cfg, env(k)) then 1 else 0
    decreases k - attempt
  {
    hide Turn, Ending, Connects;
    var last := attempt == cfg.maxRetries;
    TurnDecided(s, cfg, head, env(attempt), last);
    if attempt < k {
      TurnUsable(s, cfg, head, env(attempt), last);
      var next, n := Turn(s, cfg, head, env(attempt), last).0, attempt + 1;
      assert EndingAt(s, cfg, head, env, attempt, attempt).None?;
      ConnectsUnlessEnding(s, cfg, head, env(attempt), last);
      forall j | n <= j < k
        ensures EndingAt(next, cfg, head, env, n, j).None?
      {
        assert EndingAt(s, cfg, head, env, attempt, j).None?;
      }
      EndsFirst(next, cfg, head, env, n, k);
    }
  }

  lemma ConnectsUnlessEnding(s: State, cfg: Config, head: bool, env: Env, last: bool)
    requires s.pool.Usable() && Ending(s, cfg, head, env, last).None?
    ensures Connects(s, cfg, env)
  {}

  /** Some attempt does end the request. */
  lemma {:induction false} SomeEnding(s: State, cfg: Config, head: bool, env: nat -> Env, attempt: nat) returns (k: nat)
    requires s.pool.Usable() && attempt <= cfg.maxRetries
    ensures attempt <= k <= cfg.maxRetries && FirstEnding(s, cfg, head, env, attempt, k)
    decreases cfg.maxRetries - attempt
  {
    hide Turn, Connects, BreaksOff, Decides;
    var last := attempt == cfg.maxRetries;
    if Ending(s, cfg, head, env(attempt), last).Some? {
      k := attempt;
    } else {
      TurnUsable(s, cfg, head, env(attempt), last);
      var next := Turn(s, cfg, head, env(attempt), last).0;
      k := SomeEnding(next, cfg, head, env, attempt + 1);
      forall j | attempt + 1 <= j <= k
        ensures EndingAt(next, cfg, head, env, attempt + 1, j) == EndingAt(s, cfg, head, env, attempt, j)
      {}
    }
  }

  /** No sniff gets in the way of attempt k: one that is due finds hosts, and one that its
      failure starts does not break off. */
  ghost predicate Undisturbed(s: State, cfg: Config, head: bool, env: nat -> Env, attempt: nat, k: nat)
    requires s.pool.Usable() && attempt <= k
  {
    var t := StartOf(s, cfg, head, env, attempt, k);
    Connects(t, cfg, env(k)) && (Decides(cfg, head, env(k).answer) || !BreaksOff(t, cfg, env(k)))
  }

  /** With whatever sniffing, as long as each sniff that is due finds hosts and none after a
      failure breaks off, the request ends with the first answer that is a success or not to
      be retried, and with the last attempt's failure when there is none: k is that attempt. */
  lemma DecidedBy(s: State, cfg: Config, head: bool, env: nat -> Env, attempt: nat, k: nat)
    requires s.pool.Usable() && attempt <= k <= cfg.maxRetries
    requires forall j :: attempt <= j <= k ==> Undisturbed(s, cfg, head, env, attempt, j)
    requires forall j :: attempt <= j < k ==> !Decides(cfg, head, env(j).answer)
    requires Decides(cfg, head, env(k).answer) || k == cfg.maxRetries
    ensures var (_, reply, tries) := Request(s, cfg, head, env, attempt);
            && reply == (if Decides(cfg, head, env(k).answer) then Outcome(head, env(k).answer)
                         else Raised(env(k).answer.failure))
            && |tries| == k - attempt + 1
  {
    hide Request, StartOf, Connects, BreaksOff, Outcome, Decides;
    assert Undisturbed(s, cfg, head, env, attempt, k);
    forall j | attempt <= j < k
      ensures EndingAt(s, cfg, head, env, attempt, j).None?
    {
      assert Undisturbed(s, cfg, head, env, attempt, j);
    }
    EndsFirst(s, cfg, head, env, attempt, k);
  }

  /** The other way round: no answer before attempt k ended the request and k is the first
      attempt that a sniff disturbs. Then the caller gets the error of the sniff that was due,
      and no try is made, or the exception of the sniff after the failure, which is one that
      the loop does not catch. Without a pool and without a sniff there is nothing to try. */
  lemma StoppedBySniff(s: State, cfg: Config, head: bool, env: nat -> Env, attempt: nat, k: nat)
    requires s.pool.Usable() && attempt <= k <= cfg.maxRetries
    requires forall j :: attempt <= j < k ==> Undisturbed(s, cfg, head, env, attempt, j)
    requires forall j :: attempt <= j < k ==> !Decides(cfg, head, env(j).answer)
    requires !Undisturbed(s, cfg, head, env, attempt, k)
    ensures var t := StartOf(s, cfg, head, env, attempt, k);
            var (_, reply, tries) := Request(s, cfg, head, env, attempt);
            if Connects(t, cfg, env(k)) then reply == Crashed && |tries| == k - attempt + 1
            else reply == (if SniffDue(t, cfg, env(k).checkedAt) then SniffError(t, env(k).getNodes) else Crashed)
                 && |tries| == k - attempt
  {
    hide Request, StartOf, Connects, BreaksOff, Outcome, Decides, SniffDue;
    forall j | attempt <= j < k
      ensures EndingAt(s, cfg, head, env, attempt, j).None?
    {
      assert Undisturbed(s, cfg, head, env, attempt, j);
    }
    EndsFirst(s, cfg, head, env, attempt, k);
  }

  /** The loop falls off its end only when it has no attempt to make at all. */
  lemma {:induction false} NeverFallsOff(s: State, cfg: Config, head: bool, env: nat -> Env, attempt: nat)
    requires s.pool.Usable()
    ensures Request(s, cfg, head, env, attempt).1 == FellOff <==> attempt > cfg.maxRetries
    decreases cfg.maxRetries + 1 - attempt
  {
    if attempt < cfg.maxRetries {
      TurnUsable(s, cfg, head, env(attempt), false);
      NeverFallsOff(Turn(s, cfg, head, env(attempt), false).0, cfg, head, env, attempt + 1);
    }
  }
}
