/**
 What the transport (opensearchpy/transport.py) does with each kind of answer, what it leaves
 behind in the pool, and what a sniff installs, said in terms of the configuration and the
 answers only.
 */
module TransportRules {
  import opened Prelude
  import opened PoolSpec
  import opened TransportSpec
  import opened RetryNodes

  // ---- the answer of one attempt ----

  /** The attempt gets a connection and its answer is a failure with this error. */
  ghost predicate FailsWith(s: State, cfg: Config, env: Env, f: Failure) {
    Connects(s, cfg, env) && env.answer == Fails(f)
  }

  /** A status outside retry_on_status, a missing status, and a timeout when timeouts are not
      retried reach the caller at once, after one try. */
  lemma Raises(s: State, cfg: Config, head: bool, env: nat -> Env, attempt: nat, f: Failure)
    requires s.pool.Usable() && attempt <= cfg.maxRetries && FailsWith(s, cfg, env(attempt), f)
    requires !(head && f == Status(404))
    requires f == NoStatus || (f == Timeout && !cfg.retryOnTimeout) || (f.Status? && f.code !in cfg.retryOnStatus)
    ensures Request(s, cfg, head, env, attempt).1 == Raised(f) && |Request(s, cfg, head, env, attempt).2| == 1
  {
    hide Connects, BreaksOff;
    EndsHere(s, cfg, head, env, attempt);
  }

  /** A status in retry_on_status, a timeout when timeouts are retried, and every other
      connection error lead to another attempt, or on the last one to the caller. */
  lemma Retries(s: State, cfg: Config, head: bool, env: nat -> Env, attempt: nat, f: Failure)
    requires s.pool.Usable() && attempt <= cfg.maxRetries && FailsWith(s, cfg, env(attempt), f)
    requires !(head && f == Status(404)) && !BreaksOff(s, cfg, env(attempt))
    requires f == Unreachable || (f == Timeout && cfg.retryOnTimeout) || (f.Status? && f.code in cfg.retryOnStatus)
    ensures var (next, ended, try) := Turn(s, cfg, head, env(attempt), attempt == cfg.maxRetries);
            var r := Request(s, cfg, head, env, attempt);
            && |try| == 1 && next.pool.Usable()
            && if attempt == cfg.maxRetries then r == (next, Raised(f), try)
               else GoesOn(r, try, Request(next, cfg, head, env, attempt + 1))
  {
    hide Turn, Connects, BreaksOff, Outcome;
    var last := attempt == cfg.maxRetries;
    TurnDecided(s, cfg, head, env(attempt), last);
    TurnUsable(s, cfg, head, env(attempt), last);
  }

  /** A request that an attempt ends right away. */
  lemma EndsHere(s: State, cfg: Config, head: bool, env: nat -> Env, attempt: nat)
    requires s.pool.Usable() && attempt <= cfg.maxRetries && Connects(s, cfg, env(attempt))
    requires Decides(cfg, head, env(attempt).answer)
    ensures Request(s, cfg, head, env, attempt).1 == Outcome(head, env(attempt).answer)
    ensures |Request(s, cfg, head, env, attempt).2| == 1
  {
    hide Turn, Connects, BreaksOff, Decides, Outcome;
    TurnDecided(s, cfg, head, env(attempt), attempt == cfg.maxRetries);
  }

  /** A HEAD request says whether the answer was a 2xx status; a 404 says no. Any other request
      returns the decoded data, and whatever else is raised ends it. */
  lemma Returns(s: State, cfg: Config, head: bool, env: nat -> Env, attempt: nat)
    requires s.pool.Usable() && attempt <= cfg.maxRetries && Connects(s, cfg, env(attempt))
    requires var a := env(attempt).answer; a.Success? || a.Crashes? || (head && a == Fails(Status(404)))
    ensures var a, r := env(attempt).answer, Request(s, cfg, head, env, attempt);
            && |r.2| == 1
            && (head && a.Success? ==> r.1 == Exists(a.status / 100 == 2))
            && (a == Fails(Status(404)) ==> r.1 == Exists(false))
            && (!head && a.Success? && a.payload == Nothing ==> r.1 == Returned(None))
            && (!head && a.Success? && a.payload.Text? ==> r.1 == Returned(Some(a.payload.data)))
            && (!head && a.Success? && a.payload == Undecodable ==> r.1 == Crashed)
            && (a.Crashes? ==> r.1 == Crashed)
  {
    hide Connects;
    EndsHere(s, cfg, head, env, attempt);
  }

  // ---- what an attempt leaves in the pool ----

  /** Without a sniff after failures: a success forgets the connection's failures and leaves the
      lists alone, a retried failure marks the connection dead, and any other answer changes
      nothing more. */
  lemma LeavesPool(s: State, cfg: Config, head: bool, env: Env, last: bool)
    requires s.pool.Usable() && Connects(s, cfg, env) && !cfg.sniffOnConnectionFail
    ensures var (taken, got) := Acquire(s, cfg, env);
            var t := Turn(s, cfg, head, env, last).0;
            && got.Ok? && t.(pool := taken.pool) == taken
            && (taken.pool.Dummy? ==> t == taken)
            && (taken.pool.Regular? ==>
                  var p, q, c := taken.pool.pool, t.pool, got.value.conn;
                  && q.Regular?
                  && (env.answer.Success? ==> q.pool.Count(c) == 0 && q.pool == p.(count := q.pool.count)
                                              && forall d :: d != c ==> q.pool.Count(d) == p.Count(d))
                  && (!env.answer.Success? ==>
                        q.pool == if Decides(cfg, head, env.answer) then p else MarkDead(p, c, env.failedAt)))
  {
    hide MarkDead, GetConnection, SniffHosts, SniffDue, Resurrect;
    AcquireConnects(s, cfg, env);
  }

  /** With one: the connection is dead before the sniff asks, and stays so unless the sniff finds
      hosts, which make a new pool. */
  lemma LeavesPoolSniffing(s: State, cfg: Config, head: bool, env: Env, last: bool)
    requires s.pool.Usable() && Connects(s, cfg, env) && cfg.sniffOnConnectionFail
    requires !env.answer.Success? && !Decides(cfg, head, env.answer)
    ensures var (taken, got) := Acquire(s, cfg, env);
            var t := Turn(s, cfg, head, env, last).0;
            && got.Ok?
            && var marked := if taken.pool.Regular? then
                               taken.(pool := Regular(MarkDead(taken.pool.pool, got.value.conn, env.failedAt)))
                             else taken;
            var answer := FirstResponder(env.deadNodes, 0, |marked.pool.Connections() + s.seeds|);
            if answer.Some? && answer.value.Nodes? && answer.value.hosts != [] then
              t.lastSniff == env.resniffedAt && MadeFrom(t, marked, cfg, answer.value.hosts)
            else t.pool == marked.pool && t.opts == marked.opts
  {
    hide MarkDead, GetConnection, SniffHosts, SniffDue, Resurrect, MadeFrom, Decides;
    AcquireConnects(s, cfg, env);
    var (taken, got) := Acquire(s, cfg, env);
    SeedsStay(s, cfg, env);
    SniffInstalls(taken.(pool := PoolMarkDead(taken.pool, got.value.conn, env.failedAt)), cfg, env.deadNodes,
                  env.resniffedAt, env.shuffle);
  }

  lemma SeedsStay(s: State, cfg: Config, env: Env)
    requires s.pool.Usable()
    ensures Acquire(s, cfg, env).0.seeds == s.seeds
  {
    hide SniffHosts, PoolGet;
    SniffInstalls(s, cfg, env.getNodes, env.sniffedAt, env.shuffle);
  }

  // ---- sniffing ----

  /** The pool was made from these hosts, all of them and in this order, and has the
      configuration's timeouts: one host makes a pool that never changes. */
  ghost predicate MadeFrom(t: State, s: State, cfg: Config, hosts: seq<Host>) {
    && |t.opts| == |hosts|
    && (forall i :: 0 <= i < |hosts| ==> t.opts[i].1 == hosts[i])
    && (forall i :: 0 <= i < |hosts| && Lookup(s.opts, hosts[i]).Some? ==> t.opts[i].0 == Lookup(s.opts, hosts[i]).value)
    && (t.pool.Dummy? <==> |hosts| == 1) && !t.pool.NoPool?
    && multiset(t.pool.Connections()) == multiset(ConnsOf(t.opts))
    && (t.pool.Regular? ==> t.pool.pool.orig == ConnsOf(t.opts) && t.pool.pool.dead == [] && t.pool.pool.count == map[]
                            && t.pool.pool.timeout == cfg.deadTimeout && t.pool.pool.cutoff == cfg.timeoutCutoff)
  }

  function ConnsOf(opts: seq<(Conn, Host)>): (r: seq<Conn>)
    ensures |r| == |opts| && forall i :: 0 <= i < |opts| ==> r[i] == opts[i].0
  {
    seq(|opts|, i requires 0 <= i < |opts| => opts[i].0)
  }

  lemma SetMakes(s: State, cfg: Config, hosts: seq<Host>, shuffle: seq<Conn> -> seq<Conn>)
    requires hosts != []
    ensures MadeFrom(SetConnections(s, cfg, hosts, shuffle), s, cfg, hosts)
  {
    hide Connect, Lookup;
    var t := SetConnections(s, cfg, hosts, shuffle);
    var conns := Connect(s.opts, hosts, s.nextId).0;
    forall i | 0 <= i < |hosts| && Lookup(s.opts, hosts[i]).Some?
      ensures conns[i] == Lookup(s.opts, hosts[i]).value
    {
      ConnectReuses(s.opts, hosts, s.nextId, i);
    }
    assert ConnsOf(t.opts) == conns;
    if |conns| == 1 {
      assert conns == [conns[0]];
    }
  }

  /** A sniff whose first answer names hosts makes the pool from all of them; any other sniff
      leaves pool and connections alone. */
  lemma SniffInstalls(s: State, cfg: Config, nodes: nat -> NodeAnswer, now: real, shuffle: seq<Conn> -> seq<Conn>)
    ensures var (t, reply) := SniffHosts(s, cfg, nodes, now, shuffle);
            var answer := FirstResponder(nodes, 0, |s.pool.Connections() + s.seeds|);
            && t.seeds == s.seeds
            && if answer.Some? && answer.value.Nodes? && answer.value.hosts != [] then
                 reply == Sniffed && t.lastSniff == now && MadeFrom(t, s, cfg, answer.value.hosts)
               else reply != Sniffed && t.pool == s.pool && t.opts == s.opts
  {
    hide SetConnections;
    ResponderIsAnswer(nodes, 0, |s.pool.Connections() + s.seeds|);
    var answer := FirstResponder(nodes, 0, |s.pool.Connections() + s.seeds|);
    if answer.Some? && answer.value.Nodes? && answer.value.hosts != [] {
      SetMakes(s.(lastSniff := now), cfg, answer.value.hosts, shuffle);
      SameButTime(s, cfg, answer.value.hosts, shuffle, now);
    }
  }

  lemma SameButTime(s: State, cfg: Config, hosts: seq<Host>, shuffle: seq<Conn> -> seq<Conn>, now: real)
    ensures var t := SetConnections(s.(lastSniff := now), cfg, hosts, shuffle); t.lastSniff == now && t.seeds == s.seeds
  {}

  /** The transport sniffs before an attempt exactly when the timeout is set and over. */
  lemma SniffsWhenDue(s: State, cfg: Config, env: Env)
    requires s.pool.Usable()
    ensures var t := Acquire(s, cfg, env).0;
            if cfg.snifferTimeout == None || cfg.snifferTimeout == Some(0.0) || env.checkedAt - s.lastSniff < cfg.snifferTimeout.value
            then t.(pool := s.pool) == s
            else
              var answer := FirstResponder(env.getNodes, 0, |s.pool.Connections() + s.seeds|);
              if answer.Some? && answer.value.Nodes? && answer.value.hosts != [] then
                && t.lastSniff == env.sniffedAt && |t.opts| == |answer.value.hosts|
                && forall i :: 0 <= i < |t.opts| ==> t.opts[i].1 == answer.value.hosts[i]
              else t.pool == s.pool && t.opts == s.opts && Acquire(s, cfg, env).1.Err?
  {
    hide SniffHosts, PoolGet;
    SniffInstalls(s, cfg, env.getNodes, env.sniffedAt, env.shuffle);
  }
}
