/**
 Retries go to a different node: within one request that ends before the shortest rest
 is over, a connection already tried is used again only when no live one is left.
 */
module RetryNodes {
  import opened Prelude
  import opened PoolSpec
  import opened PoolHistory
  import opened TransportSpec

  function Conns(tries: seq<Try>): (s: seq<Conn>)
    ensures |s| == |tries|
  {
    seq(|tries|, i requires 0 <= i < |tries| => tries[i].conn)
  }

  /** The shortest rest a failed connection is given. */
  function ShortestRest(p: Pool): real {
    p.timeout * Pow2(Min(0, p.cutoff))
  }

  lemma BackoffAtLeast(p: Pool, k: nat)
    requires k >= 1 && p.timeout >= 0.0
    ensures p.Backoff(k) >= ShortestRest(p)
  {
    Pow2Monotone(Min(0, p.cutoff), Min(k - 1, p.cutoff));
    Scale(p.timeout, Pow2(Min(0, p.cutoff)), Pow2(Min(k - 1, p.cutoff)));
  }

  /** With a cutoff that is not negative the shortest rest is the timeout. */
  lemma ShortestIsTimeout(p: Pool)
    requires p.cutoff >= 0
    ensures ShortestRest(p) == p.timeout
  {}

  lemma Scale(a: real, x: real, y: real)
    requires a >= 0.0 && x <= y
    ensures a * x <= a * y
  {}

  /** A pool of distinct connections, none lost. */
  ghost predicate Sound(p: Pool) {
    Conserved(p) && Distinct(p.orig)
  }

  /** Every tried connection is out of the live list until the given time at least. */
  ghost predicate Resting(p: Pool, tried: set<Conn>, until: real) {
    && (forall c :: c in tried ==> c !in p.live)
    && (forall e :: e in p.dead && e.conn in tried ==> e.due >= until)
  }

  lemma ResurrectSpares(p: Pool, now: real, pick: nat, tried: set<Conn>, until: real)
    requires Sound(p) && Resting(p, tried, until) && now < until
    ensures var q := Resurrect(p, false, now, pick).0;
            Sound(q) && Resting(q, tried, until)
  {
    ResurrectKeeps(p, false, now, pick);
    ResurrectUnforced(p, now, pick);
    var q := Resurrect(p, false, now, pick).0;
    if q != p {
      assert p.dead[0] in p.dead;
      assert q.dead == p.dead[1..];
    }
  }

  lemma FailureRests(p: Pool, c: Conn, now: real, tried: set<Conn>, until: real)
    requires Sound(p) && c in p.live && p.timeout >= 0.0
    requires forall x :: x in tried && x != c ==> x !in p.live
    requires forall e :: e in p.dead && e.conn in tried ==> e.due >= until
    requires until <= now + ShortestRest(p)
    ensures var q := MarkDead(p, c, now);
            Sound(q) && Resting(q, tried + {c}, until)
  {
    MarkDeadKeeps(p, c, now);
    BackoffAtLeast(p, p.Count(c) + 1);
    var e0 := Entry(now + p.Backoff(p.Count(c) + 1), c);
    var q := MarkDead(p, c, now);
    forall e | e in q.dead && e.conn in tried + {c}
      ensures e.due >= until
    {
      EnqueueMember(p.dead, e0, e);
      if e != e0 && e.conn == c {
        DeadIsNotLive(p, e);
      }
    }
    NotLeft(p, c);
  }

  lemma NotLeft(p: Pool, c: Conn)
    requires Sound(p) && c in p.live
    ensures c !in RemoveAt(p.live, IndexOf(p.live, c))
  {
    var rest: seq<Conn> := RemoveAt(p.live, IndexOf(p.live, c));
    DistinctMultiplicity(p.orig, c);
    RemoveAtMultiset(p.live, IndexOf(p.live, c));
    assert multiset(p.live)[c] + DeadConns(p.dead)[c] == multiset(p.orig)[c];
    assert multiset(p.live)[c] == multiset(rest)[c] + 1;
  }

  /** The readings of the clock in one attempt lie before the given time, and the failure
      is reported at start or later. */
  ghost predicate Within(env: Env, start: real, until: real) {
    env.now < until && start <= env.failedAt
  }

  ghost predicate NoSniffing(cfg: Config) {
    cfg.snifferTimeout == None && !cfg.sniffOnConnectionFail
  }

  /** Before an attempt: the tried connections rest until the given time, and a failure
      reported from start on lasts that long. */
  ghost predicate Ready(p: Pool, tried: set<Conn>, start: real, until: real) {
    Sound(p) && Resting(p, tried, until) && p.timeout >= 0.0 && until <= start + ShortestRest(p)
  }

  /** One attempt: the connection is new to the request unless the live list was empty, and when it
      fails it rests with the others. */
  lemma AttemptRests(p: Pool, env: Env, tried: set<Conn>, start: real, until: real)
    requires Ready(p, tried, start, until) && Within(env, start, until)
    ensures var (q, t) := PoolGet(Regular(p), env);
            && q.Regular?
            && (t.conn in tried ==> t.forced)
            && Ready(MarkDead(q.pool, t.conn, env.failedAt), tried + {t.conn}, start, until)
  {
    var (r, t) := PoolGet(Regular(p), env);
    GetConnectionKeeps(p, env.now, env.later, env.pick, env.sel);
    GetConnectionIsLive(p, env.now, env.later, env.pick, env.sel);
    TriedAgainOnlyForced(p, env, tried, until);
    SameShortestRest(p, r.pool);
    FailureRests(r.pool, t.conn, env.failedAt, tried, until);
    SameShortestRest(p, MarkDead(r.pool, t.conn, env.failedAt));
  }

  lemma SameShortestRest(p: Pool, q: Pool)
    requires p.timeout == q.timeout && p.cutoff == q.cutoff
    ensures ShortestRest(p) == ShortestRest(q)
  {}

  lemma TriedAgainOnlyForced(p: Pool, env: Env, tried: set<Conn>, until: real)
    requires Sound(p) && Resting(p, tried, until) && env.now < until
    ensures var (r, t) := PoolGet(Regular(p), env);
            && (t.conn in tried ==> t.forced)
            && (forall x :: x in tried && x != t.conn ==> x !in r.pool.live)
            && (forall e :: e in r.pool.dead && e.conn in tried ==> e.due >= until)
  {
    ResurrectSpares(p, env.now, env.pick, tried, until);
    var q := Resurrect(p, false, env.now, env.pick).0;
    var (r, t) := PoolGet(Regular(p), env);
    if q.live == [] {
      SomeConnection(q);
      assert r.pool.live == [t.conn] && r.pool.dead == q.dead[1..];
    } else {
      assert r.pool == q;
    }
  }

  /** One turn of the loop without sniffing. */
  lemma OneTry(s: State, cfg: Config, head: bool, env: nat -> Env, attempt: nat) returns (next: State, more: bool)
    requires s.pool.Regular? && s.pool.Usable() && NoSniffing(cfg) && attempt <= cfg.maxRetries
    ensures var (q, t) := PoolGet(s.pool, env(attempt));
            && q.Regular?
            && next.pool == Regular(MarkDead(q.pool, t.conn, env(attempt).failedAt)) && next.pool.Usable()
            && Request(s, cfg, head, env, attempt).2 ==
               if more then [t] + Request(next, cfg, head, env, attempt + 1).2 else [t]
  {
    var (s1, got) := Acquire(s, cfg, env(attempt));
    next := Fail(s1, cfg, got.value.conn, env(attempt)).0;
    more := Turn(s, cfg, head, env(attempt), attempt == cfg.maxRetries).1.None?;
  }

  /** The next attempt starts ready, with one more connection tried. */
  lemma NextAttempt(s: State, cfg: Config, head: bool, env: nat -> Env, attempt: nat,
                                       tried: set<Conn>, start: real, until: real)
    returns (t: Try, next: State, more: bool)
    requires NoSniffing(cfg) && s.pool.Regular? && Ready(s.pool.pool, tried, start, until)
    requires attempt <= cfg.maxRetries && Within(env(attempt), start, until)
    ensures t == PoolGet(s.pool, env(attempt)).1 && (t.conn in tried ==> t.forced)
    ensures next.pool == Regular(MarkDead(PoolGet(s.pool, env(attempt)).0.pool, t.conn, env(attempt).failedAt))
    ensures Ready(next.pool.pool, tried + {t.conn}, start, until)
    ensures Request(s, cfg, head, env, attempt).2 ==
            if more then [t] + Request(next, cfg, head, env, attempt + 1).2 else [t]
  {
    t := PoolGet(s.pool, env(attempt)).1;
    AttemptRests(s.pool.pool, env(attempt), tried, start, until);
    next, more := OneTry(s, cfg, head, env, attempt);
  }

  /** Every try on a connection tried before, in this list or in the given set, was forced. */
  ghost predicate Elsewhere(tries: seq<Try>, tried: set<Conn>) {
    forall i :: 0 <= i < |tries| && (tries[i].conn in tried || tries[i].conn in Conns(tries)[..i]) ==> tries[i].forced
  }

  lemma ElsewhereCons(t: Try, rest: seq<Try>, tried: set<Conn>)
    requires t.conn in tried ==> t.forced
    requires Elsewhere(rest, tried + {t.conn})
    ensures Elsewhere([t] + rest, tried)
  {
    var all := [t] + rest;
    forall i | 0 <= i < |all| && (all[i].conn in tried || all[i].conn in Conns(all)[..i])
      ensures all[i].forced
    {
      if i > 0 {
        assert Conns(all)[..i] == [t.conn] + Conns(rest)[..i - 1];
        assert all[i] == rest[i - 1];
      }
    }
  }

  /** A connection tried before, in this request or in the given set, is tried again only
      when the live list is empty after the unforced resurrect. */
  lemma {:induction false} RetriesElsewhere(s: State, cfg: Config, head: bool, env: nat -> Env, attempt: nat,
                                            tried: set<Conn>, start: real, until: real)
    requires NoSniffing(cfg) && s.pool.Regular? && Ready(s.pool.pool, tried, start, until)
    requires forall i :: attempt <= i <= cfg.maxRetries ==> Within(env(i), start, until)
    ensures Elsewhere(Request(s, cfg, head, env, attempt).2, tried)
    decreases cfg.maxRetries + 1 - attempt
  {
    if attempt <= cfg.maxRetries {
      hide Ready, Turn, PoolGet, MarkDead;
      var t, next, more := NextAttempt(s, cfg, head, env, attempt, tried, start, until);
      if more {
        RetriesElsewhere(next, cfg, head, env, attempt + 1, tried + {t.conn}, start, until);
        ElsewhereCons(t, Request(next, cfg, head, env, attempt + 1).2, tried);
      } else {
        assert Elsewhere([], tried + {t.conn});
        ElsewhereCons(t, [], tried);
        assert [t] + [] == [t];
      }
    }
  }

  /** Live connections left after an attempt that found the live list non-empty. */
  lemma OneFewerLive(p: Pool, env: Env, tried: set<Conn>, start: real, until: real)
    requires Ready(p, tried, start, until) && Within(env, start, until)
    requires forall e :: e in p.dead ==> e.conn in tried
    requires p.live != []
    ensures var (q, t) := PoolGet(Regular(p), env);
            var r := MarkDead(q.pool, t.conn, env.failedAt);
            && !t.forced && |r.live| == |p.live| - 1
            && forall e :: e in r.dead ==> e.conn in tried + {t.conn}
  {
    hide Enqueue, DeadConns, Pow2, Min, IndexOf, AtMost;
    ResurrectUnforced(p, env.now, env.pick);
    assert Resurrect(p, false, env.now, env.pick).0 == p;
    var (q, t) := PoolGet(Regular(p), env);
    assert q.pool == p && t.conn in p.live;
    var e0 := Entry(env.failedAt + p.Backoff(p.Count(t.conn) + 1), t.conn);
    var r := MarkDead(p, t.conn, env.failedAt);
    forall e | e in r.dead
      ensures e.conn in tried + {t.conn}
    {
      EnqueueMember(p.dead, e0, e);
    }
  }

  /** None of the first n tries was forced. */
  ghost predicate Unforced(tries: seq<Try>, n: nat) {
    forall i :: 0 <= i < |tries| && i < n ==> !tries[i].forced
  }

  /** While live connections remain, no attempt is forced. */
  lemma {:induction false} UnforcedWhileLive(s: State, cfg: Config, head: bool, env: nat -> Env, attempt: nat,
                                             tried: set<Conn>, start: real, until: real)
    requires NoSniffing(cfg) && s.pool.Regular? && Ready(s.pool.pool, tried, start, until)
    requires forall e :: e in s.pool.pool.dead ==> e.conn in tried
    requires forall i :: attempt <= i <= cfg.maxRetries ==> Within(env(i), start, until)
    ensures Unforced(Request(s, cfg, head, env, attempt).2, |s.pool.pool.live|)
    decreases cfg.maxRetries + 1 - attempt
  {
    if attempt <= cfg.maxRetries && s.pool.pool.live != [] {
      hide Ready, Turn, PoolGet, MarkDead;
      OneFewerLive(s.pool.pool, env(attempt), tried, start, until);
      var t, next, more := NextAttempt(s, cfg, head, env, attempt, tried, start, until);
      if more {
        UnforcedWhileLive(next, cfg, head, env, attempt + 1, tried + {t.conn}, start, until);
        UnforcedCons(t, Request(next, cfg, head, env, attempt + 1).2, |s.pool.pool.live|);
      }
    }
  }

  lemma UnforcedCons(t: Try, rest: seq<Try>, n: nat)
    requires n > 0 && !t.forced && Unforced(rest, n - 1)
    ensures Unforced([t] + rest, n)
  {
    forall i | 0 < i < |[t] + rest| && i < n
      ensures !([t] + rest)[i].forced
    {
      assert ([t] + rest)[i] == rest[i - 1];
    }
  }

  /** With all n connections live at the start, the first min(n, maxRetries + 1) attempts
      use pairwise distinct connections. */
  lemma FirstTriesDistinct(s: State, cfg: Config, head: bool, env: nat -> Env, start: real, until: real)
    requires NoSniffing(cfg) && s.pool.Regular? && Ready(s.pool.pool, {}, start, until)
    requires s.pool.pool.dead == []
    requires forall i :: 0 <= i <= cfg.maxRetries ==> Within(env(i), start, until)
    ensures var tries := Request(s, cfg, head, env, 0).2;
            forall i, j :: 0 <= i < j < |tries| && j < |s.pool.pool.orig| ==> tries[i].conn != tries[j].conn
  {
    RetriesElsewhere(s, cfg, head, env, 0, {}, start, until);
    UnforcedWhileLive(s, cfg, head, env, 0, {}, start, until);
    AccountedSize(s.pool.pool.live, s.pool.pool.dead, s.pool.pool.orig);
    DistinctFirst(Request(s, cfg, head, env, 0).2, |s.pool.pool.orig|);
  }

  lemma DistinctFirst(tries: seq<Try>, n: nat)
    requires Elsewhere(tries, {}) && Unforced(tries, n)
    ensures forall i, j :: 0 <= i < j < |tries| && j < n ==> tries[i].conn != tries[j].conn
  {
    forall i, j | 0 <= i < j < |tries| && j < n
      ensures tries[i].conn != tries[j].conn
    {
      assert Conns(tries)[..j][i] == tries[i].conn;
      assert tries[i].conn in Conns(tries)[..j];
    }
  }

  // ---- connections made from hosts ----

  /** A known host keeps its connection; every other connection is a new object. */
  lemma {:induction false} ConnectReuses(opts: seq<(Conn, Host)>, hosts: seq<Host>, nextId: Conn, i: nat)
    requires i < |hosts|
    ensures var (conns, last) := Connect(opts, hosts, nextId);
            if Lookup(opts, hosts[i]).Some? then conns[i] == Lookup(opts, hosts[i]).value
            else nextId <= conns[i] < last && forall j :: i < j < |hosts| && Lookup(opts, hosts[j]).None? ==> conns[i] < conns[j]
  {
    var known := Lookup(opts, hosts[0]);
    var next := if known.Some? then nextId else nextId + 1;
    if i > 0 {
      ConnectReuses(opts, hosts[1..], next, i - 1);
    } else if known.None? {
      forall j | 0 < j < |hosts| && Lookup(opts, hosts[j]).None?
        ensures Connect(opts, hosts, nextId).0[0] < Connect(opts, hosts, nextId).0[j]
      {
        ConnectReuses(opts, hosts[1..], next, j - 1);
      }
    }
  }

  lemma {:induction false} LookupFinds(opts: seq<(Conn, Host)>, host: Host)
    ensures var c := Lookup(opts, host);
            if c.None? then forall i :: 0 <= i < |opts| ==> opts[i].1 != host
            else exists i :: 0 <= i < |opts| && opts[i] == (c.value, host)
  {
    if opts != [] && opts[0].1 != host {
      LookupFinds(opts[1..], host);
    }
  }

  /** Every existing connection was created before the next one. */
  ghost predicate Created(opts: seq<(Conn, Host)>, nextId: Conn) {
    forall i :: 0 <= i < |opts| ==> opts[i].0 < nextId
  }

  ghost predicate DistinctConns(opts: seq<(Conn, Host)>) {
    forall i, j :: 0 <= i < j < |opts| ==> opts[i].0 != opts[j].0
  }

  /** Distinct hosts get distinct connections, so a new pool is sound again. */
  lemma ConnectDistinct(opts: seq<(Conn, Host)>, hosts: seq<Host>, nextId: Conn)
    requires Created(opts, nextId) && DistinctConns(opts) && Distinct(hosts)
    ensures Distinct(Connect(opts, hosts, nextId).0)
  {
    var (conns, last) := Connect(opts, hosts, nextId);
    forall i, j | 0 <= i < j < |conns|
      ensures conns[i] != conns[j]
    {
      ConnectReuses(opts, hosts, nextId, i);
      ConnectReuses(opts, hosts, nextId, j);
      LookupFinds(opts, hosts[i]);
      LookupFinds(opts, hosts[j]);
    }
  }

  /** Replacing the pool by sniffing keeps the transport sound: all connections of the
      new pool are live, distinct, and known hosts keep theirs. */
  lemma {:induction false} NewPoolSound(s: State, cfg: Config, hosts: seq<Host>, shuffle: seq<Conn> -> seq<Conn>)
    requires Created(s.opts, s.nextId) && DistinctConns(s.opts) && Distinct(hosts) && hosts != []
    ensures var t := SetConnections(s, cfg, hosts, shuffle);
            && Created(t.opts, t.nextId) && DistinctConns(t.opts)
            && (t.pool.Regular? ==> Initial(t.pool.pool) && Distinct(t.pool.pool.orig))
            && multiset(t.pool.Connections()) == multiset(Connect(s.opts, hosts, s.nextId).0)
            && (forall i :: 0 <= i < |hosts| ==> t.opts[i].1 == hosts[i])
            && (forall i :: 0 <= i < |hosts| && Lookup(s.opts, hosts[i]).Some? ==>
                 t.opts[i].0 == Lookup(s.opts, hosts[i]).value)
  {
    hide Connect, Lookup, NewPool;
    ConnectDistinct(s.opts, hosts, s.nextId);
    var (conns, last) := Connect(s.opts, hosts, s.nextId);
    forall i | 0 <= i < |hosts|
      ensures conns[i] < last
      ensures Lookup(s.opts, hosts[i]).Some? ==> conns[i] == Lookup(s.opts, hosts[i]).value
    {
      ConnectReuses(s.opts, hosts, s.nextId, i);
      LookupFinds(s.opts, hosts[i]);
    }
    NewPoolConnections(cfg, conns, shuffle);
  }

  lemma NewPoolConnections(cfg: Config, conns: seq<Conn>, shuffle: seq<Conn> -> seq<Conn>)
    requires conns != []
    ensures var p := NewPool(cfg, conns, shuffle);
            multiset(p.Connections()) == multiset(conns)
            && (p.Regular? ==> Initial(p.pool) && p.pool.orig == conns)
  {
    if |conns| == 1 {
      assert conns == [conns[0]];
    }
  }
}
