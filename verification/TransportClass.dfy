/**
 The transport as an object: its fields are reassigned by sniffing and by the retry loop.
 Every method is tied to the functions of TransportSpec.
 */
module TransportClass {
  import opened Prelude
  import opened PoolSpec
  import opened TransportSpec
  import opened RetryNodes

  /** The state of a new transport before any sniff: connections for the hosts, kept as
      seeds; without hosts no pool. */
  function FirstState(cfg: Config, hosts: seq<Host>, shuffle: seq<Conn> -> seq<Conn>, now: real): State {
    var empty := State(NoPool, [], [], now, 0);
    if hosts == [] then empty
    else
      var s := SetConnections(empty, cfg, hosts, shuffle);
      s.(seeds := s.pool.Connections())
  }

  class Transport {
    const cfg: Config
    const seeds: seq<Conn>
    var pool: AnyPool
    var opts: seq<(Conn, Host)>
    var lastSniff: real
    var nextId: Conn

    ghost function Value(): State
      reads this
    {
      State(pool, opts, seeds, lastSniff, nextId)
    }

    ghost predicate Valid()
      reads this
    {
      pool.Usable() && Created(opts, nextId)
    }

    /** Connections are made for the hosts, and kept as seeds for sniffing; without hosts
        there is no pool yet. */
    constructor (cfg: Config, hosts: seq<Host>, shuffle: seq<Conn> -> seq<Conn>, now: real)
      ensures Valid() && this.cfg == cfg && Value() == FirstState(cfg, hosts, shuffle, now)
      ensures hosts == [] <==> pool == NoPool
      ensures multiset(seeds) == multiset(pool.Connections())
      ensures Distinct(hosts) && pool.Regular? ==> Sound(pool.pool) && Initial(pool.pool)
    {
      hide Connect, Lookup;
      var s := State(NoPool, [], [], now, 0);
      if hosts != [] {
        s := TransportSpec.SetConnections(s, cfg, hosts, shuffle);
      }
      this.cfg := cfg;
      pool, opts, lastSniff, nextId := s.pool, s.opts, now, s.nextId;
      seeds := s.pool.Connections();
      new;
      CreatedByConnect([], hosts, 0);
      if hosts != [] && Distinct(hosts) {
        NewPoolSound(State(NoPool, [], [], now, 0), cfg, hosts, shuffle);
        if pool.Regular? {
          assert DeadConns(pool.pool.dead) == multiset{};
        }
      }
    }

    /** The whole of __init__: with sniff_on_start a sniff follows, and the construction
        succeeds only if that finds hosts. */
    static method Create(cfg: Config, hosts: seq<Host>, shuffle: seq<Conn> -> seq<Conn>, now: real,
                         sniffOnStart: bool, nodes: nat -> NodeAnswer, sniffedAt: real)
      returns (transport: Transport, reply: SniffReply)
      ensures fresh(transport) && transport.Valid() && transport.cfg == cfg
      ensures reply.Sniffed? <==> !sniffOnStart || FindsHosts(FirstState(cfg, hosts, shuffle, now), nodes)
      ensures sniffOnStart && reply.Sniffed? ==> !transport.pool.NoPool?
      ensures (transport.Value(), reply) ==
              if sniffOnStart then TransportSpec.SniffHosts(FirstState(cfg, hosts, shuffle, now), cfg, nodes, sniffedAt, shuffle)
              else (FirstState(cfg, hosts, shuffle, now), Sniffed)
    {
      transport := new Transport(cfg, hosts, shuffle, now);
      reply := Sniffed;
      if sniffOnStart {
        SniffReplies(transport.Value(), cfg, nodes, sniffedAt, shuffle);
        reply := transport.SniffHosts(nodes, sniffedAt, shuffle);
      }
    }

    /** Ask the current and then the seed connections in turn; the first that is not
        silent decides. Any error while asking leaves last_sniff as it was. */
    method GetSniffData(nodes: nat -> NodeAnswer, now: real) returns (answer: Option<NodeAnswer>)
      requires Valid()
      modifies this`lastSniff
      ensures answer == FirstResponder(nodes, 0, |pool.Connections() + seeds|)
      ensures lastSniff == if answer.Some? && (answer.value.Nodes? || answer.value.Shapeless?) then now else old(lastSniff)
    {
      var previous := lastSniff;
      lastSniff := now;
      var asked := pool.Connections() + seeds;
      for i := 0 to |asked|
        invariant lastSniff == now
        invariant FirstResponder(nodes, 0, |asked|) == FirstResponder(nodes, i, |asked|)
      {
        if !nodes(i).Silent? {
          if !nodes(i).Nodes? && !nodes(i).Shapeless? {
            lastSniff := previous;
          }
          return Some(nodes(i));
        }
      }
      lastSniff := previous;
      return None;
    }

    method SetConnections(hosts: seq<Host>, shuffle: seq<Conn> -> seq<Conn>)
      requires Valid() && hosts != []
      modifies this`pool, this`opts, this`nextId
      ensures Valid()
      ensures Value() == TransportSpec.SetConnections(old(Value()), cfg, hosts, shuffle)
    {
      var (conns, last) := Connect(opts, hosts, nextId);
      CreatedByConnect(opts, hosts, nextId);
      pool, opts, nextId := NewPool(cfg, conns, shuffle), Zip(conns, hosts), last;
    }

    method SniffHosts(nodes: nat -> NodeAnswer, now: real, shuffle: seq<Conn> -> seq<Conn>) returns (reply: SniffReply)
      requires Valid()
      modifies this
      ensures Valid()
      ensures (Value(), reply) == TransportSpec.SniffHosts(old(Value()), cfg, nodes, now, shuffle)
    {
      ResponderIsAnswer(nodes, 0, |pool.Connections() + seeds|);
      var answer := GetSniffData(nodes, now);
      match answer
      case None => return SniffFailed(NoStatus);
      case Some(Refuses(f)) => return SniffFailed(f);
      case Some(Garbled) => return SniffCrashed;
      case Some(Shapeless) => return SniffCrashed;
      case Some(Nodes(hosts)) =>
        if hosts == [] {
          return SniffFailed(NoStatus);
        }
        SetConnections(hosts, shuffle);
        return Sniffed;
    }

    method GetConnection(env: Env) returns (got: Result<Try, Reply>)
      requires Valid()
      modifies this
      ensures Valid()
      ensures (Value(), got) == Acquire(old(Value()), cfg, env)
    {
      if SniffDue(State(pool, opts, seeds, lastSniff, nextId), cfg, env.checkedAt) {
        var reply := SniffHosts(env.getNodes, env.sniffedAt, env.shuffle);
        if reply.SniffFailed? {
          return Err(Raised(reply.failure));
        }
        if reply.SniffCrashed? {
          return Err(Crashed);
        }
      }
      if pool.NoPool? {
        return Err(Crashed);
      }
      var (p, try) := PoolGet(pool, env);
      pool := p;
      return Ok(try);
    }

    method MarkDead(c: Conn, env: Env) returns (ok: bool)
      requires Valid()
      modifies this
      ensures Valid()
      ensures (Value(), ok) == Fail(old(Value()), cfg, c, env)
    {
      pool := PoolMarkDead(pool, c, env.failedAt);
      if cfg.sniffOnConnectionFail {
        var reply := SniffHosts(env.deadNodes, env.resniffedAt, env.shuffle);
        return !reply.SniffCrashed?;
      }
      return true;
    }

    /** The body of the retry loop: None when there is to be another attempt. */
    method Attempt(head: bool, env: Env, last: bool) returns (ended: Option<Reply>, ghost try: seq<Try>)
      requires Valid()
      modifies this
      ensures Valid()
      ensures (Value(), ended, try) == Turn(old(Value()), cfg, head, env, last)
    {
      var got := GetConnection(env);
      if got.Err? {
        return Some(got.error), [];
      }
      var connection := got.value.conn;
      try := [got.value];
      match env.answer {
        case Crashes =>
          return Some(Crashed), try;
        case Success(status, payload) =>
          pool := PoolMarkLive(pool, connection);
          return Some(Outcome(head, env.answer)), try;
        case Fails(f) =>
          if head && f == Status(404) {
            return Some(Exists(false)), try;
          }
          if !Retryable(cfg, f) {
            return Some(Raised(f)), try;
          }
          var ok := MarkDead(connection, env);
          if !ok {
            return Some(Crashed), try;
          }
          return if last then Some(Raised(f)) else None, try;
      }
    }

    /** The retry loop, with the tries it made. */
    method PerformRequest(head: bool, env: nat -> Env) returns (reply: Reply, ghost tries: seq<Try>)
      requires Valid()
      modifies this
      ensures Valid()
      ensures (Value(), reply, tries) == Request(old(Value()), cfg, head, env, 0)
    {
      ghost var whole := Request(Value(), cfg, head, env, 0);
      tries := [];
      var attempt := 0;
      assert [] + whole.2 == whole.2;
      while attempt < cfg.maxRetries + 1
        invariant Valid()
        invariant GoesOn(whole, tries, Request(Value(), cfg, head, env, attempt))
        decreases cfg.maxRetries + 1 - attempt
      {
        GoesOnTurn(whole, tries, Value(), cfg, head, env, attempt);
        var ended, try := Attempt(head, env(attempt), attempt == cfg.maxRetries);
        tries := tries + try;
        if ended.Some? {
          return ended.value, tries;
        }
        attempt := attempt + 1;
      }
      assert tries + [] == tries;
      return FellOff, tries;
    }
  }

  /** The connections made for hosts were all created by now. */
  lemma CreatedByConnect(opts: seq<(Conn, Host)>, hosts: seq<Host>, nextId: Conn)
    requires Created(opts, nextId)
    ensures var (conns, last) := Connect(opts, hosts, nextId);
            Created(Zip(conns, hosts), last)
  {
    var (conns, last) := Connect(opts, hosts, nextId);
    forall i | 0 <= i < |hosts|
      ensures conns[i] < last
    {
      ConnectReuses(opts, hosts, nextId, i);
      LookupFinds(opts, hosts[i]);
    }
  }
}
