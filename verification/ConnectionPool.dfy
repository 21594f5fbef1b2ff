/**
 The pool as a value: the live list, the queue of dead connections ordered by the time
 at which each may be tried again, and the failure counters. The operations are the
 sequential meaning of the methods of ConnectionPool (opensearchpy/connection_pool.py).
 Clock readings and random choices are parameters.
 */
module PoolSpec {
  import opened Prelude

  /** A connection is its object identity: equality and order both compare ids. */
  type Conn = nat

  /** The pair kept in the priority queue. */
  datatype Entry = Entry(due: real, conn: Conn)

  /** The order of pairs in the queue: by due time, ties by connection. */
  predicate AtMost(a: Entry, b: Entry) {
    a.due < b.due || (a.due == b.due && a.conn <= b.conn)
  }

  ghost predicate Ordered(q: seq<Entry>) {
    forall i, j :: 0 <= i < j < |q| ==> AtMost(q[i], q[j])
  }

  /** Where the queue puts a new entry. */
  function Enqueue(q: seq<Entry>, e: Entry): (r: seq<Entry>)
    ensures |r| == |q| + 1
  {
    if q == [] then [e]
    else if AtMost(e, q[0]) then [e] + q
    else [q[0]] + Enqueue(q[1..], e)
  }

  lemma {:induction false} EnqueueMember(q: seq<Entry>, e: Entry, x: Entry)
    ensures x in Enqueue(q, e) <==> x == e || x in q
  {
    if q != [] && !AtMost(e, q[0]) {
      EnqueueMember(q[1..], e, x);
    }
  }

  lemma {:induction false} EnqueueOrdered(q: seq<Entry>, e: Entry)
    requires Ordered(q)
    ensures Ordered(Enqueue(q, e))
  {
    if q != [] && !AtMost(e, q[0]) {
      EnqueueOrdered(q[1..], e);
      var r := Enqueue(q[1..], e);
      forall j | 0 <= j < |r|
        ensures AtMost(q[0], r[j])
      {
        EnqueueMember(q[1..], e, r[j]);
      }
    }
  }

  lemma RequeueHead(q: seq<Entry>)
    requires Ordered(q) && q != []
    ensures Enqueue(q[1..], q[0]) == q
  {
    if |q| > 1 {
      assert AtMost(q[0], q[1..][0]);
    }
    assert q == [q[0]] + q[1..];
  }

  /** 2 to the e, for any integer e. */
  function Pow2(e: int): (r: real)
    ensures r > 0.0
    decreases if e < 0 then -e else e
  {
    if e == 0 then 1.0 else if e > 0 then 2.0 * Pow2(e - 1) else Pow2(e + 1) / 2.0
  }

  lemma {:induction false} Pow2Monotone(a: int, b: int)
    requires a <= b
    ensures Pow2(a) <= Pow2(b)
    decreases b - a
  {
    if a < b {
      Pow2Monotone(a, b - 1);
      assert Pow2(b) == 2.0 * Pow2(b - 1);
    }
  }

  datatype Pool = Pool(
    orig: seq<Conn>,
    live: seq<Conn>,
    dead: seq<Entry>,
    count: map<Conn, nat>,
    timeout: real,
    cutoff: int)
  {
    function Count(c: Conn): nat {
      if c in count then count[c] else 0
    }

    /** How long a connection rests after its k-th failure in a row. */
    function Backoff(k: int): real {
      timeout * Pow2(Min(k - 1, cutoff))
    }
  }

  /** The rest after the first failure is the timeout; each further one doubles it, until the
      failures pass the cutoff. */
  lemma BackoffDoubles(p: Pool, k: nat)
    requires k >= 1 && p.cutoff >= 0
    ensures p.Backoff(1) == p.timeout
    ensures if k <= p.cutoff then p.Backoff(k + 1) == 2.0 * p.Backoff(k) else p.Backoff(k + 1) == p.Backoff(k)
  {
    assert Pow2(k) == 2.0 * Pow2(k - 1);
    Double(p.timeout, Pow2(k - 1));
  }

  lemma Double(a: real, x: real)
    ensures a * (2.0 * x) == 2.0 * (a * x)
  {}

  /** The pool made by the constructor; live is the given list, shuffled or not. */
  ghost predicate Initial(p: Pool) {
    && p.orig != []
    && multiset(p.live) == multiset(p.orig)
    && p.dead == []
    && p.count == map[]
  }

  function DeadConns(q: seq<Entry>): multiset<Conn> {
    if q == [] then multiset{} else multiset{q[0].conn} + DeadConns(q[1..])
  }

  lemma {:induction false} DeadConnsEnqueue(q: seq<Entry>, e: Entry)
    ensures DeadConns(Enqueue(q, e)) == DeadConns(q) + multiset{e.conn}
  {
    if q != [] && !AtMost(e, q[0]) {
      DeadConnsEnqueue(q[1..], e);
      assert Enqueue(q, e)[1..] == Enqueue(q[1..], e);
    } else {
      assert Enqueue(q, e)[1..] == q;
    }
  }

  lemma {:induction false} DeadConnsSize(q: seq<Entry>)
    ensures |DeadConns(q)| == |q|
  {
    if q != [] {
      DeadConnsSize(q[1..]);
    }
  }

  lemma {:induction false} DeadConnsMember(q: seq<Entry>, e: Entry)
    requires e in q
    ensures e.conn in DeadConns(q)
  {
    if q[0] != e {
      DeadConnsMember(q[1..], e);
    }
  }

  /** Every original connection is live or dead, once each. */
  ghost predicate Accounted(live: seq<Conn>, dead: seq<Entry>, orig: seq<Conn>) {
    multiset(live) + DeadConns(dead) == multiset(orig)
  }

  ghost predicate Conserved(p: Pool) {
    p.orig != [] && Ordered(p.dead) && Accounted(p.live, p.dead, p.orig)
  }

  /** A live connection that is queued stays accounted for. */
  lemma AccountedRetire(live: seq<Conn>, dead: seq<Entry>, orig: seq<Conn>, k: nat, e: Entry)
    requires k < |live| && e.conn == live[k] && Accounted(live, dead, orig)
    ensures Accounted(RemoveAt(live, k), Enqueue(dead, e), orig)
  {
    RemoveAtMultiset(live, k);
    DeadConnsEnqueue(dead, e);
  }

  /** The head of the queue, moved to the live list, stays accounted for. */
  lemma AccountedRevive(live: seq<Conn>, dead: seq<Entry>, orig: seq<Conn>)
    requires dead != [] && Accounted(live, dead, orig)
    ensures Accounted(live + [dead[0].conn], dead[1..], orig)
  {
    assert multiset(live + [dead[0].conn]) == multiset(live) + multiset{dead[0].conn};
  }

  lemma AccountedSize(live: seq<Conn>, dead: seq<Entry>, orig: seq<Conn>)
    requires Accounted(live, dead, orig)
    ensures |live| + |dead| == |orig|
  {
    DeadConnsSize(dead);
    assert |multiset(live) + DeadConns(dead)| == |multiset(live)| + |DeadConns(dead)|;
    assert |multiset(orig)| == |orig| && |multiset(live)| == |live|;
  }

  lemma AccountedMember(live: seq<Conn>, dead: seq<Entry>, orig: seq<Conn>, c: Conn)
    requires Accounted(live, dead, orig)
    ensures c in live || c in DeadConns(dead) <==> c in orig
  {
    assert c in live <==> c in multiset(live);
    assert c in orig <==> c in multiset(orig);
  }

  // ---- the operations ----

  /** mark_dead: no effect unless the connection is live. */
  function MarkDead(p: Pool, c: Conn, now: real): (q: Pool)
    ensures q.orig == p.orig && q.timeout == p.timeout && q.cutoff == p.cutoff
  {
    if c !in p.live then p
    else
      var k := p.Count(c) + 1;
      p.(live := RemoveAt(p.live, IndexOf(p.live, c)),
         count := p.count[c := k],
         dead := Enqueue(p.dead, Entry(now + p.Backoff(k), c)))
  }

  /** mark_live: forget the failures. */
  function MarkLive(p: Pool, c: Conn): Pool {
    p.(count := map x | x in p.count && x != c :: p.count[x])
  }

  /** resurrect: the pool afterwards and the connection returned, if any.
      pick stands for random.choice over the original connections. */
  function Resurrect(p: Pool, force: bool, now: real, pick: nat): (r: (Pool, Option<Conn>))
    requires p.orig != []
    ensures r.0.orig == p.orig && r.0.timeout == p.timeout && r.0.cutoff == p.cutoff
  {
    if p.dead == [] then
      (p, if force then Some(Choose(p.orig, pick)) else None)
    else
      var e := p.dead[0];
      if !force && e.due > now then
        (p.(dead := Enqueue(p.dead[1..], e)), None)
      else
        (p.(dead := p.dead[1..], live := p.live + [e.conn]), Some(e.conn))
  }

  /** get_connection: sel stands for the selector's choice among the live list. */
  function GetConnection(p: Pool, now: real, later: real, pick: nat, sel: nat): (r: (Pool, Conn))
    requires p.orig != []
    ensures r.0.orig == p.orig && r.0.timeout == p.timeout && r.0.cutoff == p.cutoff
  {
    var q := Resurrect(p, false, now, pick).0;
    if q.live == [] then
      var r := Resurrect(q, true, later, pick);
      (r.0, r.1.value)
    else if |q.live| > 1 then (q, Choose(q.live, sel))
    else (q, q.live[0])
  }

  // ---- what every operation keeps ----

  lemma MarkDeadKeeps(p: Pool, c: Conn, now: real)
    requires Conserved(p)
    ensures Conserved(MarkDead(p, c, now))
    ensures c in p.live ==> |p.dead| < |p.orig|
  {
    hide Enqueue, DeadConns, Pow2, Min, IndexOf, AtMost;
    if c in p.live {
      var e := Entry(now + p.Backoff(p.Count(c) + 1), c);
      EnqueueOrdered(p.dead, e);
      AccountedRetire(p.live, p.dead, p.orig, IndexOf(p.live, c), e);
      AccountedSize(p.live, p.dead, p.orig);
    }
  }

  lemma ResurrectKeeps(p: Pool, force: bool, now: real, pick: nat)
    requires Conserved(p)
    ensures Conserved(Resurrect(p, force, now, pick).0)
  {
    if p.dead != [] {
      RequeueHead(p.dead);
      AccountedRevive(p.live, p.dead, p.orig);
    }
  }

  lemma GetConnectionKeeps(p: Pool, now: real, later: real, pick: nat, sel: nat)
    requires Conserved(p)
    ensures Conserved(GetConnection(p, now, later, pick, sel).0)
  {
    ResurrectKeeps(p, false, now, pick);
    ResurrectKeeps(Resurrect(p, false, now, pick).0, true, later, pick);
  }

  /** With one thread a connection handed out is live and is an original one. */
  lemma GetConnectionIsLive(p: Pool, now: real, later: real, pick: nat, sel: nat)
    requires Conserved(p)
    ensures var r := GetConnection(p, now, later, pick, sel);
            r.1 in r.0.live && r.1 in p.orig
  {
    SomeConnection(p);
    GetConnectionKeeps(p, now, later, pick, sel);
    var r := GetConnection(p, now, later, pick, sel);
    LiveIsOriginal(r.0, r.1);
  }

  lemma SomeConnection(p: Pool)
    requires Conserved(p)
    ensures p.live != [] || p.dead != []
  {
    AccountedSize(p.live, p.dead, p.orig);
  }

  lemma LiveIsOriginal(p: Pool, c: Conn)
    requires Conserved(p) && c in p.live
    ensures c in p.orig
  {
    AccountedMember(p.live, p.dead, p.orig, c);
  }

  /** An unforced resurrect brings a connection back exactly when some due time has
      passed, and then the earliest; otherwise it leaves the pool as it was. */
  lemma ResurrectUnforced(p: Pool, now: real, pick: nat)
    requires Ordered(p.dead) && p.orig != []
    ensures var (q, c) := Resurrect(p, false, now, pick);
            if exists e :: e in p.dead && e.due <= now then
              && p.dead != [] && c == Some(p.dead[0].conn)
              && q == p.(live := p.live + [c.value], dead := p.dead[1..])
              && p.dead[0].due <= now
              && forall e :: e in p.dead ==> AtMost(p.dead[0], e)
            else q == p && c == None
  {
    if p.dead != [] {
      RequeueHead(p.dead);
      if p.dead[0].due <= now {
        assert p.dead[0] in p.dead;
      }
    }
  }

  /** A forced resurrect takes the earliest entry whatever the time is; only on an empty
      queue does it fall back to some original connection without changing the pool. */
  lemma ResurrectForced(p: Pool, now: real, pick: nat)
    requires Ordered(p.dead) && p.orig != []
    ensures var (q, c) := Resurrect(p, true, now, pick);
            if p.dead == [] then q == p && c.Some? && c.value in p.orig
            else
              && c == Some(p.dead[0].conn)
              && q == p.(live := p.live + [c.value], dead := p.dead[1..])
              && forall e :: e in p.dead ==> AtMost(p.dead[0], e)
  {}
}
