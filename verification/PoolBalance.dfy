/**
 What every step of every thread keeps (opensearchpy/connection_pool.py): live list + queue + in
 flight is the multiset of original connections, and no thread is ever blocked.
 */
module PoolBalance {
  import opened Prelude
  import opened PoolSpec
  import opened PoolThreads

  // ---- one step moves a connection between the live list, the queue and one thread ----

  /** What one step does to the live list, the queue and the thread's hand. */
  datatype Effect = Still | RemoveLive | PutDead | TakeDead | AppendLive

  ghost predicate Does(effect: Effect, p: Pool, t: Thread, q: Pool, u: Thread) {
    match effect
    case Still => q.live == p.live && q.dead == p.dead && t.Hand() == u.Hand()
    case RemoveLive =>
      && t.Hand() == None && u.Hand().Some? && u.Hand().value in p.live && q.dead == p.dead
      && q.live == RemoveAt(p.live, IndexOf(p.live, u.Hand().value))
    case PutDead =>
      t.Putting? && u.Hand() == None && q.live == p.live && q.dead == Enqueue(p.dead, t.entry)
    case TakeDead =>
      && t.Hand() == None && p.dead != [] && u.Hand() == Some(p.dead[0].conn)
      && q.live == p.live && q.dead == p.dead[1..]
    case AppendLive =>
      t.Taken? && u.Hand() == None && q.live == p.live + [t.entry.conn] && q.dead == p.dead
  }

  lemma StepDoes(p: Pool, t: Thread, x: Choice) returns (effect: Effect)
    requires p.orig != [] && Step(p, t, x).Some?
    ensures var (q, u) := Step(p, t, x).value; q.orig == p.orig && Does(effect, p, t, q, u)
  {
    effect :=
      match t
      case Idle => if x.start.CallMarkDead? && x.start.conn in p.live then RemoveLive else Still
      case Putting(_, _) => PutDead
      case NonEmpty(_, _) => if p.dead == [] then Still else TakeDead
      case Taken(e, force, _) => if !force && e.due > x.clock then Still else AppendLive
      case _ => Still;
  }

  ghost function Total(live: seq<Conn>, dead: seq<Entry>, hand: Option<Conn>): multiset<Conn> {
    multiset(live) + DeadConns(dead) + Hands(hand)
  }

  lemma TotalRemove(live: seq<Conn>, dead: seq<Entry>, k: nat)
    requires k < |live|
    ensures Total(RemoveAt(live, k), dead, Some(live[k])) == Total(live, dead, None)
  {
    hide DeadConns, RemoveAt;
    RemoveAtMultiset(live, k);
  }

  lemma TotalEnqueue(live: seq<Conn>, dead: seq<Entry>, e: Entry)
    ensures Total(live, Enqueue(dead, e), None) == Total(live, dead, Some(e.conn))
  {
    hide DeadConns, Enqueue;
    DeadConnsEnqueue(dead, e);
  }

  lemma TotalTake(live: seq<Conn>, dead: seq<Entry>)
    requires dead != []
    ensures Total(live, dead[1..], Some(dead[0].conn)) == Total(live, dead, None)
  {}

  lemma TotalAppend(live: seq<Conn>, dead: seq<Entry>, c: Conn)
    ensures Total(live + [c], dead, None) == Total(live, dead, Some(c))
  {
    hide DeadConns;
    assert multiset(live + [c]) == multiset(live) + multiset{c};
  }

  /** No effect changes the total. */
  lemma DoesBalance(effect: Effect, p: Pool, t: Thread, q: Pool, u: Thread)
    requires Does(effect, p, t, q, u)
    ensures Total(q.live, q.dead, u.Hand()) == Total(p.live, p.dead, t.Hand())
  {
    hide Total;
    match effect
    case Still =>
    case RemoveLive => TotalRemove(p.live, p.dead, IndexOf(p.live, u.Hand().value));
    case PutDead => TotalEnqueue(p.live, p.dead, t.entry);
    case TakeDead => TotalTake(p.live, p.dead);
    case AppendLive => TotalAppend(p.live, p.dead, t.entry.conn);
  }

  lemma StepOrder(p: Pool, t: Thread, x: Choice)
    requires p.orig != [] && Step(p, t, x).Some? && Ordered(p.dead)
    ensures Ordered(Step(p, t, x).value.0.dead)
  {
    if t.Putting? {
      EnqueueOrdered(p.dead, t.entry);
    }
  }

  lemma StepThreadOk(p: Pool, t: Thread, x: Choice)
    requires p.orig != [] && Step(p, t, x).Some? && ThreadOk(p, t)
    requires forall c :: c in p.live ==> c in p.orig
    requires t.Hand().Some? ==> t.Hand().value in p.orig
    ensures var (q, u) := Step(p, t, x).value; q.orig == p.orig && ThreadOk(q, u)
  {
  }

  lemma BalancedMember(live: seq<Conn>, dead: multiset<Conn>, held: multiset<Conn>, orig: seq<Conn>, c: Conn)
    requires Balanced(multiset(live), dead, held, multiset(orig))
    requires c in live || c in held
    ensures c in orig
  {
    assert c in live ==> c in multiset(live);
    assert c in multiset(orig);
  }

  lemma BalancedSize(live: multiset<Conn>, dead: multiset<Conn>, held: multiset<Conn>, orig: multiset<Conn>)
    requires Balanced(live, dead, held, orig)
    ensures |live| + |dead| + |held| == |orig|
  {
    assert |live + dead + held| == |live + dead| + |held|;
  }

  // ---- one step of one thread keeps the balance over all threads ----

  lemma {:induction false} InFlightUpdate(threads: seq<Thread>, i: nat, t: Thread)
    requires i < |threads|
    ensures InFlight(threads[i := t]) + threads[i].Held() == InFlight(threads) + t.Held()
  {
    if i > 0 {
      InFlightUpdate(threads[1..], i - 1, t);
      assert threads[i := t][1..] == threads[1..][i - 1 := t];
      Shuffle(threads[0].Held(), InFlight(threads[1..][i - 1 := t]), threads[i].Held());
      Shuffle(threads[0].Held(), InFlight(threads[1..]), t.Held());
    } else {
      assert threads[i := t][1..] == threads[1..];
      Shuffle(t.Held(), InFlight(threads[1..]), threads[0].Held());
    }
  }

  lemma Shuffle(a: multiset<Conn>, b: multiset<Conn>, c: multiset<Conn>)
    ensures (a + b) + c == a + (b + c)
    ensures (a + b) + c == (c + b) + a
  {}

  lemma {:induction false} HeldInFlight(threads: seq<Thread>, i: nat)
    requires i < |threads|
    ensures threads[i].Held() <= InFlight(threads)
  {
    if i > 0 {
      HeldInFlight(threads[1..], i - 1);
    }
  }

  lemma AdvanceBalance(s: System, i: nat, x: Choice)
    requires Inv(s) && i < |s.threads| && Step(s.pool, s.threads[i], x).Some?
    ensures var (q, u) := Step(s.pool, s.threads[i], x).value;
            Balanced(multiset(q.live), DeadConns(q.dead), InFlight(s.threads[i := u]), multiset(q.orig))
  {
    var p, t := s.pool, s.threads[i];
    var (q, u) := Step(p, t, x).value;
    var effect := StepDoes(p, t, x);
    DoesBalance(effect, p, t, q, u);
    InFlightUpdate(s.threads, i, u);
    Exchange(multiset(p.live) + DeadConns(p.dead), InFlight(s.threads), t.Held(),
             multiset(q.live) + DeadConns(q.dead), InFlight(s.threads[i := u]), u.Held());
  }

  lemma Exchange(l: multiset<Conn>, f: multiset<Conn>, t: multiset<Conn>,
                                    m: multiset<Conn>, g: multiset<Conn>, u: multiset<Conn>)
    requires l + t == m + u && g + t == f + u
    ensures l + f == m + g
  {
    forall c: Conn
      ensures (l + f)[c] == (m + g)[c]
    {
      assert (l + t)[c] == (m + u)[c] && (g + t)[c] == (f + u)[c];
    }
  }

  lemma AdvanceThreadOk(s: System, i: nat, x: Choice)
    requires Inv(s) && i < |s.threads| && Step(s.pool, s.threads[i], x).Some?
    ensures var (q, u) := Step(s.pool, s.threads[i], x).value;
            q.orig == s.pool.orig && ThreadOk(q, u)
  {
    var p, t := s.pool, s.threads[i];
    HeldInFlight(s.threads, i);
    forall c | c in p.live || t.Hand() == Some(c)
      ensures c in p.orig
    {
      assert t.Hand() == Some(c) ==> c in InFlight(s.threads);
      BalancedMember(p.live, DeadConns(p.dead), InFlight(s.threads), p.orig, c);
    }
    StepThreadOk(p, t, x);
  }

  lemma AdvanceKeeps(s: System, m: Move)
    requires Inv(s)
    ensures Inv(Advance(s, m))
  {
    if m.thread < |s.threads| && Step(s.pool, s.threads[m.thread], m.choice).Some? {
      AdvanceBalance(s, m.thread, m.choice);
      AdvanceThreadOk(s, m.thread, m.choice);
      StepOrder(s.pool, s.threads[m.thread], m.choice);
    }
  }

  lemma {:induction false} NothingInFlight(threads: seq<Thread>)
    requires forall i :: 0 <= i < |threads| ==> threads[i] == Idle
    ensures InFlight(threads) == multiset{}
  {
    if threads != [] {
      NothingInFlight(threads[1..]);
    }
  }

  /** In every interleaving, live list + queue + in flight is the multiset of original
      connections, and every connection handed out is an original one. */
  lemma {:induction false} Conservation(s: System, moves: seq<Move>)
    requires Start0(s)
    ensures var r := Execute(s, moves);
            && multiset(r.pool.live) + DeadConns(r.pool.dead) + InFlight(r.threads) == multiset(s.pool.orig)
            && (forall i :: 0 <= i < |r.threads| && r.threads[i].Handed? ==> r.threads[i].conn in s.pool.orig)
            && Inv(r)
  {
    if moves == [] {
      NothingInFlight(s.threads);
      assert DeadConns(s.pool.dead) == multiset{};
    } else {
      Conservation(s, moves[..|moves| - 1]);
      AdvanceKeeps(Execute(s, moves[..|moves| - 1]), moves[|moves| - 1]);
    }
  }

  /** In every interleaving no thread is ever blocked: a thread about to put an entry
      finds the bounded queue not full. */
  lemma NeverBlocked(s: System, moves: seq<Move>, i: nat, x: Choice)
    requires Start0(s) && i < |s.threads|
    ensures var r := Execute(s, moves);
            Step(r.pool, r.threads[i], x).Some?
  {
    Conservation(s, moves);
    StepEnabled(Execute(s, moves), i, x);
  }

  lemma StepEnabled(s: System, i: nat, x: Choice)
    requires Inv(s) && i < |s.threads|
    ensures Step(s.pool, s.threads[i], x).Some?
  {
    if s.threads[i].Putting? {
      RoomToPut(s, i);
    }
  }

  lemma RoomToPut(s: System, i: nat)
    requires Inv(s) && i < |s.threads| && s.threads[i].Putting?
    ensures |s.pool.dead| < |s.pool.orig|
  {
    HeldInFlight(s.threads, i);
    assert s.threads[i].entry.conn in InFlight(s.threads);
    BalancedSize(multiset(s.pool.live), DeadConns(s.pool.dead), InFlight(s.threads), multiset(s.pool.orig));
    DeadConnsSize(s.pool.dead);
  }
}
