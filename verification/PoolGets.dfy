/**
 What one call of a pool method (opensearchpy/connection_pool.py) does among many threads. Each
 of the four, run alone, is the sequential operation. A get_connection ends, whatever the other
 threads do; the connection it hands out need not be live.
 */
module PoolGets {
  import opened Prelude
  import opened PoolSpec
  import opened PoolThreads
  import opened PoolBalance

  // ---- every call ends ----

  /** How many more of its own steps a thread inside get_connection makes at most. */
  function Left(t: Thread): nat {
    match t
    case Looking(_, FirstOfGet) => 9
    case NonEmpty(_, FirstOfGet) => 8
    case Taken(_, _, FirstOfGet) => 7
    case Putting(_, FirstOfGet) => 6
    case Copying => 5
    case Copied(_) => 4
    case Looking(_, LastOfGet) => 3
    case NonEmpty(_, LastOfGet) => 2
    case Taken(_, _, LastOfGet) => 1
    case _ => 0
  }

  lemma StepLeft(s: System, i: nat, x: Choice)
    requires Inv(s) && i < |s.threads| && Left(s.threads[i]) > 0
    ensures Step(s.pool, s.threads[i], x).Some?
    ensures var u := Step(s.pool, s.threads[i], x).value.1;
            u.Handed? || 0 < Left(u) < Left(s.threads[i])
  {
    hide Enqueue, Balanced, InFlight, Ordered, MarkLive;
    StepEnabled(s, i, x);
    assert ThreadOk(s.pool, s.threads[i]);
  }

  /** Moves of one thread in a schedule. */
  function Own(moves: seq<Move>, i: nat): nat {
    if moves == [] then 0 else (if moves[0].thread == i then 1 else 0) + Own(moves[1..], i)
  }

  lemma {:induction false} ExecuteFirst(s: System, moves: seq<Move>)
    requires s.pool.orig != [] && moves != []
    ensures Execute(s, moves) == Execute(Advance(s, moves[0]), moves[1..])
    decreases |moves|
  {
    var n := |moves| - 1;
    if n == 0 {
      assert moves[..0] == [] && moves[1..] == [];
    } else {
      ExecuteFirst(s, moves[..n]);
      assert moves[..n][1..] == moves[1..][..n - 1] && moves[1..][n - 1] == moves[n];
    }
  }

  /** The thread has a connection after the first n moves. */
  ghost predicate HandedAfter(s: System, moves: seq<Move>, i: nat, n: nat)
    requires s.pool.orig != [] && i < |s.threads|
  {
    n <= |moves| && Execute(s, moves[..n]).threads[i].Handed?
  }

  lemma HandedLater(s: System, moves: seq<Move>, i: nat, n: nat)
    requires s.pool.orig != [] && i < |s.threads| && moves != []
    requires HandedAfter(Advance(s, moves[0]), moves[1..], i, n)
    ensures HandedAfter(s, moves, i, n + 1)
  {
    ExecuteFirst(s, moves[..n + 1]);
    assert moves[..n + 1][1..] == moves[1..][..n];
  }

  /** A thread inside get_connection hands out a connection after at most Left of its own
      steps, however the other threads' steps fall between them. */
  lemma {:induction false} GetDelivers(s: System, moves: seq<Move>, i: nat) returns (n: nat)
    requires Inv(s) && i < |s.threads| && 0 < Left(s.threads[i]) <= Own(moves, i)
    ensures HandedAfter(s, moves, i, n)
    decreases |moves|
  {
    hide Inv, Step, Left;
    var m := moves[0];
    OrigKept(s);
    var next := Advance(s, m);
    AdvanceKeeps(s, m);
    if m.thread == i {
      StepLeft(s, i, m.choice);
      if next.threads[i].Handed? {
        ExecuteFirst(s, moves[..1]);
        assert moves[..1][1..] == [];
        return 1;
      }
    }
    n := GetDelivers(next, moves[1..], i);
    HandedLater(s, moves, i, n);
    n := n + 1;
  }

  lemma OrigKept(s: System)
    requires Inv(s)
    ensures s.pool.orig != []
  {}

  // ---- one call run alone ----

  /** n steps of thread i alone, with the choices from x(from) on. */
  function Solo(s: System, i: nat, x: nat -> Choice, from: nat, n: nat): (r: System)
    requires s.pool.orig != []
    ensures r.pool.orig == s.pool.orig && |r.threads| == |s.threads|
    decreases n
  {
    if n == 0 then s else Solo(Advance(s, Move(i, x(from))), i, x, from + 1, n - 1)
  }

  lemma {:induction false} SoloSplit(s: System, i: nat, x: nat -> Choice, from: nat, m: nat, n: nat)
    requires s.pool.orig != []
    ensures Solo(s, i, x, from, m + n) == Solo(Solo(s, i, x, from, m), i, x, from + m, n)
    decreases m
  {
    hide Advance;
    if m > 0 {
      SoloSplit(Advance(s, Move(i, x(from))), i, x, from + 1, m - 1, n);
    }
  }

  /** After n steps thread i alone has moved: the pool is p and the thread stands at t. */
  ghost predicate Reaches(s: System, i: nat, x: nat -> Choice, n: nat, p: Pool, t: Thread)
    requires s.pool.orig != [] && i < |s.threads|
  {
    Solo(s, i, x, 0, n) == System(p, s.threads[i := t])
  }

  lemma SoloStart(s: System, i: nat, x: nat -> Choice)
    requires s.pool.orig != [] && i < |s.threads|
    ensures Reaches(s, i, x, 0, s.pool, s.threads[i])
  {
    assert s.threads[i := s.threads[i]] == s.threads;
  }

  lemma SoloStep(s: System, i: nat, x: nat -> Choice, n: nat, p: Pool, t: Thread)
    requires s.pool.orig != [] && i < |s.threads| && p.orig != []
    requires Reaches(s, i, x, n, p, t) && Step(p, t, x(n)).Some?
    ensures var (q, u) := Step(p, t, x(n)).value; Reaches(s, i, x, n + 1, q, u)
  {
    hide Step;
    var (q, u) := Step(p, t, x(n)).value;
    var here := Solo(s, i, x, 0, n);
    SoloSplit(s, i, x, 0, n, 1);
    assert Solo(here, i, x, n, 1) == Solo(Advance(here, Move(i, x(n))), i, x, n + 1, 0);
    assert s.threads[i := t][i := u] == s.threads[i := u];
  }

  /** The thread has no connection yet at any of these steps. */
  ghost predicate NotYet(s: System, i: nat, x: nat -> Choice, from: nat, until: nat)
    requires s.pool.orig != [] && i < |s.threads|
  {
    forall k :: from <= k < until ==> !Solo(s, i, x, 0, k).threads[i].Handed?
  }

  /** resurrect run alone, from its first look at the queue on, does what the sequential
      operation does. */
  lemma SoloResurrect(s: System, i: nat, x: nat -> Choice, n: nat, p: Pool, force: bool, caller: Caller)
    returns (m: nat, now: real, pick: nat)
    requires s.pool.orig != [] && i < |s.threads| && p.orig != [] && |p.dead| <= |p.orig|
    requires Reaches(s, i, x, n, p, Looking(force, caller))
    ensures n < m <= n + (if force then 3 else 4) && NotYet(s, i, x, n, m)
    ensures var (q, r) := Resurrect(p, force, now, pick); Reaches(s, i, x, m, q, Return(caller, r))
  {
    hide Enqueue, Solo;
    SoloStep(s, i, x, n, p, Looking(force, caller));
    if p.dead == [] {
      m, now, pick := n + 1, 0.0, x(n).pick;
    } else {
      SoloStep(s, i, x, n + 1, p, NonEmpty(force, caller));
      var e, rest := p.dead[0], p.(dead := p.dead[1..]);
      SoloStep(s, i, x, n + 2, rest, Taken(e, force, caller));
      now, pick := x(n + 2).clock, 0;
      if !force && e.due > now {
        SoloStep(s, i, x, n + 3, rest, Putting(e, caller));
        m := n + 4;
      } else {
        m := n + 3;
      }
    }
  }

  /** The connection that the sequential operation returns is live exactly when the pool has
      a live or a dead connection at all. */
  lemma GetIsLive(p: Pool, now: real, later: real, pick: nat, sel: nat)
    requires p.orig != []
    ensures var (q, c) := GetConnection(p, now, later, pick, sel);
            c in q.live <==> p.live != [] || p.dead != []
  {
    hide Enqueue;
    var q := Resurrect(p, false, now, pick).0;
    if q.live == [] && q.dead != [] {
      assert Resurrect(q, true, later, pick).0.live == [q.dead[0].conn];
    }
  }

  lemma QueueFits(s: System)
    requires Inv(s)
    ensures |s.pool.dead| <= |s.pool.orig|
  {
    BalancedSize(multiset(s.pool.live), DeadConns(s.pool.dead), InFlight(s.threads), multiset(s.pool.orig));
    DeadConnsSize(s.pool.dead);
  }

  lemma ResurrectFits(p: Pool, now: real, pick: nat)
    requires p.orig != []
    ensures |Resurrect(p, false, now, pick).0.dead| <= |p.dead|
  {}

  /** An unforced resurrect makes no random pick. */
  lemma PicksNothing(p: Pool, now: real, pick: nat, other: nat)
    requires p.orig != []
    ensures Resurrect(p, false, now, pick) == Resurrect(p, false, now, other)
  {}

  /** A thread that runs its get_connection alone, from any state that keeps the invariant:
      after at most ten steps it hands out what the sequential operation returns, and has
      changed the pool as that does. The connection is live exactly when the live list or the
      queue had one at the start; otherwise all are in the hands of other threads. */
  lemma SoloGet(s: System, i: nat, x: nat -> Choice)
    returns (n: nat, now: real, later: real, pick: nat, sel: nat)
    requires Inv(s) && i < |s.threads| && s.threads[i] == Idle && x(0).start == CallGetConnection
    ensures n <= 10 && NotYet(s, i, x, 0, n)
    ensures var (q, c) := GetConnection(s.pool, now, later, pick, sel);
            && Reaches(s, i, x, n, q, Handed(c))
            && (c in q.live <==> s.pool.live != [] || s.pool.dead != [])
  {
    hide Inv, Solo, Enqueue, Resurrect;
    var p := s.pool;
    OrigKept(s);
    QueueFits(s);
    SoloStart(s, i, x);
    SoloStep(s, i, x, 0, p, Idle);
    var m;
    m, now, pick := SoloResurrect(s, i, x, 1, p, false, FirstOfGet);
    var q := Resurrect(p, false, now, pick).0;
    SoloStep(s, i, x, m, q, Copying);
    SoloStep(s, i, x, m + 1, q, Copied(q.live));
    if q.live == [] {
      ghost var first := pick;
      ResurrectFits(p, now, first);
      n, later, pick := SoloResurrect(s, i, x, m + 2, q, true, LastOfGet);
      sel := 0;
      PicksNothing(p, now, first, pick);
      ForcedSome(q, later, pick);
    } else {
      n, later, sel := m + 2, 0.0, x(m + 1).pick;
    }
    GetIsLive(p, now, later, pick, sel);
  }

  lemma ForcedSome(p: Pool, now: real, pick: nat)
    requires p.orig != []
    ensures Resurrect(p, true, now, pick).1.Some?
  {}

  lemma RoomAfterRemoval(s: System, c: Conn)
    requires Inv(s) && c in s.pool.live
    ensures |s.pool.dead| < |s.pool.orig|
  {
    BalancedSize(multiset(s.pool.live), DeadConns(s.pool.dead), InFlight(s.threads), multiset(s.pool.orig));
    DeadConnsSize(s.pool.dead);
    assert |multiset(s.pool.live)| == |s.pool.live| > 0;
  }

  /** A thread that runs its mark_dead alone: four steps for a live connection, one for any
      other, and the pool is as the sequential operation leaves it, rest and count included. */
  lemma SoloMarkDead(s: System, i: nat, x: nat -> Choice, c: Conn, now: real)
    requires Inv(s) && i < |s.threads| && s.threads[i] == Idle && x(0).start == CallMarkDead(c, now)
    ensures Reaches(s, i, x, if c in s.pool.live then 4 else 1, MarkDead(s.pool, c, now), Idle)
  {
    hide Inv, Solo, Enqueue, Pow2, IndexOf;
    var p := s.pool;
    OrigKept(s);
    SoloStart(s, i, x);
    SoloStep(s, i, x, 0, p, Idle);
    if c in p.live {
      RoomAfterRemoval(s, c);
      var q := p.(live := RemoveAt(p.live, IndexOf(p.live, c)));
      var k := p.Count(c) + 1;
      SoloStep(s, i, x, 1, q, Removed(c, now));
      SoloStep(s, i, x, 2, q, CountRead(c, now, k));
      SoloStep(s, i, x, 3, q.(count := q.count[c := k]), Putting(Entry(now + q.Backoff(k), c), Alone));
    }
  }

  /** A mark_live is one step. */
  lemma SoloMarkLive(s: System, i: nat, x: nat -> Choice, c: Conn)
    requires Inv(s) && i < |s.threads| && s.threads[i] == Idle && x(0).start == CallMarkLive(c)
    ensures Reaches(s, i, x, 1, MarkLive(s.pool, c), Idle)
  {
    hide Inv, Solo;
    OrigKept(s);
    SoloStart(s, i, x);
    SoloStep(s, i, x, 0, s.pool, Idle);
  }

  // ---- a connection that is not live ----

  /** Unlike with one thread, the connection handed out need not be live. Whenever the
      live list and the queue are both empty, every connection being in the hands of other
      threads, get_connection can hand out any original connection at all. */
  lemma HandsOutDead(s: System, i: nat, pick: nat) returns (moves: seq<Move>)
    requires s.pool.orig != [] && s.pool.live == [] && s.pool.dead == []
    requires i < |s.threads| && s.threads[i] == Idle
    ensures Execute(s, moves) == s.(threads := s.threads[i := Handed(Choose(s.pool.orig, pick))])
  {
    hide Execute, Enqueue, MarkLive, IndexOf;
    NoMoves(s);
    var get := Choice(CallGetConnection, 0.0, pick);
    moves := Extend(s, [], s, i, get, Looking(false, FirstOfGet));
    moves := Extend(s, moves, s.(threads := s.threads[i := Looking(false, FirstOfGet)]), i, get, Copying);
    moves := Extend(s, moves, s.(threads := s.threads[i := Copying]), i, get, Copied([]));
    moves := Extend(s, moves, s.(threads := s.threads[i := Copied([])]), i, get, Looking(true, LastOfGet));
    moves := Extend(s, moves, s.(threads := s.threads[i := Looking(true, LastOfGet)]), i, get,
                    Handed(Choose(s.pool.orig, pick)));
  }

  lemma NoMoves(s: System)
    requires s.pool.orig != []
    ensures Execute(s, []) == s
  {}

  lemma Extend(s: System, moves: seq<Move>, r: System, i: nat, x: Choice, t: Thread)
    returns (more: seq<Move>)
    requires s.pool.orig != [] && i < |r.threads| && r == Execute(s, moves)
    requires Step(r.pool, r.threads[i], x) == Some((r.pool, t))
    ensures Execute(s, more) == r.(threads := r.threads[i := t])
  {
    more := moves + [Move(i, x)];
    assert more[..|moves|] == moves;
  }

  /** Such a state is reached by one step of a mark_dead on a pool with one connection. */
  lemma AllInFlight(c: Conn, now: real) returns (s: System, m: Move)
    ensures Start0(s) && s.threads == [Idle, Idle]
    ensures var r := Advance(s, m);
            r.pool.orig == [c] && r.pool.live == [] && r.pool.dead == []
            && r.threads == [Removed(c, now), Idle]
  {
    s := System(Pool([c], [c], [], map[], 60.0, 5), [Idle, Idle]);
    m := Move(0, Choice(CallMarkDead(c, now), now, 0));
  }

  /** Another thread may also mark the chosen connection dead before it is handed out: the
      list was copied, and nobody looks at the live list again. */
  lemma MarkedBetween(c: Conn, now: real) returns (s: System, moves: seq<Move>)
    ensures Start0(s) && s.pool.live == [c]
    ensures var r := Execute(s, moves);
            r.threads == [Handed(c), Removed(c, now)] && r.pool.live == [] && r.pool.dead == []
  {
    hide Execute;
    var p := Pool([c], [c], [], map[], 60.0, 5);
    s := System(p, [Idle, Idle]);
    var get, mark := Choice(CallGetConnection, 0.0, 0), Choice(CallMarkDead(c, now), now, 0);
    NoMoves(s);
    moves := Extend(s, [], s, 0, get, Looking(false, FirstOfGet));
    moves := Extend(s, moves, System(p, [Looking(false, FirstOfGet), Idle]), 0, get, Copying);
    moves := Extend(s, moves, System(p, [Copying, Idle]), 0, get, Copied([c]));
    var copied := System(p, [Copied([c]), Idle]);
    moves := ExtendBy(s, moves, copied, 1, mark);
    var marked := System(p.(live := []), [Copied([c]), Removed(c, now)]);
    assert Advance(copied, Move(1, mark)) == marked;
    moves := ExtendBy(s, moves, marked, 0, get);
  }

  lemma ExtendBy(s: System, moves: seq<Move>, r: System, i: nat, x: Choice) returns (more: seq<Move>)
    requires s.pool.orig != [] && r == Execute(s, moves)
    ensures Execute(s, more) == Advance(r, Move(i, x))
  {
    more := moves + [Move(i, x)];
    assert more[..|moves|] == moves;
  }
}
