/**
 The pool under many threads. Each method of ConnectionPool is cut into its atomic list,
 dictionary and queue operations; between two of them a thread may hold one connection
 that is neither in the live list nor in the queue. A schedule picks, at every step, the
 thread that moves, and resolves its choices (the operation it starts, its clock reading,
 its random pick).
 */
module PoolThreads {
  import opened Prelude
  import opened PoolSpec

  /** Who called resurrect. */
  datatype Caller = Alone | FirstOfGet | LastOfGet

  /** Where a thread stands. The names say what it has just done. */
  datatype Thread =
    | Idle
    /** mark_dead: removed the connection; then read its counter; then stored it. */
    | Removed(conn: Conn, now: real)
    | CountRead(conn: Conn, now: real, count: nat)
    /** About to put an entry: the failed one, or the ineligible one put back. */
    | Putting(entry: Entry, caller: Caller)
    /** resurrect: about to look at the queue; saw it non-empty; took an entry. */
    | Looking(force: bool, caller: Caller)
    | NonEmpty(force: bool, caller: Caller)
    | Taken(entry: Entry, force: bool, caller: Caller)
    /** get_connection: about to copy the live list; chose from the copy. */
    | Copying
    | Copied(list: seq<Conn>)
    /** get_connection returned this connection. */
    | Handed(conn: Conn)
  {
    /** The connection that the thread alone holds, if any. */
    function Hand(): Option<Conn> {
      match this
      case Removed(c, _) => Some(c)
      case CountRead(c, _, _) => Some(c)
      case Putting(e, _) => Some(e.conn)
      case Taken(e, _, _) => Some(e.conn)
      case _ => None
    }

    function Held(): multiset<Conn> {
      Hands(Hand())
    }
  }

  function Hands(hand: Option<Conn>): multiset<Conn> {
    if hand.Some? then multiset{hand.value} else multiset{}
  }

  /** How a step resolves what the program leaves open. */
  datatype Choice = Choice(start: Start, clock: real, pick: nat)

  datatype Start =
    | CallMarkDead(conn: Conn, now: real)
    | CallMarkLive(conn: Conn)
    | CallResurrect(force: bool)
    | CallGetConnection

  /** What a thread does once resurrect has returned r (nothing when None). */
  function Return(caller: Caller, r: Option<Conn>): Thread {
    match caller
    case Alone => Idle
    case FirstOfGet => Copying
    case LastOfGet => if r.Some? then Handed(r.value) else Idle
  }

  /** resurrect on a queue found empty. */
  function OnEmpty(p: Pool, force: bool, caller: Caller, pick: nat): Thread
    requires p.orig != []
  {
    Return(caller, if force then Some(Choose(p.orig, pick)) else None)
  }

  /** One atomic step of one thread; None when the thread is blocked. */
  function Step(p: Pool, t: Thread, x: Choice): Option<(Pool, Thread)>
    requires p.orig != []
  {
    match t
    case Idle =>
      (match x.start
       case CallMarkDead(c, now) =>
         if c in p.live then
           Some((p.(live := RemoveAt(p.live, IndexOf(p.live, c))), Removed(c, now)))
         else Some((p, Idle))
       case CallMarkLive(c) => Some((MarkLive(p, c), Idle))
       case CallResurrect(force) => Some((p, Looking(force, Alone)))
       case CallGetConnection => Some((p, Looking(false, FirstOfGet))))
    case Removed(c, now) => Some((p, CountRead(c, now, p.Count(c) + 1)))
    case CountRead(c, now, k) =>
      Some((p.(count := p.count[c := k]), Putting(Entry(now + p.Backoff(k), c), Alone)))
    case Putting(e, caller) =>
      if |p.dead| >= |p.orig| then None
      else Some((p.(dead := Enqueue(p.dead, e)), Return(caller, None)))
    case Looking(force, caller) =>
      Some((p, if p.dead == [] then OnEmpty(p, force, caller, x.pick) else NonEmpty(force, caller)))
    case NonEmpty(force, caller) =>
      if p.dead == [] then Some((p, OnEmpty(p, force, caller, x.pick)))
      else Some((p.(dead := p.dead[1..]), Taken(p.dead[0], force, caller)))
    case Taken(e, force, caller) =>
      if !force && e.due > x.clock then Some((p, Putting(e, caller)))
      else Some((p.(live := p.live + [e.conn]), Return(caller, Some(e.conn))))
    case Copying => Some((p, Copied(p.live)))
    case Copied(list) =>
      if list == [] then Some((p, Looking(true, LastOfGet)))
      else Some((p, Handed(Choose(list, x.pick))))
    case Handed(c) => Some((p, Idle))
  }

  datatype System = System(pool: Pool, threads: seq<Thread>)

  /** A schedule: which thread moves, and how its choices fall. Blocked moves and moves
      of threads that do not exist change nothing. */
  datatype Move = Move(thread: nat, choice: Choice)

  function Advance(s: System, m: Move): (r: System)
    requires s.pool.orig != []
    ensures r.pool.orig == s.pool.orig && |r.threads| == |s.threads|
  {
    if m.thread >= |s.threads| then s
    else
      match Step(s.pool, s.threads[m.thread], m.choice)
      case None => s
      case Some((p, t)) => System(p, s.threads[m.thread := t])
  }

  function Execute(s: System, moves: seq<Move>): (r: System)
    requires s.pool.orig != []
    ensures r.pool.orig == s.pool.orig && |r.threads| == |s.threads|
  {
    if moves == [] then s
    else Advance(Execute(s, moves[..|moves| - 1]), moves[|moves| - 1])
  }

  ghost predicate Start0(s: System) {
    Initial(s.pool) && forall i :: 0 <= i < |s.threads| ==> s.threads[i] == Idle
  }

  /** The connections held in flight by all threads. */
  function InFlight(threads: seq<Thread>): multiset<Conn> {
    if threads == [] then multiset{} else threads[0].Held() + InFlight(threads[1..])
  }

  /** Live list + queue + in flight = the original connections. */
  ghost predicate Balanced(live: multiset<Conn>, dead: multiset<Conn>, held: multiset<Conn>, orig: multiset<Conn>) {
    live + dead + held == orig
  }

  ghost predicate ThreadOk(p: Pool, t: Thread) {
    && (t.Copied? ==> forall c :: c in t.list ==> c in p.orig)
    && (t.Handed? ==> t.conn in p.orig)
    && (t.Looking? && t.caller == LastOfGet ==> t.force)
    && (t.NonEmpty? && t.caller == LastOfGet ==> t.force)
    && (t.Taken? && t.caller == LastOfGet ==> t.force)
    && (t.Putting? ==> t.caller != LastOfGet)
  }

  ghost predicate Inv(s: System) {
    && s.pool.orig != []
    && Ordered(s.pool.dead)
    && Balanced(multiset(s.pool.live), DeadConns(s.pool.dead), InFlight(s.threads), multiset(s.pool.orig))
    && forall i :: 0 <= i < |s.threads| ==> ThreadOk(s.pool, s.threads[i])
  }
}
