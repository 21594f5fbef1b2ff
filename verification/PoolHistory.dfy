/**
 Whole runs of the pool under one thread: what the failure counters and the due times
 say about the calls made so far.
 */
module PoolHistory {
  import opened Prelude
  import opened PoolSpec

  /** One call of the pool, with the clock readings and choices it meets. */
  datatype Call =
    | Dead(conn: Conn, now: real)
    | Live(conn: Conn)
    | Revive(force: bool, now: real, pick: nat)
    | Get(now: real, later: real, pick: nat, sel: nat)

  function Apply(p: Pool, call: Call): (q: Pool)
    requires p.orig != []
    ensures q.orig == p.orig && q.timeout == p.timeout && q.cutoff == p.cutoff
  {
    match call
    case Dead(c, now) => MarkDead(p, c, now)
    case Live(c) => MarkLive(p, c)
    case Revive(force, now, pick) => Resurrect(p, force, now, pick).0
    case Get(now, later, pick, sel) => GetConnection(p, now, later, pick, sel).0
  }

  function Run(p: Pool, calls: seq<Call>): (q: Pool)
    requires p.orig != []
    ensures q.orig == p.orig && q.timeout == p.timeout && q.cutoff == p.cutoff
  {
    if calls == [] then p
    else Apply(Run(p, calls[..|calls| - 1]), calls[|calls| - 1])
  }

  /** Call i found the connection live and marked it dead. */
  ghost predicate Marks(p: Pool, calls: seq<Call>, i: nat, c: Conn)
    requires p.orig != [] && i < |calls|
  {
    calls[i].Dead? && calls[i].conn == c && c in Run(p, calls[..i]).live
  }

  /** Effective failures of c since its last mark_live. */
  ghost function Streak(p: Pool, calls: seq<Call>, c: Conn): nat
    requires p.orig != []
  {
    if calls == [] then 0
    else
      var n := |calls| - 1;
      if Marks(p, calls, n, c) then Streak(p, calls[..n], c) + 1
      else if calls[n] == Live(c) then 0
      else Streak(p, calls[..n], c)
  }

  /** The documented due time of the failure reported by call i. */
  ghost function DueAt(p: Pool, calls: seq<Call>, i: nat, c: Conn): real
    requires p.orig != [] && i < |calls| && calls[i].Dead?
  {
    calls[i].now + p.Backoff(Streak(p, calls[..i + 1], c))
  }

  /** Every run keeps every original connection, live or dead, once. */
  lemma {:induction false} RunConserves(p: Pool, calls: seq<Call>)
    requires Initial(p)
    ensures Conserved(Run(p, calls))
  {
    if calls == [] {
      assert DeadConns(p.dead) == multiset{};
    } else {
      var n := |calls| - 1;
      RunConserves(p, calls[..n]);
      var q := Run(p, calls[..n]);
      match calls[n] {
        case Dead(c, now) => MarkDeadKeeps(q, c, now);
        case Live(c) =>
        case Revive(force, now, pick) => ResurrectKeeps(q, force, now, pick);
        case Get(now, later, pick, sel) => GetConnectionKeeps(q, now, later, pick, sel);
      }
    }
  }

  lemma ApplyCount(p: Pool, call: Call, c: Conn)
    requires p.orig != []
    ensures Apply(p, call).Count(c) ==
            if call.Dead? && call.conn == c && c in p.live then p.Count(c) + 1
            else if call == Live(c) then 0 else p.Count(c)
  {
    hide Enqueue, Pow2, Min, IndexOf;
  }

  /** The counter of a connection is its streak of failures. */
  lemma {:induction false} CountIsStreak(p: Pool, calls: seq<Call>, c: Conn)
    requires Initial(p)
    ensures Run(p, calls).Count(c) == Streak(p, calls, c)
  {
    hide Apply;
    if calls != [] {
      var n := |calls| - 1;
      CountIsStreak(p, calls[..n], c);
      ApplyCount(Run(p, calls[..n]), calls[n], c);
    }
  }

  /** Entries that a call adds to the queue: only an effective mark_dead adds one. */
  lemma NewEntry(p: Pool, call: Call, e: Entry)
    requires p.orig != []
    requires e in Apply(p, call).dead && e !in p.dead
    ensures call.Dead? && call.conn == e.conn && e.conn in p.live
    ensures e.due == call.now + p.Backoff(p.Count(e.conn) + 1)
  {
    match call
    case Dead(c, now) =>
      EnqueueMember(p.dead, Entry(now + p.Backoff(p.Count(c) + 1), c), e);
    case Live(c) =>
    case Revive(force, now, pick) =>
      ResurrectAddsNothing(p, force, now, pick, e);
    case Get(now, later, pick, sel) =>
      GetAddsNothing(p, now, later, pick, sel, e);
  }

  lemma ResurrectAddsNothing(p: Pool, force: bool, now: real, pick: nat, e: Entry)
    requires p.orig != []
    requires e !in p.dead
    ensures e !in Resurrect(p, force, now, pick).0.dead
  {
    if p.dead != [] {
      EnqueueMember(p.dead[1..], p.dead[0], e);
    }
  }

  lemma GetAddsNothing(p: Pool, now: real, later: real, pick: nat, sel: nat, e: Entry)
    requires p.orig != []
    requires e !in p.dead
    ensures e !in GetConnection(p, now, later, pick, sel).0.dead
  {
    ResurrectAddsNothing(p, false, now, pick, e);
    ResurrectAddsNothing(Resurrect(p, false, now, pick).0, true, later, pick, e);
  }

  ghost predicate Explains(p: Pool, calls: seq<Call>, i: int, e: Entry)
    requires p.orig != []
  {
    0 <= i < |calls| && Marks(p, calls, i, e.conn) && e.due == DueAt(p, calls, i, e.conn)
  }

  /** Every entry of the queue is due at the time of some effective mark_dead of its
      connection plus the backoff for the streak it had then. */
  lemma {:induction false} DueTimes(p: Pool, calls: seq<Call>, e: Entry) returns (i: nat)
    requires Initial(p) && e in Run(p, calls).dead
    ensures Explains(p, calls, i, e)
    ensures Distinct(p.orig) ==> forall j :: i < j < |calls| ==> !Marks(p, calls, j, e.conn)
  {
    var n := |calls| - 1;
    if e in Run(p, calls[..n]).dead {
      i := DueTimes(p, calls[..n], e);
      PrefixExplains(p, calls, n, i, e);
      if Distinct(p.orig) {
        forall j | i < j < |calls|
          ensures !Marks(p, calls, j, e.conn)
        {
          NoLaterMark(p, calls, calls[..n], i, j, e);
        }
      }
    } else {
      i := n;
      LastExplains(p, calls, e);
    }
  }

  lemma LastExplains(p: Pool, calls: seq<Call>, e: Entry)
    requires Initial(p) && calls != [] && e in Run(p, calls).dead
    requires e !in Run(p, calls[..|calls| - 1]).dead
    ensures Explains(p, calls, |calls| - 1, e)
  {
    var n := |calls| - 1;
    var q := Run(p, calls[..n]);
    NewEntry(q, calls[n], e);
    assert calls[..n + 1] == calls;
    assert Marks(p, calls, n, e.conn);
    StreakGrows(p, calls, e.conn);
    SameBackoff(p, q, Streak(p, calls, e.conn));
  }

  lemma SameBackoff(p: Pool, q: Pool, k: int)
    requires p.timeout == q.timeout && p.cutoff == q.cutoff
    ensures p.Backoff(k) == q.Backoff(k)
  {
    assert Min(k - 1, p.cutoff) == Min(k - 1, q.cutoff);
  }

  lemma StreakGrows(p: Pool, calls: seq<Call>, c: Conn)
    requires Initial(p) && calls != [] && Marks(p, calls, |calls| - 1, c)
    ensures Streak(p, calls, c) == Run(p, calls[..|calls| - 1]).Count(c) + 1
  {
    CountIsStreak(p, calls[..|calls| - 1], c);
  }

  lemma PrefixExplains(p: Pool, calls: seq<Call>, n: nat, i: nat, e: Entry)
    requires p.orig != [] && i < n <= |calls|
    ensures Explains(p, calls[..n], i, e) == Explains(p, calls, i, e)
  {
    PrefixMarks(p, calls, n, i, e.conn);
    assert calls[..n][..i + 1] == calls[..i + 1];
  }

  lemma NoLaterMark(p: Pool, calls: seq<Call>, before: seq<Call>, i: nat, j: nat, e: Entry)
    requires Initial(p) && Distinct(p.orig) && i < j < |calls|
    requires before == calls[..|calls| - 1] && e in Run(p, before).dead
    requires forall k :: i < k < |before| ==> !Marks(p, before, k, e.conn)
    ensures !Marks(p, calls, j, e.conn)
  {
    if j < |calls| - 1 {
      PrefixMarks(p, calls, |calls| - 1, j, e.conn);
    } else {
      RunConserves(p, calls[..j]);
      DeadIsNotLive(Run(p, calls[..j]), e);
    }
  }

  lemma PrefixMarks(p: Pool, calls: seq<Call>, n: nat, i: nat, c: Conn)
    requires p.orig != [] && i < n <= |calls|
    ensures Marks(p, calls[..n], i, c) == Marks(p, calls, i, c)
  {
    assert calls[..n][..i] == calls[..i];
  }

  /** With distinct connections a connection is never both live and dead. */
  lemma DeadIsNotLive(p: Pool, e: Entry)
    requires Conserved(p) && Distinct(p.orig) && e in p.dead
    ensures e.conn !in p.live
  {
    DistinctMultiplicity(p.orig, e.conn);
    DeadConnsMember(p.dead, e);
    assert multiset(p.live)[e.conn] + DeadConns(p.dead)[e.conn] == multiset(p.orig)[e.conn];
    assert e.conn in p.live <==> e.conn in multiset(p.live);
  }

  /** A pool whose failures have all expired gets every connection back: n calls of
      get_connection bring back min(n, |dead|) of them. */
  lemma {:induction false} Recovery(p: Pool, gets: seq<Call>)
    requires Conserved(p)
    requires forall g :: g in gets ==> g.Get? && forall e :: e in p.dead ==> e.due <= g.now
    ensures var q := Run(p, gets);
            Conserved(q) && q.dead == p.dead[Min(|gets|, |p.dead|)..]
  {
    var n := |gets| - 1;
    if gets != [] {
      Recovery(p, gets[..n]);
      var q := Run(p, gets[..n]);
      var g := gets[n];
      assert g in gets;
      GetConnectionKeeps(q, g.now, g.later, g.pick, g.sel);
      if q.dead == [] {
        SomeConnection(q);
      } else {
        assert q.dead[0] in p.dead;
      }
    }
  }
}
