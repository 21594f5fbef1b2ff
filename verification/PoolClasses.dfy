/**
 The pool and the round-robin selector as objects with the source's fields. Every method
 is tied to the pool as a value, so what PoolSpec and PoolHistory say holds of the object.
 */
module PoolClasses {
  import opened Prelude
  import opened PoolSpec

  // ---- round robin ----

  function NextIndex(previous: int, length: nat): (i: nat)
    requires length > 0
    ensures i < length
    ensures -1 <= previous < length - 1 ==> i == previous + 1
    ensures previous == length - 1 ==> i == 0
  {
    (previous + 1) % length
  }

  /** When the list has become shorter the index wraps around it. */
  lemma IndexWraps(previous: nat, length: nat)
    requires 0 < length <= previous
    ensures NextIndex(previous, length) == NextIndex(previous - length, length)
  {
    var q, r := (previous + 1) / length, (previous + 1) % length;
    assert previous + 1 - length == (q - 1) * length + r;
    ModUnique(previous + 1 - length, length, q - 1, r);
  }

  lemma ModUnique(n: nat, d: nat, q: int, r: nat)
    requires d > 0 && n == q * d + r && r < d
    ensures n % d == r
  {
    var a, b := n / d, n % d;
    Distribute(a, q, d);
    SmallMultiple(a - q, d);
  }

  lemma Distribute(a: int, q: int, d: int)
    ensures (a - q) * d == a * d - q * d
  {}

  lemma SmallMultiple(e: int, d: int)
    requires d > 0 && -d < e * d < d
    ensures e == 0
  {
    if e > 0 {
      Distribute(e, 1, d);
      NotNegative(e - 1, d);
    } else if e < 0 {
      Distribute(-1, e, d);
      NotNegative(-1 - e, d);
    }
  }

  lemma NotNegative(x: nat, d: nat)
    ensures x * d >= 0
  {}

  class RoundRobinSelector {
    /** Thread-local storage: the last index used by each thread that selected. */
    var rr: map<nat, int>

    constructor ()
      ensures rr == map[]
    {
      rr := map[];
    }

    function Previous(thread: nat): int
      reads this
    {
      if thread in rr then rr[thread] else -1
    }

    method Select(thread: nat, connections: seq<Conn>) returns (c: Conn)
      requires connections != []
      modifies this
      ensures rr == old(rr)[thread := NextIndex(old(Previous(thread)), |connections|)]
      ensures 0 <= rr[thread] < |connections| && c == connections[rr[thread]]
      ensures thread !in old(rr) ==> c == connections[0]
    {
      rr := rr[thread := Previous(thread) + 1];
      rr := rr[thread := rr[thread] % |connections|];
      c := connections[rr[thread]];
    }
  }

  /** The positions that n selections in a row by one thread pick in a list of length m. */
  function Positions(previous: int, m: nat, n: nat): (s: seq<nat>)
    requires m > 0
    ensures |s| == n
    ensures forall i :: i in s ==> i < m
    decreases n
  {
    if n == 0 then [] else
    var i := NextIndex(previous, m);
    [i] + Positions(i, m, n - 1)
  }

  function Range(a: nat, b: nat): seq<nat>
    requires a <= b
    decreases b - a
  {
    if a == b then [] else [a] + Range(a + 1, b)
  }

  lemma CountInFront(x: nat, s: seq<nat>, i: nat)
    ensures multiset([x] + s)[i] == (if x == i then 1 else 0) + multiset(s)[i]
  {
    assert multiset([x] + s) == multiset{x} + multiset(s);
  }

  lemma {:induction false} RangeCount(a: nat, b: nat, i: nat)
    requires a <= b
    ensures multiset(Range(a, b))[i] == if a <= i < b then 1 else 0
    decreases b - a
  {
    if a < b {
      RangeCount(a + 1, b, i);
      CountInFront(a, Range(a + 1, b), i);
    }
  }

  lemma {:induction false} PositionsSplit(previous: int, m: nat, a: nat, b: nat)
    requires m > 0
    ensures var last := if a == 0 then previous else Positions(previous, m, a)[a - 1];
            Positions(previous, m, a + b) == Positions(previous, m, a) + Positions(last, m, b)
    decreases a
  {
    if a > 0 {
      PositionsSplit(NextIndex(previous, m), m, a - 1, b);
    }
  }

  lemma {:induction false} PositionsRise(s: nat, m: nat, n: nat)
    requires s + n <= m && m > 0
    ensures Positions(s - 1, m, n) == Range(s, s + n)
    ensures n > 0 ==> Positions(s - 1, m, n)[n - 1] == s + n - 1
    decreases n
  {
    if n > 0 {
      PositionsRise(s + 1, m, n - 1);
    }
  }

  /** One turn picks s, s + 1, ..., m - 1, 0, ..., s - 1, where s is the next position. */
  lemma OneTurn(previous: int, m: nat)
    requires m > 0
    ensures var s := NextIndex(previous, m);
            Positions(previous, m, m) == Range(s, m) + Range(0, s)
  {
    var s: nat := NextIndex(previous, m);
    assert Positions(previous, m, m) == Positions(s - 1, m, m);
    PositionsSplit(s - 1, m, m - s, s);
    PositionsRise(s, m, m - s);
    if s > 0 {
      assert Positions(m - 1, m, s) == Positions(-1, m, s);
      PositionsRise(0, m, s);
    }
  }

  /** The product of k and m. */
  function Turns(k: nat, m: nat): nat {
    if k == 0 then 0 else m + Turns(k - 1, m)
  }

  lemma {:induction false} TurnsIsProduct(k: nat, m: nat)
    ensures Turns(k, m) == k * m
  {
    if k > 0 {
      TurnsIsProduct(k - 1, m);
    }
  }

  lemma OneTurnCount(previous: int, m: nat, i: nat)
    requires i < m
    ensures multiset(Positions(previous, m, m))[i] == 1
  {
    var s := NextIndex(previous, m);
    OneTurn(previous, m);
    RangeCount(s, m, i);
    RangeCount(0, s, i);
  }

  /** k turns over a list of length m pick every position exactly k times. */
  lemma {:induction false} Fair(previous: int, m: nat, k: nat, i: nat)
    requires i < m
    ensures multiset(Positions(previous, m, Turns(k, m)))[i] == k
    decreases k
  {
    hide NextIndex, Positions;
    if k > 0 {
      var turn := Positions(previous, m, m);
      var rest := Positions(turn[m - 1], m, Turns(k - 1, m));
      PositionsSplit(previous, m, m, Turns(k - 1, m));
      assert Positions(previous, m, Turns(k, m)) == turn + rest;
      OneTurnCount(previous, m, i);
      Fair(turn[m - 1], m, k - 1, i);
    }
  }

  /** How often the thread selects in a schedule of selecting threads. */
  function Turned(schedule: seq<nat>, thread: nat): nat {
    if schedule == [] then 0
    else Turned(schedule[..|schedule| - 1], thread) + if schedule[|schedule| - 1] == thread then 1 else 0
  }

  lemma PositionsMore(previous: int, m: nat, n: nat)
    requires m > 0
    ensures var last := if n == 0 then previous else Positions(previous, m, n)[n - 1];
            Positions(previous, m, n + 1) == Positions(previous, m, n) + [NextIndex(last, m)]
  {
    var last := if n == 0 then previous else Positions(previous, m, n)[n - 1];
    PositionsSplit(previous, m, n, 1);
    assert Positions(last, m, 1) == [NextIndex(last, m)] + Positions(NextIndex(last, m), m, 0);
  }

  ghost predicate AtPositions(got: seq<Conn>, connections: seq<Conn>, positions: seq<nat>) {
    |got| == |positions| && forall i :: 0 <= i < |got| ==> positions[i] < |connections| && got[i] == connections[positions[i]]
  }

  /** Threads that share the selector, selecting in any order, do not disturb each other: the
      connections that one of them gets are at the positions of its own turns. */
  method SelectInTurn(selector: RoundRobinSelector, connections: seq<Conn>, schedule: seq<nat>, thread: nat)
    returns (got: seq<Conn>)
    requires connections != []
    modifies selector
    ensures |got| == Turned(schedule, thread)
    ensures AtPositions(got, connections, Positions(old(selector.Previous(thread)), |connections|, |got|))
  {
    hide Positions, NextIndex;
    ghost var previous, m := selector.Previous(thread), |connections|;
    got := [];
    for k := 0 to |schedule|
      invariant |got| == Turned(schedule[..k], thread)
      invariant AtPositions(got, connections, Positions(previous, m, |got|))
      invariant selector.Previous(thread) == if got == [] then previous else Positions(previous, m, |got|)[|got| - 1]
    {
      assert schedule[..k + 1][..k] == schedule[..k];
      PositionsMore(previous, m, |got|);
      var c := selector.Select(schedule[k], connections);
      if schedule[k] == thread {
        got := got + [c];
      }
    }
    assert schedule[..|schedule|] == schedule;
  }

  // ---- the pool ----

  /** The position that round robin, last at previous, picks for the next request. */
  function Turn(p: Pool, previous: int, now: real, pick: nat): nat
    requires p.orig != []
  {
    var m := |PoolSpec.Resurrect(p, false, now, pick).0.live|;
    if m > 1 then NextIndex(previous, m) else 0
  }

  class ConnectionPool {
    const orig: seq<Conn>
    const deadTimeout: real
    const timeoutCutoff: int
    const selector: RoundRobinSelector
    var connections: seq<Conn>
    /** The contents of the priority queue, whose capacity is |orig|, earliest first. */
    var dead: seq<Entry>
    var deadCount: map<Conn, nat>

    ghost function Value(): Pool
      reads this
    {
      Pool(orig, connections, dead, deadCount, deadTimeout, timeoutCutoff)
    }

    ghost predicate Valid()
      reads this
    {
      Conserved(Value())
    }

    /** shuffled is the list after random.shuffle, or the list itself. */
    constructor (connections: seq<Conn>, shuffled: seq<Conn>, deadTimeout: real, timeoutCutoff: int)
      requires connections != [] && multiset(shuffled) == multiset(connections)
      ensures Valid() && Initial(Value()) && fresh(selector)
      ensures orig == connections && this.connections == shuffled
      ensures this.deadTimeout == deadTimeout && this.timeoutCutoff == timeoutCutoff
    {
      this.orig := connections;
      this.deadTimeout := deadTimeout;
      this.timeoutCutoff := timeoutCutoff;
      this.selector := new RoundRobinSelector();
      this.connections := shuffled;
      this.dead := [];
      this.deadCount := map[];
      new;
      assert DeadConns(dead) == multiset{};
    }

    /** The checked construction: an empty list is refused (ImproperlyConfigured). */
    static method Make(connections: seq<Conn>, shuffled: seq<Conn>, deadTimeout: real, timeoutCutoff: int)
      returns (pool: ConnectionPool?)
      requires multiset(shuffled) == multiset(connections)
      ensures pool == null <==> connections == []
      ensures pool != null ==> fresh(pool) && pool.Valid() && Initial(pool.Value()) && pool.orig == connections
    {
      if connections == [] {
        return null;
      }
      pool := new ConnectionPool(connections, shuffled, deadTimeout, timeoutCutoff);
    }

    /** A time passed as None or as zero means the clock. */
    static function Reading(now: Option<real>, clock: real): real {
      if now.Some? && now.value != 0.0 then now.value else clock
    }

    method MarkDead(c: Conn, now: Option<real>, clock: real)
      requires Valid()
      modifies this`connections, this`deadCount, this`dead
      ensures Valid()
      ensures now == None || now == Some(0.0) ==> Value() == PoolSpec.MarkDead(old(Value()), c, clock)
      ensures now.Some? && now.value != 0.0 ==> Value() == PoolSpec.MarkDead(old(Value()), c, now.value)
    {
      MarkDeadKeeps(Value(), c, Reading(now, clock));
      if c in connections {
        Retire(c, Reading(now, clock));
      }
    }

    /** The part of mark_dead after the removal has succeeded: the put needs room. */
    method Retire(c: Conn, time: real)
      requires c in connections && |dead| < |orig|
      modifies this`connections, this`deadCount, this`dead
      ensures Value() == PoolSpec.MarkDead(old(Value()), c, time)
    {
      ghost var after := PoolSpec.MarkDead(Value(), c, time);
      connections := RemoveAt(connections, IndexOf(connections, c));
      var count := (if c in deadCount then deadCount[c] else 0) + 1;
      deadCount := deadCount[c := count];
      assert after == PoolSpec.Pool(orig, connections, after.dead, deadCount, deadTimeout, timeoutCutoff);
      var timeout := deadTimeout * Pow2(Min(count - 1, timeoutCutoff));
      dead := Enqueue(dead, Entry(time + timeout, c));
    }

    method MarkLive(c: Conn)
      requires Valid()
      modifies this`deadCount
      ensures Valid()
      ensures Value() == PoolSpec.MarkLive(old(Value()), c)
    {
      deadCount := map x | x in deadCount && x != c :: deadCount[x];
    }

    method Resurrect(force: bool, clock: real, pick: nat) returns (r: Option<Conn>)
      requires Valid()
      modifies this`connections, this`dead
      ensures Valid()
      ensures (Value(), r) == PoolSpec.Resurrect(old(Value()), force, clock, pick)
      ensures force ==> r.Some?
    {
      ResurrectKeeps(Value(), force, clock, pick);
      if dead == [] {
        return if force then Some(Choose(orig, pick)) else None;
      }
      var entry := dead[0];
      dead := dead[1..];
      if !force && entry.due > clock {
        dead := Enqueue(dead, entry);
        return None;
      }
      connections := connections + [entry.conn];
      return Some(entry.conn);
    }

    method GetConnection(thread: nat, now: real, later: real, pick: nat) returns (c: Conn)
      requires Valid()
      modifies this`connections, this`dead, selector
      ensures Valid()
      ensures (Value(), c) == PoolSpec.GetConnection(old(Value()), now, later, pick,
                                Turn(old(Value()), old(selector.Previous(thread)), now, pick))
      ensures c in connections && c in orig
      ensures var m := |PoolSpec.Resurrect(old(Value()), false, now, pick).0.live|;
              selector.rr == if m > 1 then old(selector.rr)[thread := NextIndex(old(selector.Previous(thread)), m)]
                             else old(selector.rr)
    {
      GetConnectionIsLive(Value(), now, later, pick, Turn(Value(), selector.Previous(thread), now, pick));
      var _ := Resurrect(false, now, pick);
      var list := connections;
      if list == [] {
        var r := Resurrect(true, later, pick);
        return r.value;
      }
      if |list| > 1 {
        c := selector.Select(thread, list);
      } else {
        c := list[0];
      }
    }
  }

  /** Equal positions are equal connections, and with distinct connections only they are. */
  lemma {:induction false} CountAtPositions(got: seq<Conn>, connections: seq<Conn>, positions: seq<nat>, i: nat)
    requires AtPositions(got, connections, positions) && Distinct(connections) && i < |connections|
    ensures multiset(got)[connections[i]] == multiset(positions)[i]
  {
    if got != [] {
      var n := |got| - 1;
      assert got == got[..n] + [got[n]] && positions == positions[..n] + [positions[n]];
      CountAtPositions(got[..n], connections, positions[..n], i);
    }
  }

  lemma NothingDead(p: Pool, now: real, pick: nat)
    requires Conserved(p) && p.dead == []
    ensures p.live != [] && PoolSpec.Resurrect(p, false, now, pick).0 == p
  {
    SomeConnection(p);
  }

  /** One thread makes k requests for each of the m live connections while nothing is dead:
      each live connection is used exactly k times, and the pool is as it was. */
  method UseInTurn(pool: ConnectionPool, thread: nat, k: nat, clock: nat -> real, pick: nat) returns (got: seq<Conn>)
    requires pool.Valid() && pool.dead == []
    modifies pool`connections, pool`dead, pool.selector
    ensures pool.Valid() && pool.Value() == old(pool.Value()) && |got| == k * |pool.connections|
    ensures Distinct(pool.connections) ==> forall c :: c in pool.connections ==> multiset(got)[c] == k
  {
    hide Positions, NextIndex, PoolSpec.GetConnection, PoolSpec.Resurrect;
    ghost var previous, p := pool.selector.Previous(thread), pool.Value();
    var m := |pool.connections|;
    var n := Turns(k, m);
    TurnsIsProduct(k, m);
    NothingDead(p, 0.0, pick);
    got := [];
    for i := 0 to n
      invariant pool.Valid() && pool.Value() == p && |got| == i
      invariant AtPositions(got, p.live, Positions(previous, m, i))
      invariant m > 1 ==> pool.selector.Previous(thread) == if i == 0 then previous else Positions(previous, m, i)[i - 1]
    {
      PositionsMore(previous, m, i);
      ghost var before := pool.selector.Previous(thread);
      NothingDead(p, clock(i), pick);
      GetInTurn(p, clock(i), pick, Turn(p, before, clock(i), pick));
      var c := pool.GetConnection(thread, clock(i), clock(i), pick);
      got := got + [c];
    }
    if Distinct(p.live) {
      forall c | c in p.live
        ensures multiset(got)[c] == k
      {
        var i :| 0 <= i < m && p.live[i] == c;
        CountAtPositions(got, p.live, Positions(previous, m, n), i);
        Fair(previous, m, k, i);
      }
    }
  }

  /** With nothing dead, the connection is the one at the turn's position. */
  lemma GetInTurn(p: Pool, now: real, pick: nat, sel: nat)
    requires Conserved(p) && p.dead == [] && sel < |p.live|
    ensures PoolSpec.GetConnection(p, now, now, pick, sel) == (p, p.live[if |p.live| > 1 then sel else 0])
  {
    NothingDead(p, now, pick);
  }
}
