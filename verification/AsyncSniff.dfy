/**
 The parallel sniff of the asynchronous transport: ask every node at once, take the first
 usable answer (opensearchpy/_async/transport.py, _get_sniff_data).
 */
module AsyncSniff {
  import opened Prelude

  type Conn = nat

  /** How a request task ends once it has ended. */
  datatype TaskResult =
    | Nodes(data: seq<string>)
    | Silent        // ConnectionError or SerializationError
    | Fault         // any other exception, among them an answer without nodes
    | Stopped       // cancelled

  datatype Outcome =
    | Data(data: seq<string>)
    | UnableToSniff
    | Raised
    | Interrupted   // CancelledError, which is not an Exception

  /** The connections asked: the live ones, then the seeds that are not among them. */
  function Asked(pool: seq<Conn>, seeds: seq<Conn>): seq<Conn> {
    if seeds == [] then pool
    else
      var n := |seeds| - 1;
      Asked(pool, seeds[..n]) + if seeds[n] in pool then [] else [seeds[n]]
  }

  lemma {:induction false} AskedOnce(pool: seq<Conn>, seeds: seq<Conn>)
    requires Distinct(pool) && Distinct(seeds)
    ensures Distinct(Asked(pool, seeds))
    ensures forall c :: c in Asked(pool, seeds) <==> c in pool || c in seeds
    decreases |seeds|
  {
    if seeds != [] {
      AskedOnce(pool, seeds[..|seeds| - 1]);
      assert seeds == seeds[..|seeds| - 1] + [seeds[|seeds| - 1]];
    }
  }

  function Below(n: nat): (r: set<nat>)
    ensures forall k: nat :: k in r <==> k < n
  {
    if n == 0 then {} else Below(n - 1) + {n - 1}
  }

  ghost predicate AllSilent(tasks: set<nat>, results: nat -> TaskResult) {
    forall k :: k in tasks ==> results(k) == Silent
  }

  /** Some task of the set, with this result. */
  ghost predicate Among(r: TaskResult, tasks: set<nat>, results: nat -> TaskResult) {
    exists k :: k in tasks && results(k) == r
  }

  /** The outcome is due to a task of the set. */
  ghost predicate DueTo(o: Outcome, tasks: set<nat>, results: nat -> TaskResult) {
    match o
    case Data(data) => Among(Nodes(data), tasks, results)
    case Raised => Among(Fault, tasks, results)
    case Interrupted => Among(Stopped, tasks, results)
    case UnableToSniff => false
  }

  /** Ask the live connections and the seeds that are not among them. */
  method Requests(pool: seq<Conn>, seeds: seq<Conn>) returns (asked: seq<Conn>)
    ensures asked == Asked(pool, seeds)
  {
    asked := pool;
    for i := 0 to |seeds|
      invariant asked == Asked(pool, seeds[..i])
    {
      assert seeds[..i + 1][..i] == seeds[..i];
      if seeds[i] !in pool {
        asked := asked + [seeds[i]];
      }
    }
    assert seeds[..|seeds|] == seeds;
  }

  /** Look at the tasks that are done, in any order, up to the first that is not silent. */
  method Collect(done: set<nat>, results: nat -> TaskResult) returns (outcome: Option<Outcome>)
    ensures outcome.None? <==> AllSilent(done, results)
    ensures outcome.Some? ==> DueTo(outcome.value, done, results)
  {
    var left := done;
    while left != {}
      invariant left <= done && AllSilent(done - left, results)
      decreases left
    {
      var t :| t in left;
      if results(t) != Silent {
        assert t in done;
        return Some(match results(t)
                    case Nodes(data) => Data(data)
                    case Fault => Raised
                    case _ => Interrupted);
      }
      left := left - {t};
    }
    return None;
  }

  class Sniffer {
    var lastSniff: real

    /** results tells, for each connection asked, how its task ends; interrupts tells
        whether the wait of a given round is cancelled. Which tasks are done after a round,
        and in which order they are looked at, is left open. */
    method GetSniffData(pool: seq<Conn>, seeds: seq<Conn>, results: nat -> TaskResult, interrupts: nat -> bool, now: real)
      returns (outcome: Outcome, ghost ended: set<nat>, ghost cancelled: set<nat>)
      modifies this
      ensures ended + cancelled == Below(|Asked(pool, seeds)|)
      ensures outcome == UnableToSniff || outcome == Interrupted || DueTo(outcome, ended, results)
      ensures outcome == UnableToSniff ==> AllSilent(Below(|Asked(pool, seeds)|), results)
      ensures AllSilent(Below(|Asked(pool, seeds)|), results) ==> outcome in {UnableToSniff, Interrupted}
      ensures outcome == Interrupted ==> (exists round :: interrupts(round)) || DueTo(outcome, ended, results)
      ensures interrupts(0) && Asked(pool, seeds) != [] ==> outcome == Interrupted && lastSniff == now
      ensures (forall r :: !interrupts(r)) && (forall k :: results(k) != Stopped) && !outcome.Data? ==> lastSniff == old(lastSniff)
      ensures lastSniff == if outcome in {UnableToSniff, Raised} then old(lastSniff) else now
    {
      var previous := lastSniff;
      lastSniff := now;
      var asked := Requests(pool, seeds);
      var tasks := Below(|asked|);
      ended, cancelled := {}, {};
      var round := 0;
      while tasks != {}
        invariant tasks + ended == Below(|asked|)
        invariant AllSilent(ended, results)
        invariant lastSniff == now
        invariant round == 0 ==> tasks == Below(|asked|)
        invariant round > 0 ==> !interrupts(0)
        decreases tasks
      {
        if interrupts(round) {
          return Interrupted, ended, tasks;
        }
        var done: set<nat> := *;
        if done == {} || !(done <= tasks) {
          done := tasks;
        }
        tasks, ended := tasks - done, ended + done;
        var answer := Collect(done, results);
        if answer.Some? {
          if answer.value == Raised {
            lastSniff := previous;
          }
          return answer.value, ended, done + tasks;
        }
        round := round + 1;
      }
      lastSniff := previous;
      return UnableToSniff, ended, {};
    }
  }
}
