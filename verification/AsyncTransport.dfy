/**
 The start-up protocol of the asynchronous transport (opensearchpy/_async/transport.py) as
 a step machine. Coroutines run one at a time and switch only at awaits, so a step is what
 a coroutine does from one await to the next. The environment picks the order, how tasks
 and requests end, and when a clock makes a periodic sniff due. close() is not called.
 */
module AsyncTransport {
  import opened Prelude

  datatype Config = Config(sniffOnStart: bool, snifferTimeout: bool, sniffOnConnectionFail: bool, maxRetries: int)

  /** How a task stands; the last three are the ways in which it can be done badly. */
  datatype Status = Running | Finished | FailedTransport | FailedOther | Cancelled

  /** The asyncio.Event of the start-up gate. */
  datatype Gate = NoGate | Closed | Open

  datatype Reason = EmptyPool | SniffRaised | RequestRaised | WasCancelled

  /** One call of perform_request. */
  datatype Coroutine =
    | New
    | InitWait(task: nat)        // in _async_init, awaiting the first sniff task
    | InitCancelled(task: nat)   // there, cancelled when that task was already done
    | GateWait                   // in _async_call, awaiting the event
    | InFlight(attempt: nat)     // awaiting the answer of a connection it has taken
    | Returned
    | Failed(reason: Reason)

  datatype System = System(
    initCalled: bool,
    initRuns: nat,               // how often _async_init was entered
    realPool: bool,              // false: the EmptyConnectionPool of the constructor
    gate: Gate,
    sniffingTask: Option<nat>,
    tasks: seq<Status>,          // every task made by create_sniff_task so far
    coroutines: seq<Coroutine>)

  /** How an answer is treated by the retry loop. */
  datatype Reaction = Success | Final | Retry

  datatype Move =
    | Run(who: nat, due: bool, reaction: Reaction)   // let a coroutine go on
    | CancelCoroutine(who: nat)
    | ReplacePool(task: nat)                         // a running sniff sets new connections
    | EndTask(task: nat, how: Status)

  predicate Done(s: System, t: nat) {
    t < |s.tasks| && s.tasks[t] != Running
  }

  /** create_sniff_task: collect a finished task, which may raise; make a new one only if
      there is none. */
  function CreateSniffTask(s: System): (System, Option<Status>)
  {
    var made := s.(sniffingTask := Some(|s.tasks|), tasks := s.tasks + [Running]);
    if s.sniffingTask.None? || s.sniffingTask.value >= |s.tasks| then (made, None)
    else
      var how := s.tasks[s.sniffingTask.value];
      if how == Running then (s, None)
      else if how == Finished then (made, None)
      else (s.(sniffingTask := None), Some(how))
  }

  function Become(s: System, i: nat, c: Coroutine): System
    requires i < |s.coroutines|
  {
    s.(coroutines := s.coroutines[i := c])
  }

  /** One more turn of the retry loop: take a connection and send. */
  function Take(s: System, cfg: Config, i: nat, attempt: nat): System
    requires i < |s.coroutines|
  {
    if attempt > cfg.maxRetries then Become(s, i, Returned)
    else if !s.realPool then Become(s, i, Failed(EmptyPool))
    else Become(s, i, InFlight(attempt))
  }

  /** _async_call past the gate: the periodic sniff, then the request. */
  function PastGate(s: System, cfg: Config, i: nat, due: bool): System
    requires i < |s.coroutines|
  {
    if cfg.snifferTimeout && due then
      var (t, raised) := CreateSniffTask(s);
      if raised.Some? then Become(t, i, Failed(SniffRaised)) else Take(t, cfg, i, 0)
    else Take(s, cfg, i, 0)
  }

  function AtGate(s: System, cfg: Config, i: nat, due: bool): System
    requires i < |s.coroutines|
  {
    if s.gate == Closed then Become(s, i, GateWait) else PastGate(s, cfg, i, due)
  }

  /** perform_request from its start to its first await. */
  function Begin(s: System, cfg: Config, i: nat, due: bool): System
    requires i < |s.coroutines|
  {
    if s.initCalled then AtGate(s, cfg, i, due)
    else
      var t := s.(initCalled := true, initRuns := s.initRuns + 1, realPool := true);
      if t.sniffingTask.None? && cfg.sniffOnStart then
        var (u, _) := CreateSniffTask(t.(gate := Closed));
        Become(u, i, InitWait(u.sniffingTask.value))
      else AtGate(t, cfg, i, due)
  }

  /** The first sniff is done: open the gate whatever its result was. */
  function AfterInit(s: System, cfg: Config, i: nat, t: nat, due: bool): System
    requires i < |s.coroutines| && t < |s.tasks|
  {
    var u := s.(gate := Open);
    if s.tasks[t] in {FailedTransport, FailedOther} then Become(u, i, Failed(SniffRaised))
    else AtGate(u, cfg, i, due)
  }

  /** An answer has come. */
  function AfterAnswer(s: System, cfg: Config, i: nat, attempt: nat, reaction: Reaction): System
    requires i < |s.coroutines|
  {
    match reaction
    case Success => Become(s, i, Returned)
    case Final => Become(s, i, Failed(RequestRaised))
    case Retry =>
      var (t, raised) := if cfg.sniffOnConnectionFail then CreateSniffTask(s) else (s, None);
      if raised.Some? && raised.value != FailedTransport then Become(t, i, Failed(SniffRaised))
      else if attempt >= cfg.maxRetries then Become(t, i, Failed(RequestRaised))
      else Take(t, cfg, i, attempt + 1)
  }

  /** One step; a coroutine that still waits, or a move without an object, changes nothing. */
  function Step(s: System, cfg: Config, m: Move): System
  {
    match m
    case Run(i, due, reaction) =>
      if i >= |s.coroutines| then s
      else
        (match s.coroutines[i]
         case New => Begin(s, cfg, i, due)
         case InitWait(t) => if Done(s, t) then AfterInit(s, cfg, i, t, due) else s
         case InitCancelled(_) => AtGate(s.(gate := Open), cfg, i, due)
         case GateWait => if s.gate == Closed then s else PastGate(s, cfg, i, due)
         case InFlight(attempt) => AfterAnswer(s, cfg, i, attempt, reaction)
         case Returned => s
         case Failed(_) => s)
    case CancelCoroutine(i) =>
      if i >= |s.coroutines| then s
      else
        (match s.coroutines[i]
         case InitWait(t) =>
           if Done(s, t) then Become(s, i, InitCancelled(t))
           else if t < |s.tasks| then s.(tasks := s.tasks[t := Cancelled]) else s
         case InitCancelled(_) => s
         case Returned => s
         case Failed(_) => s
         case _ => Become(s, i, Failed(WasCancelled)))
    case ReplacePool(t) => if t < |s.tasks| && !Done(s, t) then s.(realPool := true) else s
    case EndTask(t, how) =>
      if t < |s.tasks| && !Done(s, t) && how != Running then s.(tasks := s.tasks[t := how]) else s
  }

  ghost predicate Initial(s: System) {
    && !s.initCalled && s.initRuns == 0 && !s.realPool && s.gate == NoGate
    && s.sniffingTask == None && s.tasks == []
    && forall i :: 0 <= i < |s.coroutines| ==> s.coroutines[i] == New
  }

  // ---- what every step keeps ----

  /** At most the current task is unfinished. */
  ghost predicate OneTask(s: System) {
    && (s.sniffingTask.Some? ==> s.sniffingTask.value < |s.tasks|)
    && (forall t :: 0 <= t < |s.tasks| && s.tasks[t] == Running ==> s.sniffingTask == Some(t))
  }

  /** The first sniff, if there is to be one, has finished, failed or been cancelled. */
  ghost predicate Started(s: System, cfg: Config) {
    s.initCalled && s.realPool && (cfg.sniffOnStart ==> s.gate == Open && Done(s, 0))
  }

  ghost predicate CoroutineOk(s: System, cfg: Config, c: Coroutine) {
    match c
    case New => true
    case InitWait(t) => s.initCalled && cfg.sniffOnStart && t == 0
    case InitCancelled(t) => s.initCalled && cfg.sniffOnStart && t == 0 && Done(s, 0)
    case GateWait => s.initCalled && cfg.sniffOnStart
    case InFlight(attempt) => Started(s, cfg) && attempt <= cfg.maxRetries
    case Returned => s.initCalled
    case Failed(reason) => reason != EmptyPool
  }

  ghost predicate GateOk(s: System, cfg: Config) {
    && s.initRuns == (if s.initCalled then 1 else 0)
    && (s.initCalled ==> s.realPool)
    && (!s.initCalled ==> s.gate == NoGate && s.tasks == [] && s.sniffingTask == None)
    && (s.initCalled && cfg.sniffOnStart ==> s.gate != NoGate && s.tasks != [])
    && (!cfg.sniffOnStart ==> s.gate == NoGate)
    && (s.gate == Open ==> Done(s, 0))
  }

  /** The coroutine opens the gate once the first sniff is done. */
  ghost predicate Opens(c: Coroutine) {
    c == InitWait(0) || c == InitCancelled(0)
  }

  /** While the gate is closed some coroutine is there to open it. */
  ghost predicate Opener(s: System) {
    s.gate == Closed ==> exists i :: 0 <= i < |s.coroutines| && Opens(s.coroutines[i])
  }

  ghost predicate Inv(s: System, cfg: Config) {
    && OneTask(s) && GateOk(s, cfg) && Opener(s)
    && forall i :: 0 <= i < |s.coroutines| ==> CoroutineOk(s, cfg, s.coroutines[i])
  }

  /** Steps that never undo what other coroutines rely on. */
  ghost predicate Later(s: System, t: System, cfg: Config) {
    && (s.initCalled ==> t.initCalled)
    && (s.realPool ==> t.realPool)
    && (s.gate == Open ==> t.gate == Open)
    && (forall k: nat :: Done(s, k) ==> Done(t, k))
  }

  lemma CreateKeeps(s: System, cfg: Config)
    requires OneTask(s)
    ensures var t := CreateSniffTask(s).0;
            OneTask(t) && Later(s, t, cfg) && |s.tasks| <= |t.tasks|
            && t == s.(sniffingTask := t.sniffingTask, tasks := t.tasks)
  {}

  lemma BecomeKeeps(s: System, t: System, cfg: Config, i: nat, c: Coroutine)
    requires Inv(s, cfg) && i < |s.coroutines| && t.coroutines == s.coroutines
    requires OneTask(t) && GateOk(t, cfg) && Later(s, t, cfg) && CoroutineOk(t, cfg, c)
    requires t.gate == Closed ==> (s.gate == Closed && !Opens(s.coroutines[i])) || Opens(c)
    ensures Inv(Become(t, i, c), cfg)
  {
    var u := Become(t, i, c);
    forall j | 0 <= j < |u.coroutines|
      ensures CoroutineOk(u, cfg, u.coroutines[j])
    {
      assert CoroutineOk(s, cfg, s.coroutines[j]);
    }
    if u.gate == Closed {
      if Opens(c) {
        assert Opens(u.coroutines[i]);
      } else {
        var j :| 0 <= j < |s.coroutines| && Opens(s.coroutines[j]);
        assert Opens(u.coroutines[j]);
      }
    }
  }

  lemma TakeKeeps(s: System, t: System, cfg: Config, i: nat, attempt: nat)
    requires Inv(s, cfg) && i < |s.coroutines| && t.coroutines == s.coroutines
    requires OneTask(t) && GateOk(t, cfg) && Later(s, t, cfg) && Started(t, cfg)
    ensures Inv(Take(t, cfg, i, attempt), cfg)
  {
    BecomeKeeps(s, t, cfg, i, if attempt > cfg.maxRetries then Returned else InFlight(attempt));
  }

  lemma PastGateKeeps(s: System, t: System, cfg: Config, i: nat, due: bool)
    requires Inv(s, cfg) && i < |s.coroutines| && t.coroutines == s.coroutines
    requires OneTask(t) && GateOk(t, cfg) && Later(s, t, cfg) && Started(t, cfg)
    ensures Inv(PastGate(t, cfg, i, due), cfg)
  {
    CreateKeeps(t, cfg);
    if cfg.snifferTimeout && due {
      var (u, raised) := CreateSniffTask(t);
      if raised.Some? {
        BecomeKeeps(s, u, cfg, i, Failed(SniffRaised));
      } else {
        TakeKeeps(s, u, cfg, i, 0);
      }
    } else {
      TakeKeeps(s, t, cfg, i, 0);
    }
  }

  lemma BeginKeeps(s: System, cfg: Config, i: nat, due: bool)
    requires Inv(s, cfg) && i < |s.coroutines| && s.coroutines[i] == New
    ensures Inv(Begin(s, cfg, i, due), cfg)
  {
    if s.initCalled {
      if s.gate == Closed {
        BecomeKeeps(s, s, cfg, i, GateWait);
      } else {
        PastGateKeeps(s, s, cfg, i, due);
      }
    } else {
      var t := s.(initCalled := true, initRuns := s.initRuns + 1, realPool := true);
      if cfg.sniffOnStart {
        var (u, _) := CreateSniffTask(t.(gate := Closed));
        BecomeKeeps(s, u, cfg, i, InitWait(0));
      } else {
        PastGateKeeps(s, t, cfg, i, due);
      }
    }
  }

  lemma AfterInitKeeps(s: System, cfg: Config, i: nat, t: nat, due: bool)
    requires Inv(s, cfg) && i < |s.coroutines| && s.coroutines[i] == InitWait(t) && Done(s, t)
    ensures Inv(AfterInit(s, cfg, i, t, due), cfg)
  {
    assert CoroutineOk(s, cfg, s.coroutines[i]);
    var u := s.(gate := Open);
    if s.tasks[t] in {FailedTransport, FailedOther} {
      BecomeKeeps(s, u, cfg, i, Failed(SniffRaised));
    } else {
      PastGateKeeps(s, u, cfg, i, due);
    }
  }

  lemma AfterAnswerKeeps(s: System, cfg: Config, i: nat, attempt: nat, reaction: Reaction)
    requires Inv(s, cfg) && i < |s.coroutines| && s.coroutines[i] == InFlight(attempt)
    ensures Inv(AfterAnswer(s, cfg, i, attempt, reaction), cfg)
  {
    assert CoroutineOk(s, cfg, s.coroutines[i]);
    CreateKeeps(s, cfg);
    match reaction
    case Success => BecomeKeeps(s, s, cfg, i, Returned);
    case Final => BecomeKeeps(s, s, cfg, i, Failed(RequestRaised));
    case Retry =>
      var (t, raised) := if cfg.sniffOnConnectionFail then CreateSniffTask(s) else (s, None);
      if raised.Some? && raised.value != FailedTransport {
        BecomeKeeps(s, t, cfg, i, Failed(SniffRaised));
      } else if attempt >= cfg.maxRetries {
        BecomeKeeps(s, t, cfg, i, Failed(RequestRaised));
      } else {
        TakeKeeps(s, t, cfg, i, attempt + 1);
      }
  }

  lemma TaskKeeps(s: System, cfg: Config, t: nat, how: Status)
    requires Inv(s, cfg) && t < |s.tasks| && how != Running
    ensures Inv(s.(tasks := s.tasks[t := how]), cfg)
  {
    var u := s.(tasks := s.tasks[t := how]);
    assert Later(s, u, cfg);
    forall j | 0 <= j < |u.coroutines|
      ensures CoroutineOk(u, cfg, u.coroutines[j])
    {
      assert CoroutineOk(s, cfg, s.coroutines[j]);
    }
  }

  lemma StepKeeps(s: System, cfg: Config, m: Move)
    requires Inv(s, cfg)
    ensures Inv(Step(s, cfg, m), cfg)
  {
    match m
    case Run(i, due, reaction) =>
      if i < |s.coroutines| {
        assert CoroutineOk(s, cfg, s.coroutines[i]);
        match s.coroutines[i] {
          case New => BeginKeeps(s, cfg, i, due);
          case InitWait(t) => if Done(s, t) { AfterInitKeeps(s, cfg, i, t, due); }
          case InitCancelled(_) => PastGateKeeps(s, s.(gate := Open), cfg, i, due);
          case GateWait => if s.gate != Closed { PastGateKeeps(s, s, cfg, i, due); }
          case InFlight(attempt) => AfterAnswerKeeps(s, cfg, i, attempt, reaction);
          case Returned =>
          case Failed(_) =>
        }
      }
    case CancelCoroutine(i) =>
      if i < |s.coroutines| {
        match s.coroutines[i] {
          case InitWait(t) =>
            assert CoroutineOk(s, cfg, s.coroutines[i]);
            if Done(s, t) {
              BecomeKeeps(s, s, cfg, i, InitCancelled(t));
            } else if t < |s.tasks| {
              TaskKeeps(s, cfg, t, Cancelled);
            }
          case InitCancelled(_) =>
          case Returned =>
          case Failed(_) =>
          case _ => BecomeKeeps(s, s, cfg, i, Failed(WasCancelled));
        }
      }
    case ReplacePool(t) => PoolKeeps(s, cfg, t);
    case EndTask(t, how) =>
      if t < |s.tasks| && !Done(s, t) && how != Running { TaskKeeps(s, cfg, t, how); }
  }

  lemma PoolKeeps(s: System, cfg: Config, t: nat)
    requires Inv(s, cfg)
    ensures Inv(Step(s, cfg, ReplacePool(t)), cfg)
  {
    var u := Step(s, cfg, ReplacePool(t));
    if t < |s.tasks| {
      assert s.initCalled && u == s;
    }
  }

  /** How a coroutine goes on when its answer has come, with no sniff in the way: a success and
      a final failure end it, a failure to be retried starts the next attempt until the last
      one, which raises. A sniff collected after a failure ends it only if that sniff failed
      with something else than a TransportError. */
  lemma AnswerEnds(s: System, cfg: Config, i: nat, attempt: nat, due: bool, reaction: Reaction)
    requires Inv(s, cfg) && i < |s.coroutines| && s.coroutines[i] == InFlight(attempt)
    ensures var c := Step(s, cfg, Run(i, due, reaction)).coroutines[i];
            && (reaction == Success ==> c == Returned)
            && (reaction == Final ==> c == Failed(RequestRaised))
            && (reaction == Retry ==>
                  if cfg.sniffOnConnectionFail && s.sniffingTask.Some?
                     && s.tasks[s.sniffingTask.value] in {FailedOther, Cancelled} then c == Failed(SniffRaised)
                  else if attempt == cfg.maxRetries then c == Failed(RequestRaised)
                  else c == InFlight(attempt + 1))
  {
    assert CoroutineOk(s, cfg, s.coroutines[i]);
    CreateKeeps(s, cfg);
  }

  /** create_sniff_task: an unfinished sniff stays the only one; a finished one makes room for a
      new one; one that failed or was cancelled is collected, its error raised, and forgotten. */
  lemma CreateMakes(s: System)
    requires OneTask(s)
    ensures var (t, raised) := CreateSniffTask(s);
            var how := if s.sniffingTask.Some? then Some(s.tasks[s.sniffingTask.value]) else None;
            && (how == Some(Running) ==> t == s && raised == None)
            && (how == None || how == Some(Finished) ==>
                  raised == None && t.tasks == s.tasks + [Running] && t.sniffingTask == Some(|s.tasks|))
            && (how.Some? && how.value in {FailedTransport, FailedOther, Cancelled} ==>
                  raised == how && t.tasks == s.tasks && t.sniffingTask == None)
  {}

  /** The first call sets the real pool up; with sniff_on_start it closes the gate, starts the
      first sniff and waits for it, else it sends its request at once. */
  lemma FirstCall(s: System, cfg: Config, i: nat, reaction: Reaction)
    requires Initial(s) && i < |s.coroutines| && cfg.maxRetries >= 0
    ensures var t := Step(s, cfg, Run(i, false, reaction));
            && t.initCalled && t.realPool
            && if cfg.sniffOnStart then t.gate == Closed && t.tasks == [Running] && t.coroutines[i] == InitWait(0)
               else t.tasks == [] && t.coroutines[i] == InFlight(0)
  {}

  /** After the first sniff: its error is raised in the call that waited for it, unless it was
      cancelled; every other call that waits at the open gate goes on to its first attempt. A
      sniff that is due then is started first, and it ends the call only if the one before it
      left an error. */
  lemma PastTheGate(s: System, cfg: Config, i: nat, due: bool, reaction: Reaction)
    requires Inv(s, cfg) && i < |s.coroutines| && cfg.maxRetries >= 0
    requires s.coroutines[i] == InitWait(0) ==> Done(s, 0)
    requires s.coroutines[i] == InitWait(0) || s.coroutines[i] == InitCancelled(0) || (s.coroutines[i] == GateWait && s.gate == Open)
    ensures var t := Step(s, cfg, Run(i, due, reaction));
            var bad := s.sniffingTask.Some? && s.tasks[s.sniffingTask.value] in {FailedTransport, FailedOther, Cancelled};
            && t.gate == Open
            && if s.coroutines[i] == InitWait(0) && s.tasks[0] in {FailedTransport, FailedOther} then
                 t.coroutines[i] == Failed(SniffRaised)
               else if cfg.snifferTimeout && due && bad then t.coroutines[i] == Failed(SniffRaised)
               else t.coroutines[i] == InFlight(0) && (cfg.snifferTimeout && due ==> exists k :: 0 <= k < |t.tasks| && t.tasks[k] == Running)
  {
    assert CoroutineOk(s, cfg, s.coroutines[i]);
    CreateMakes(s);
    CreateMakes(s.(gate := Open));
    if s.sniffingTask.Some? && s.tasks[s.sniffingTask.value] == Running {
      assert s.tasks[s.sniffingTask.value] == Running;
    } else {
      assert (s.tasks + [Running])[|s.tasks|] == Running;
    }
  }

  function Execute(s: System, cfg: Config, moves: seq<Move>): System
  {
    if moves == [] then s
    else Step(Execute(s, cfg, moves[..|moves| - 1]), cfg, moves[|moves| - 1])
  }

  lemma {:induction false} ExecuteInv(s: System, cfg: Config, moves: seq<Move>)
    requires Initial(s)
    ensures Inv(Execute(s, cfg, moves), cfg)
  {
    if moves != [] {
      ExecuteInv(s, cfg, moves[..|moves| - 1]);
      StepKeeps(Execute(s, cfg, moves[..|moves| - 1]), cfg, moves[|moves| - 1]);
    }
  }

  /** In every interleaving: _async_init is entered at most once; a coroutine has a
      connection only when the real pool is set and the first sniff is over, and none ever
      meets the empty pool; at most one sniff task is unfinished. */
  lemma StartUp(s: System, cfg: Config, moves: seq<Move>)
    requires Initial(s)
    ensures var t := Execute(s, cfg, moves);
            && t.initRuns <= 1
            && (forall i :: 0 <= i < |t.coroutines| && t.coroutines[i].InFlight? ==>
                  t.realPool && (cfg.sniffOnStart ==> t.gate == Open && Done(t, 0)))
            && (forall i :: 0 <= i < |t.coroutines| ==> t.coroutines[i] != Failed(EmptyPool))
            && (forall j, k :: 0 <= j < k < |t.tasks| ==> t.tasks[j] != Running || t.tasks[k] != Running)
  {
    ExecuteInv(s, cfg, moves);
    var t := Execute(s, cfg, moves);
    forall i | 0 <= i < |t.coroutines|
      ensures CoroutineOk(t, cfg, t.coroutines[i])
    {}
  }

  /** The gate is never left shut: once no task is unfinished, a closed gate is opened by
      the next step of some coroutine. */
  lemma GateOpens(s: System, cfg: Config, moves: seq<Move>, due: bool) returns (i: nat)
    requires Initial(s)
    requires var t := Execute(s, cfg, moves);
             t.gate == Closed && forall k :: 0 <= k < |t.tasks| ==> t.tasks[k] != Running
    ensures var t := Execute(s, cfg, moves);
            i < |t.coroutines| && Step(t, cfg, Run(i, due, Success)).gate == Open
  {
    ExecuteInv(s, cfg, moves);
    var t := Execute(s, cfg, moves);
    i :| 0 <= i < |t.coroutines| && Opens(t.coroutines[i]);
    CreateKeeps(t.(gate := Open), cfg);
  }
}
