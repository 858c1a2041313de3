/**
  The batch proxy-test engine: one producer, a pool of workers, a bounded results
  channel and a collector per batch, with every batch sharing a global limiter and
  one limiter per test type.  Each atomic channel or limiter operation is one step,
  so a run of the model is one interleaving of the goroutines.
 */
module BatchModel {
  import opened Options

  /** The test type after trimming and lower-casing; Other stands for every unknown type. */
  datatype TestType = TCP | HTTP | UDP | Other

  // ---------------------------------------------------------------- budgets

  function Clamp(value: int, low: int, high: int): int {
    if value < low then low else if value > high then high else value
  }

  /** `procs` is the value of GOMAXPROCS(0); fewer than four count as four. */
  function Cores(procs: int): int {
    if procs < 4 then 4 else procs
  }

  function GlobalBudget(procs: int): int {
    Clamp(Cores(procs) * 16, 64, 256)
  }

  function TypeBudget(kind: TestType, procs: int): int {
    match kind
    case UDP => Clamp(Cores(procs) * 6, 24, 96)
    case TCP => Clamp(Cores(procs) * 12, 48, 128)
    case HTTP => Clamp(Cores(procs) * 12, 48, 128)
    case Other => GlobalBudget(procs)
  }

  /** The capacity of a limiter channel: a budget below one still makes room for one token. */
  function LimiterCapacity(limit: int): (capacity: nat)
    ensures capacity >= 1
  {
    if limit < 1 then 1 else limit
  }

  function Concurrency(total: nat, requested: int, kind: TestType, procs: int): (workers: nat)
    ensures 1 <= workers <= LimiterCapacity(TypeBudget(kind, procs))
    ensures total > 0 ==> workers <= total
  {
    if total == 0 then 1
    else
      var wanted := if requested <= 0 then TypeBudget(kind, procs) else requested;
      var capped := if wanted > TypeBudget(kind, procs) then TypeBudget(kind, procs) else wanted;
      var fitted := if capped > total then total else capped;
      if fitted < 1 then 1 else fitted
  }

  // ---------------------------------------------------------------- state

  datatype Job = Job(index: nat, name: string)

  datatype Item = Item(name: string, success: bool)

  datatype Result = Result(index: nat, item: Item)

  /** Where a worker goroutine stands between two channel operations. */
  datatype Phase =
    | Idle                                  // waiting for a job
    | WaitGlobal(job: Job)                  // acquiring the global token
    | WaitType(job: Job)                    // holds the global token, acquiring the type token
    | Aborting                              // cancelled while acquiring the type token, still holds the global one
    | Running(job: Job)                     // holds both tokens, the test is in progress
    | Finished(result: Result)              // holds both tokens, about to release the type token
    | TypeReleased(result: Result)          // holds the global token only
    | Sending(result: Result)               // holds no token, offering the result
    | Exited
  {
    predicate HoldsGlobal() {
      WaitType? || Aborting? || Running? || Finished? || TypeReleased?
    }

    predicate HoldsType() {
      Running? || Finished?
    }

    /** The job indices this worker is responsible for: at most one. */
    function Carries(): multiset<nat> {
      match this
      case WaitGlobal(job) => multiset{job.index}
      case WaitType(job) => multiset{job.index}
      case Running(job) => multiset{job.index}
      case Finished(result) => multiset{result.index}
      case TypeReleased(result) => multiset{result.index}
      case Sending(result) => multiset{result.index}
      case _ => multiset{}
    }

    /** The name paired with the carried index belongs to it. */
    ghost predicate NamedBy(names: seq<string>) {
      match this
      case WaitGlobal(job) => job.index < |names| && job.name == names[job.index]
      case WaitType(job) => job.index < |names| && job.name == names[job.index]
      case Running(job) => job.index < |names| && job.name == names[job.index]
      case Finished(result) => result.index < |names| && result.item.name == names[result.index]
      case TypeReleased(result) => result.index < |names| && result.item.name == names[result.index]
      case Sending(result) => result.index < |names| && result.item.name == names[result.index]
      case _ => true
    }

    /** Bounds the steps the worker can still take. */
    ghost function Rank(): nat {
      match this
      case WaitGlobal(_) => 9
      case WaitType(_) => 8
      case Running(_) => 7
      case Finished(_) => 6
      case TypeReleased(_) => 5
      case Sending(_) => 4
      case Aborting => 2
      case Idle => 1
      case Exited => 0
    }
  }

  datatype Response = Response(total: nat, success: nat, failed: nat, items: seq<Option<Item>>)

  datatype Outcome = Pending | Failure | Success(response: Response)

  /**
    One call of the engine.  `items` starts with zero values (None).  The last three
    fields are history: what the collector wrote, what was thrown away because the
    context was done, and whether the caller cancelled or its callback failed.
   */
  datatype Batch = Batch(
    names: seq<string>,
    kind: TestType,
    hasCallback: bool,
    cancelled: bool,
    next: nat,
    jobsClosed: bool,
    workers: seq<Phase>,
    results: seq<Result>,
    resultsClosed: bool,
    items: seq<Option<Item>>,
    current: nat,
    success: nat,
    failed: nat,
    outcome: Outcome,
    recorded: multiset<nat>,
    dropped: multiset<nat>,
    interrupted: bool)

  datatype Limiters = Limiters(global: nat, typed: map<TestType, nat>)

  datatype System = System(procs: int, limiters: Limiters, batches: seq<Batch>)

  // ---------------------------------------------------------------- steps

  datatype Act =
    | Cancel                              // the caller's context is done
    | Produce(w: nat)                     // the producer hands the next job to an idle worker
    | ProducerStops                       // the producer sees the context done and closes jobs
    | ProducerCloses                      // the producer has sent everything and closes jobs
    | SeesClosed(w: nat)                  // an idle worker finds jobs closed
    | SeesDone(w: nat)                    // a waiting worker takes the ctx.Done branch
    | AcquireGlobal(w: nat)
    | AcquireType(w: nat)
    | AbortRelease(w: nat)                // gives back the global token after a failed type acquire
    | Finish(w: nat, ok: bool)            // the test returns
    | ReleaseType(w: nat)
    | ReleaseGlobal(w: nat)
    | Send(w: nat)
    | CloseResults                        // every worker is done
    | Collect(callbackFails: bool)        // the collector takes one result
    | Return                              // the collector's loop ends

  datatype Step =
    | Start(names: seq<string>, requested: int, kind: TestType, hasCallback: bool)
    | Local(b: nat, act: Act)

  function HasLimiter(kind: TestType): bool {
    !kind.Other?
  }

  function GlobalCapacity(procs: int): nat {
    LimiterCapacity(GlobalBudget(procs))
  }

  function TypeCapacity(kind: TestType, procs: int): nat {
    LimiterCapacity(TypeBudget(kind, procs))
  }

  predicate AllExited(workers: seq<Phase>) {
    forall w :: 0 <= w < |workers| ==> workers[w].Exited?
  }

  predicate TypeTokenAvailable(l: Limiters, kind: TestType, procs: int) {
    kind in l.typed ==> l.typed[kind] < TypeCapacity(kind, procs)
  }

  predicate ActEnabled(batch: Batch, act: Act, l: Limiters, procs: int) {
    match act
    case Cancel => !batch.cancelled
    case Produce(w) =>
      !batch.jobsClosed && batch.next < |batch.names| && w < |batch.workers| && batch.workers[w].Idle?
    case ProducerStops => !batch.jobsClosed && batch.next < |batch.names| && batch.cancelled
    case ProducerCloses => !batch.jobsClosed && batch.next == |batch.names|
    case SeesClosed(w) => w < |batch.workers| && batch.workers[w].Idle? && batch.jobsClosed
    case SeesDone(w) =>
      w < |batch.workers| && batch.cancelled &&
      (batch.workers[w].Idle? || batch.workers[w].WaitGlobal? || batch.workers[w].WaitType? || batch.workers[w].Sending?)
    case AcquireGlobal(w) =>
      w < |batch.workers| && batch.workers[w].WaitGlobal? && l.global < GlobalCapacity(procs)
    case AcquireType(w) =>
      w < |batch.workers| && batch.workers[w].WaitType? && TypeTokenAvailable(l, batch.kind, procs)
    case AbortRelease(w) => w < |batch.workers| && batch.workers[w].Aborting?
    case Finish(w, _) => w < |batch.workers| && batch.workers[w].Running?
    case ReleaseType(w) => w < |batch.workers| && batch.workers[w].Finished?
    case ReleaseGlobal(w) => w < |batch.workers| && batch.workers[w].TypeReleased?
    case Send(w) =>
      w < |batch.workers| && batch.workers[w].Sending? && |batch.results| < |batch.workers|
    case CloseResults => !batch.resultsClosed && AllExited(batch.workers)
    case Collect(callbackFails) =>
      batch.outcome.Pending? && |batch.results| > 0 && batch.results[0].index < |batch.items| &&
      (callbackFails ==> batch.hasCallback)
    case Return => batch.outcome.Pending? && |batch.results| == 0 && batch.resultsClosed
  }

  function CollectOne(batch: Batch, callbackFails: bool): Batch
    requires |batch.results| > 0 && batch.results[0].index < |batch.items|
  {
    var r := batch.results[0];
    batch.(
      results := batch.results[1..],
      items := batch.items[r.index := Some(r.item)],
      recorded := batch.recorded + multiset{r.index},
      current := batch.current + 1,
      success := if r.item.success then batch.success + 1 else batch.success,
      failed := if r.item.success then batch.failed else batch.failed + 1,
      cancelled := batch.cancelled || callbackFails,
      interrupted := batch.interrupted || callbackFails,
      outcome := if callbackFails then Failure else batch.outcome)
  }

  /** The verdict after the loop over results; the deferred cancel fires on the way out. */
  function Conclude(batch: Batch): Batch {
    batch.(
      cancelled := true,
      outcome := if batch.cancelled && batch.current < |batch.names| then Failure
                 else Success(Response(|batch.items|, batch.success, batch.failed, batch.items)))
  }

  function Move(batch: Batch, w: nat, phase: Phase): Batch
    requires w < |batch.workers|
  {
    batch.(workers := batch.workers[w := phase])
  }

  /** The acts that only move one worker along. */
  predicate MovesOnly(phase: Phase, act: Act) {
    match act
    case SeesClosed(_) => phase.Idle?
    case AcquireGlobal(_) => phase.WaitGlobal?
    case AcquireType(_) => phase.WaitType?
    case AbortRelease(_) => phase.Aborting?
    case Finish(_, _) => phase.Running?
    case ReleaseType(_) => phase.Finished?
    case ReleaseGlobal(_) => phase.TypeReleased?
    case _ => false
  }

  function NextPhase(phase: Phase, act: Act): Phase
    requires MovesOnly(phase, act)
  {
    match act
    case AcquireGlobal(_) => WaitType(phase.job)
    case AcquireType(_) => Running(phase.job)
    case Finish(_, ok) => Finished(Result(phase.job.index, Item(phase.job.name, ok)))
    case ReleaseType(_) => TypeReleased(phase.result)
    case ReleaseGlobal(_) => Sending(phase.result)
    case _ => Exited
  }

  function ActBatch(batch: Batch, act: Act, l: Limiters, procs: int): Batch
    requires ActEnabled(batch, act, l, procs)
  {
    match act
    case Cancel => batch.(cancelled := true, interrupted := true)
    case Produce(w) =>
      Move(batch, w, WaitGlobal(Job(batch.next, batch.names[batch.next]))).(next := batch.next + 1)
    case ProducerStops => batch.(jobsClosed := true)
    case ProducerCloses => batch.(jobsClosed := true)
    case SeesDone(w) =>
      Move(batch, w, if batch.workers[w].WaitType? then Aborting else Exited)
        .(dropped := batch.dropped + batch.workers[w].Carries())
    case Send(w) =>
      Move(batch, w, Idle).(results := batch.results + [batch.workers[w].result])
    case CloseResults => batch.(resultsClosed := true)
    case Collect(callbackFails) => CollectOne(batch, callbackFails)
    case Return => Conclude(batch)
    case _ => Move(batch, act.w, NextPhase(batch.workers[act.w], act))
  }

  function TakeType(l: Limiters, kind: TestType): Limiters {
    if kind in l.typed then l.(typed := l.typed[kind := l.typed[kind] + 1]) else l
  }

  /** Releasing never blocks: on an empty channel the select falls into its default branch. */
  function GiveType(l: Limiters, kind: TestType): Limiters {
    if kind in l.typed && l.typed[kind] > 0 then l.(typed := l.typed[kind := l.typed[kind] - 1]) else l
  }

  function GiveGlobal(l: Limiters): Limiters {
    if l.global > 0 then l.(global := l.global - 1) else l
  }

  function ActLimiters(batch: Batch, act: Act, l: Limiters): Limiters {
    match act
    case AcquireGlobal(_) => l.(global := l.global + 1)
    case AcquireType(_) => TakeType(l, batch.kind)
    case AbortRelease(_) => GiveGlobal(l)
    case ReleaseType(_) => GiveType(l, batch.kind)
    case ReleaseGlobal(_) => GiveGlobal(l)
    case _ => l
  }

  function NewBatch(names: seq<string>, requested: int, kind: TestType, hasCallback: bool, procs: int): Batch {
    var workers := Concurrency(|names|, requested, kind, procs);
    Batch(names, kind, hasCallback, false, 0, false, seq(workers, _ => Idle), [], false,
          seq(|names|, _ => None), 0, 0, 0, Pending, multiset{}, multiset{}, false)
  }

  predicate Enabled(s: System, step: Step) {
    match step
    case Start(_, _, _, _) => true
    case Local(b, act) => b < |s.batches| && ActEnabled(s.batches[b], act, s.limiters, s.procs)
  }

  function Apply(s: System, step: Step): System
    requires Enabled(s, step)
  {
    match step
    case Start(names, requested, kind, hasCallback) =>
      s.(batches := s.batches + [NewBatch(names, requested, kind, hasCallback, s.procs)])
    case Local(b, act) =>
      s.(limiters := ActLimiters(s.batches[b], act, s.limiters),
         batches := s.batches[b := ActBatch(s.batches[b], act, s.limiters, s.procs)])
  }

  function Initial(procs: int): System {
    System(procs, Limiters(0, map[TCP := 0, HTTP := 0, UDP := 0]), [])
  }

  /** A run is a sequence of enabled steps; Run gives its last state. */
  predicate IsRun(s: System, steps: seq<Step>)
    decreases |steps|
  {
    |steps| == 0 || (Enabled(s, steps[0]) && IsRun(Apply(s, steps[0]), steps[1..]))
  }

  function Run(s: System, steps: seq<Step>): System
    requires IsRun(s, steps)
    decreases |steps|
  {
    if |steps| == 0 then s else Run(Apply(s, steps[0]), steps[1..])
  }
}
