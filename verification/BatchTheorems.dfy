/**
  The results about the batch engine, for every sequence of interleaved steps from the
  start of the process: any number of overlapping batches, any cancellation, any
  callback failure, any test outcome.
 */
module BatchTheorems {
  import opened Options
  import opened Sets
  import opened BatchModel
  import opened BatchInvariant
  import opened BatchSystem

  lemma AfterRun(procs: int, steps: seq<Step>)
    requires IsRun(Initial(procs), steps)
    ensures SystemInv(Run(Initial(procs), steps)) && Run(Initial(procs), steps).procs == procs
  {
    var start := Initial(procs);
    assert GlobalHolders(start.batches) == {};
    forall kind: TestType
      ensures TypeHolders(start.batches, kind) == {}
    {
    }
    RunInv(start, steps);
  }

  // ---------------------------------------------------------------- budgets

  lemma TypeBudgetWithinGlobal(kind: TestType, procs: int)
    ensures 1 <= TypeBudget(kind, procs) <= GlobalBudget(procs) <= 256
    ensures TypeCapacity(kind, procs) == TypeBudget(kind, procs) && GlobalCapacity(procs) == GlobalBudget(procs)
    ensures forall total: nat, requested: int :: Concurrency(total, requested, kind, procs) <= TypeBudget(kind, procs)
  {
  }

  ghost function AllRunning(batches: seq<Batch>): set<(nat, nat)> {
    set b: nat, w: nat | b < |batches| && w < |batches[b].workers| && batches[b].workers[w].Running? :: (b, w)
  }

  /** In every reachable state the tests in progress fit the type budget and the global budget. */
  lemma RunningWithinBudgets(procs: int, steps: seq<Step>, kind: TestType)
    requires IsRun(Initial(procs), steps)
    ensures var batches := Run(Initial(procs), steps).batches;
      && |RunningTests(batches, kind)| <= TypeBudget(kind, procs)
      && |AllRunning(batches)| <= GlobalBudget(procs)
  {
    AfterRun(procs, steps);
    var s := Run(Initial(procs), steps);
    hide IsRun, Run, BatchInv;
    TypeBudgetWithinGlobal(kind, procs);
    SubsetSize(AllRunning(s.batches), GlobalHolders(s.batches));
    SubsetSize(RunningTests(s.batches, kind), AllRunning(s.batches));
    if !kind.Other? {
      SubsetSize(RunningTests(s.batches, kind), TypeHolders(s.batches, kind));
    }
  }

  // ---------------------------------------------------------------- tokens

  /** Each limiter channel holds exactly one token per worker that holds it; a worker offering its result holds none. */
  lemma TokensMatchHolders(procs: int, steps: seq<Step>)
    requires IsRun(Initial(procs), steps)
    ensures var s := Run(Initial(procs), steps);
      && s.limiters.global == |GlobalHolders(s.batches)|
      && forall kind :: HasLimiter(kind) ==>
           kind in s.limiters.typed && s.limiters.typed[kind] == |TypeHolders(s.batches, kind)|
    ensures var batches := Run(Initial(procs), steps).batches;
      forall b: nat, w: nat :: b < |batches| && w < |batches[b].workers| && batches[b].workers[w].Sending? ==>
        (b, w) !in GlobalHolders(batches) && (b, w) !in TypeHolders(batches, batches[b].kind)
  {
    AfterRun(procs, steps);
    SendersHoldNothing(Run(Initial(procs), steps).batches);
    hide IsRun, Run, BatchInv, GlobalHolders, TypeHolders;
  }

  lemma SendersHoldNothing(batches: seq<Batch>)
    ensures forall b: nat, w: nat :: b < |batches| && w < |batches[b].workers| && batches[b].workers[w].Sending? ==>
        (b, w) !in GlobalHolders(batches) && (b, w) !in TypeHolders(batches, batches[b].kind)
  {
  }

  /** A release always finds a token, so its select never takes the default branch. */
  lemma ReleaseNeverDefaults(procs: int, steps: seq<Step>, b: nat, act: Act)
    requires IsRun(Initial(procs), steps)
    requires Enabled(Run(Initial(procs), steps), Local(b, act))
    ensures var s := Run(Initial(procs), steps);
      && (act.AbortRelease? || act.ReleaseGlobal? ==>
            s.limiters.global > 0 && Apply(s, Local(b, act)).limiters.global == s.limiters.global - 1)
      && (act.ReleaseType? && HasLimiter(s.batches[b].kind) ==>
            && s.batches[b].kind in s.limiters.typed
            && s.limiters.typed[s.batches[b].kind] > 0
            && Apply(s, Local(b, act)).limiters.typed ==
                 s.limiters.typed[s.batches[b].kind := s.limiters.typed[s.batches[b].kind] - 1])
  {
    AfterRun(procs, steps);
    var s := Run(Initial(procs), steps);
    hide IsRun, Run, BatchInv, LimiterInv, ActEnabled, ActBatch, ActLimiters;
    if act.AbortRelease? || act.ReleaseGlobal? {
      GlobalReleased(s, b, act);
    } else if act.ReleaseType? && HasLimiter(s.batches[b].kind) {
      TypeReleased(s, b, act);
    }
  }

  lemma GlobalReleased(s: System, b: nat, act: Act)
    requires LimiterInv(s) && Enabled(s, Local(b, act)) && (act.AbortRelease? || act.ReleaseGlobal?)
    ensures s.limiters.global > 0 && Apply(s, Local(b, act)).limiters.global == s.limiters.global - 1
  {
    hide ActBatch;
    assert (b, act.w) in GlobalHolders(s.batches);
  }

  lemma TypeReleased(s: System, b: nat, act: Act)
    requires LimiterInv(s) && Enabled(s, Local(b, act)) && act.ReleaseType? && HasLimiter(s.batches[b].kind)
    ensures var kind := s.batches[b].kind;
      && kind in s.limiters.typed && s.limiters.typed[kind] > 0
      && Apply(s, Local(b, act)).limiters.typed == s.limiters.typed[kind := s.limiters.typed[kind] - 1]
  {
    hide ActBatch;
    assert (b, act.w) in TypeHolders(s.batches, s.batches[b].kind);
  }

  // ---------------------------------------------------------------- results

  /** No index is recorded twice, and only indices of the request are recorded. */
  lemma RecordedAtMostOnce(procs: int, steps: seq<Step>, b: nat, i: nat)
    requires IsRun(Initial(procs), steps) && b < |Run(Initial(procs), steps).batches|
    ensures var batch := Run(Initial(procs), steps).batches[b];
      batch.recorded[i] <= 1 && (i >= |batch.names| ==> batch.recorded[i] == 0)
  {
    AfterRun(procs, steps);
    var batch := Run(Initial(procs), steps).batches[b];
    hide IsRun, Run;
    UpToOnce(batch.next, i);
    assert batch.recorded[i] <= UpTo(batch.next)[i];
  }

  /** A batch that returns without an error recorded every index exactly once, each under its own name. */
  lemma SuccessIsComplete(procs: int, steps: seq<Step>, b: nat)
    requires IsRun(Initial(procs), steps) && b < |Run(Initial(procs), steps).batches|
    requires Run(Initial(procs), steps).batches[b].outcome.Success?
    ensures var batch := Run(Initial(procs), steps).batches[b];
      var response := batch.outcome.response;
      && response.total == |batch.names| == |response.items|
      && response.success + response.failed == response.total
      && (forall i :: 0 <= i < |batch.names| ==>
            && batch.recorded[i] == 1
            && response.items[i].Some? && response.items[i].value.name == batch.names[i])
      && response.success == CountItems(response.items, true)
      && response.failed == CountItems(response.items, false)
  {
    AfterRun(procs, steps);
    var batch := Run(Initial(procs), steps).batches[b];
    hide IsRun, Run;
    forall i | 0 <= i < |batch.names|
      ensures batch.recorded[i] == 1
    {
      UpToOnce(|batch.names|, i);
    }
  }

  // ---------------------------------------------------------------- termination

  ghost function WorkerRank(workers: seq<Phase>): nat {
    if |workers| == 0 then 0 else workers[0].Rank() + WorkerRank(workers[1..])
  }

  ghost function Flag(open: bool): nat {
    if open then 1 else 0
  }

  ghost function BatchRank(batch: Batch): int {
    10 * (|batch.names| - batch.next) + WorkerRank(batch.workers) + 2 * |batch.results|
    + Flag(!batch.jobsClosed) + Flag(!batch.resultsClosed) + Flag(!batch.cancelled) + Flag(batch.outcome.Pending?)
  }

  ghost function SystemRank(batches: seq<Batch>): int {
    if |batches| == 0 then 0 else BatchRank(batches[0]) + SystemRank(batches[1..])
  }

  lemma {:induction false} WorkerRankMove(workers: seq<Phase>, w: nat, phase: Phase)
    requires w < |workers|
    ensures WorkerRank(workers[w := phase]) == WorkerRank(workers) - workers[w].Rank() + phase.Rank()
  {
    var moved := workers[w := phase];
    if w == 0 {
      assert moved[1..] == workers[1..];
    } else {
      assert moved[1..] == workers[1..][w - 1 := phase];
      WorkerRankMove(workers[1..], w - 1, phase);
    }
  }

  lemma {:induction false} SystemRankMove(batches: seq<Batch>, b: nat, after: Batch)
    requires b < |batches|
    ensures SystemRank(batches[b := after]) == SystemRank(batches) - BatchRank(batches[b]) + BatchRank(after)
  {
    var moved := batches[b := after];
    if b == 0 {
      assert moved[1..] == batches[1..];
    } else {
      assert moved[1..] == batches[1..][b - 1 := after];
      SystemRankMove(batches[1..], b - 1, after);
    }
  }

  lemma MoveRank(phase: Phase, act: Act)
    requires MovesOnly(phase, act)
    ensures NextPhase(phase, act).Rank() < phase.Rank()
  {
  }

  lemma MoverDescends(batch: Batch, act: Act, l: Limiters, procs: int)
    requires ActEnabled(batch, act, l, procs) && HasWorker(act) && !act.Produce? && !act.SeesDone? && !act.Send?
    ensures BatchRank(ActBatch(batch, act, l, procs)) < BatchRank(batch)
  {
    MoverMoves(batch, act, l, procs);
    hide WorkerRank, ActBatch, ActEnabled, NextPhase, MovesOnly;
    MoveRank(batch.workers[act.w], act);
    WorkerRankMove(batch.workers, act.w, NextPhase(batch.workers[act.w], act));
  }

  lemma CarrierDescends(batch: Batch, act: Act, l: Limiters, procs: int)
    requires ActEnabled(batch, act, l, procs) && (act.Produce? || act.SeesDone? || act.Send?)
    ensures BatchRank(ActBatch(batch, act, l, procs)) < BatchRank(batch)
  {
    hide WorkerRank;
    match act
    case Produce(w) => WorkerRankMove(batch.workers, w, WaitGlobal(Job(batch.next, batch.names[batch.next])));
    case SeesDone(w) => WorkerRankMove(batch.workers, w, if batch.workers[w].WaitType? then Aborting else Exited);
    case Send(w) => WorkerRankMove(batch.workers, w, Idle);
  }

  /** Every act, of any goroutine, brings its batch nearer its end. */
  lemma ActDescends(batch: Batch, act: Act, l: Limiters, procs: int)
    requires ActEnabled(batch, act, l, procs) && Flags(batch)
    ensures BatchRank(ActBatch(batch, act, l, procs)) < BatchRank(batch)
  {
    hide Flags, WorkerRank;
    if act.Produce? || act.SeesDone? || act.Send? {
      CarrierDescends(batch, act, l, procs);
    } else if HasWorker(act) {
      MoverDescends(batch, act, l, procs);
    }
  }

  lemma {:induction false} SystemRankNat(batches: seq<Batch>)
    requires forall b :: 0 <= b < |batches| ==> BatchInv(batches[b])
    ensures SystemRank(batches) >= 0
  {
    if |batches| > 0 {
      assert BatchInv(batches[0]);
      SystemRankNat(batches[1..]);
    }
  }

  lemma StepDescends(s: System, b: nat, act: Act)
    requires SystemInv(s) && Enabled(s, Local(b, act))
    ensures SystemRank(Apply(s, Local(b, act)).batches) < SystemRank(s.batches)
  {
    assert BatchInv(s.batches[b]);
    ActDescends(s.batches[b], act, s.limiters, s.procs);
    SystemRankMove(s.batches, b, ActBatch(s.batches[b], act, s.limiters, s.procs));
  }

  lemma {:induction false} RunDescends(s: System, steps: seq<Step>)
    requires SystemInv(s) && IsRun(s, steps)
    requires forall k :: 0 <= k < |steps| ==> steps[k].Local?
    ensures |steps| <= SystemRank(s.batches)
    decreases |steps|
  {
    hide BatchInv, LimiterInv, Enabled, Apply, SystemRank;
    if |steps| == 0 {
      SystemRankNat(s.batches);
    } else {
      StepDescends(s, steps[0].b, steps[0].act);
      StepInv(s, steps[0]);
      RunDescends(Apply(s, steps[0]), steps[1..]);
    }
  }

  /** Once no new batch starts, only boundedly many steps are left: every interleaving ends. */
  lemma EveryRunEnds(procs: int, steps: seq<Step>, more: seq<Step>)
    requires IsRun(Initial(procs), steps) && IsRun(Run(Initial(procs), steps), more)
    requires forall k :: 0 <= k < |more| ==> more[k].Local?
    ensures |more| <= SystemRank(Run(Initial(procs), steps).batches)
  {
    AfterRun(procs, steps);
    RunDescends(Run(Initial(procs), steps), more);
  }

  // ---------------------------------------------------------------- progress

  predicate Settled(batch: Batch) {
    AllExited(batch.workers) && batch.jobsClosed && batch.resultsClosed && !batch.outcome.Pending?
  }

  ghost predicate CanAct(s: System) {
    exists b: nat, act: Act :: act != Cancel && Enabled(s, Local(b, act))
  }

  lemma Acts(s: System, b: nat, act: Act)
    requires act != Cancel && Enabled(s, Local(b, act))
    ensures CanAct(s)
  {
  }

  /** A full type limiter is held by running or finished tests, and those can move. */
  lemma TypeHolderMoves(s: System, kind: TestType)
    requires SystemInv(s) && kind in s.limiters.typed && !TypeTokenAvailable(s.limiters, kind, s.procs)
    ensures CanAct(s)
  {
    hide BatchInv;
    assert |TypeHolders(s.batches, kind)| > 0;
    var holder :| holder in TypeHolders(s.batches, kind);
    var (b, w) := holder;
    if s.batches[b].workers[w].Running? {
      Acts(s, b, Finish(w, true));
    } else {
      Acts(s, b, ReleaseType(w));
    }
  }

  /** Whoever holds the global token can move, or waits for a type token that can be freed. */
  lemma GlobalHolderMoves(s: System, b: nat, w: nat)
    requires SystemInv(s) && b < |s.batches| && w < |s.batches[b].workers|
    requires s.batches[b].workers[w].HoldsGlobal()
    ensures CanAct(s)
  {
    hide BatchInv;
    match s.batches[b].workers[w]
    case WaitType(_) =>
      if TypeTokenAvailable(s.limiters, s.batches[b].kind, s.procs) {
        Acts(s, b, AcquireType(w));
      } else {
        TypeHolderMoves(s, s.batches[b].kind);
      }
    case Aborting => Acts(s, b, AbortRelease(w));
    case Running(_) => Acts(s, b, Finish(w, true));
    case Finished(_) => Acts(s, b, ReleaseType(w));
    case TypeReleased(_) => Acts(s, b, ReleaseGlobal(w));
  }

  /** A worker that has not exited never blocks the whole system, whatever it waits for. */
  lemma WorkerMoves(s: System, b: nat, w: nat)
    requires SystemInv(s) && b < |s.batches| && w < |s.batches[b].workers|
    requires !s.batches[b].workers[w].Exited?
    ensures CanAct(s)
  {
    var batch := s.batches[b];
    assert BatchInv(batch);
    if batch.workers[w].HoldsGlobal() {
      GlobalHolderMoves(s, b, w);
    } else if batch.workers[w].WaitGlobal? {
      if s.limiters.global < GlobalCapacity(s.procs) {
        Acts(s, b, AcquireGlobal(w));
      } else {
        assert |GlobalHolders(s.batches)| > 0;
        var holder :| holder in GlobalHolders(s.batches);
        GlobalHolderMoves(s, holder.0, holder.1);
      }
    } else if batch.workers[w].Idle? {
      IdleMoves(s, b, w);
    } else {
      SenderMoves(s, b, w);
    }
  }

  lemma IdleMoves(s: System, b: nat, w: nat)
    requires SystemInv(s) && b < |s.batches| && w < |s.batches[b].workers|
    requires s.batches[b].workers[w].Idle?
    ensures CanAct(s)
  {
    var batch := s.batches[b];
    assert Flags(batch);
    if batch.jobsClosed {
      Acts(s, b, SeesClosed(w));
    } else if batch.next < |batch.names| {
      Acts(s, b, Produce(w));
    } else {
      Acts(s, b, ProducerCloses);
    }
  }

  lemma SenderMoves(s: System, b: nat, w: nat)
    requires SystemInv(s) && b < |s.batches| && w < |s.batches[b].workers|
    requires s.batches[b].workers[w].Sending?
    ensures CanAct(s)
  {
    var batch := s.batches[b];
    assert Flags(batch);
    if |batch.results| < |batch.workers| {
      Acts(s, b, Send(w));
    } else if batch.cancelled {
      Acts(s, b, SeesDone(w));
    } else {
      CollectIsFresh(batch);
      Acts(s, b, Collect(false));
    }
  }

  lemma UnfinishedMoves(s: System, b: nat)
    requires SystemInv(s) && b < |s.batches| && !Settled(s.batches[b])
    ensures CanAct(s)
  {
    var batch := s.batches[b];
    assert BatchInv(batch);
    if w: nat :| w < |batch.workers| && !batch.workers[w].Exited? {
      WorkerMoves(s, b, w);
    } else if !batch.jobsClosed {
      assert batch.workers[0].Exited?;
      Acts(s, b, if batch.next < |batch.names| then ProducerStops else ProducerCloses);
    } else if !batch.resultsClosed {
      Acts(s, b, CloseResults);
    } else if |batch.results| > 0 {
      CollectIsFresh(batch);
      Acts(s, b, Collect(false));
    } else {
      Acts(s, b, Return);
    }
  }

  /**
    No deadlock: as long as some batch is unfinished, some goroutine can step without
    waiting for a cancellation.  In particular a worker waiting for a permit never
    waits for nothing.
   */
  lemma NoDeadlock(procs: int, steps: seq<Step>, b: nat)
    requires IsRun(Initial(procs), steps)
    requires b < |Run(Initial(procs), steps).batches| && !Settled(Run(Initial(procs), steps).batches[b])
    ensures CanAct(Run(Initial(procs), steps))
  {
    AfterRun(procs, steps);
    UnfinishedMoves(Run(Initial(procs), steps), b);
  }

  /** When nothing can step any more every batch has its verdict and every token is back. */
  lemma QuietMeansDone(procs: int, steps: seq<Step>)
    requires IsRun(Initial(procs), steps)
    requires !CanAct(Run(Initial(procs), steps))
    ensures var s := Run(Initial(procs), steps);
      && (forall b :: 0 <= b < |s.batches| ==> Settled(s.batches[b]))
      && s.limiters == Limiters(0, map[TCP := 0, HTTP := 0, UDP := 0])
  {
    AfterRun(procs, steps);
    var s := Run(Initial(procs), steps);
    hide IsRun, Run, BatchInv, CanAct;
    forall b | 0 <= b < |s.batches|
      ensures Settled(s.batches[b])
    {
      if !Settled(s.batches[b]) {
        UnfinishedMoves(s, b);
      }
    }
    assert GlobalHolders(s.batches) == {};
    forall kind: TestType
      ensures TypeHolders(s.batches, kind) == {}
    {
    }
  }

  predicate Interrupts(step: Step, b: nat) {
    step == Local(b, Cancel) || step == Local(b, Collect(true))
  }

  lemma {:induction false} InterruptedByStep(s: System, steps: seq<Step>, b: nat)
    requires IsRun(s, steps) && (b < |s.batches| ==> !s.batches[b].interrupted)
    requires forall k :: 0 <= k < |steps| ==> !Interrupts(steps[k], b)
    ensures b < |Run(s, steps).batches| ==> !Run(s, steps).batches[b].interrupted
    decreases |steps|
  {
    if |steps| > 0 {
      assert !Interrupts(steps[0], b);
      InterruptedByStep(Apply(s, steps[0]), steps[1..], b);
    }
  }

  /** A batch whose caller never cancels and whose callback never fails never fails: once it has an outcome, it is a complete response. */
  lemma UninterruptedSucceeds(procs: int, steps: seq<Step>, b: nat)
    requires IsRun(Initial(procs), steps) && b < |Run(Initial(procs), steps).batches|
    requires forall k :: 0 <= k < |steps| ==> !Interrupts(steps[k], b)
    ensures !Run(Initial(procs), steps).batches[b].outcome.Pending? ==> Run(Initial(procs), steps).batches[b].outcome.Success?
    ensures !CanAct(Run(Initial(procs), steps)) ==> Run(Initial(procs), steps).batches[b].outcome.Success?
  {
    AfterRun(procs, steps);
    InterruptedByStep(Initial(procs), steps, b);
    assert BatchInv(Run(Initial(procs), steps).batches[b]);
    if !CanAct(Run(Initial(procs), steps)) {
      QuietMeansDone(procs, steps);
    }
  }

  // ---------------------------------------------------------------- the budgets themselves

  /** The budgets by number of processors: steps of 16, 12 and 6 per processor between fixed bounds. */
  lemma BudgetTable(procs: int)
    ensures procs <= 4 ==> GlobalBudget(procs) == 64 && TypeBudget(TCP, procs) == 48 && TypeBudget(HTTP, procs) == 48
                           && TypeBudget(UDP, procs) == 24
    ensures 4 <= procs <= 16 ==> GlobalBudget(procs) == 16 * procs && TypeBudget(UDP, procs) == 6 * procs
    ensures procs >= 16 ==> GlobalBudget(procs) == 256 && TypeBudget(UDP, procs) == 96
    ensures 4 <= procs <= 10 ==> TypeBudget(TCP, procs) == 12 * procs && TypeBudget(HTTP, procs) == 12 * procs
    ensures procs >= 11 ==> TypeBudget(TCP, procs) == 128 && TypeBudget(HTTP, procs) == 128
    ensures TypeBudget(Other, procs) == GlobalBudget(procs)
  {
  }

  /** A batch starts as many workers as asked for, within its budget and its number of names; the budget by default. */
  lemma WorkersStarted(total: nat, requested: int, kind: TestType, procs: int)
    ensures total == 0 ==> Concurrency(total, requested, kind, procs) == 1
    ensures total > 0 && requested <= 0 ==>
              Concurrency(total, requested, kind, procs) == if total <= TypeBudget(kind, procs) then total else TypeBudget(kind, procs)
    ensures total > 0 && requested >= 1 ==>
              var workers := Concurrency(total, requested, kind, procs);
              && workers <= requested && workers <= TypeBudget(kind, procs) && workers <= total
              && (workers == requested || workers == TypeBudget(kind, procs) || workers == total)
  {
  }
}
