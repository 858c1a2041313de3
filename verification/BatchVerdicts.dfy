/**
  What the response says about the tests: each item and each counter carries the verdict
  that the test itself returned, over every run.
 */
module BatchVerdicts {
  import opened Options
  import opened BatchModel
  import opened BatchInvariant
  import opened BatchSystem
  import opened BatchTheorems

  // ---------------------------------------------------------------- what the tests returned

  /** The tests of batch b that returned during a run, in order: the index the worker was running, and the verdict. */
  function Returned(s: System, steps: seq<Step>, b: nat): seq<(nat, bool)>
    requires IsRun(s, steps)
    decreases |steps|
  {
    if |steps| == 0 then []
    else ReturnedNow(s, steps[0], b) + Returned(Apply(s, steps[0]), steps[1..], b)
  }

  function ReturnedNow(s: System, step: Step, b: nat): seq<(nat, bool)>
    requires Enabled(s, step)
  {
    if step.Local? && step.b == b && step.act.Finish? then [(s.batches[b].workers[step.act.w].job.index, step.act.ok)] else []
  }

  /** How many of the steps are tests of batch b that returned with the verdict. */
  function FinishSteps(steps: seq<Step>, b: nat, ok: bool): nat {
    if |steps| == 0 then 0
    else
      (if steps[0].Local? && steps[0].b == b && steps[0].act.Finish? && steps[0].act.ok == ok then 1 else 0)
      + FinishSteps(steps[1..], b, ok)
  }

  function WithVerdict(tests: seq<(nat, bool)>, ok: bool): nat {
    if |tests| == 0 then 0 else WithVerdict(tests[..|tests| - 1], ok) + if tests[|tests| - 1].1 == ok then 1 else 0
  }

  lemma {:induction false} WithVerdictJoin(a: seq<(nat, bool)>, c: seq<(nat, bool)>, ok: bool)
    ensures WithVerdict(a + c, ok) == WithVerdict(a, ok) + WithVerdict(c, ok)
  {
    if |c| == 0 {
      assert a + c == a;
    } else {
      assert (a + c)[..|a + c| - 1] == a + c[..|c| - 1];
      WithVerdictJoin(a, c[..|c| - 1], ok);
    }
  }

  lemma OneMoreVerdict(tests: seq<(nat, bool)>, t: (nat, bool), ok: bool)
    ensures WithVerdict(tests + [t], ok) == WithVerdict(tests, ok) + if t.1 == ok then 1 else 0
  {
    assert (tests + [t])[..|tests|] == tests;
  }

  lemma {:induction false} ReturnedCounts(s: System, steps: seq<Step>, b: nat, ok: bool)
    requires IsRun(s, steps)
    ensures WithVerdict(Returned(s, steps, b), ok) == FinishSteps(steps, b, ok)
    decreases |steps|
  {
    if |steps| > 0 {
      ReturnedCounts(Apply(s, steps[0]), steps[1..], b, ok);
      WithVerdictJoin(ReturnedNow(s, steps[0], b), Returned(Apply(s, steps[0]), steps[1..], b), ok);
      var now := ReturnedNow(s, steps[0], b);
      if |now| > 0 {
        assert now[..0] == [];
      }
    }
  }

  // ---------------------------------------------------------------- where the verdicts are

  /** A finished test's result, while its worker still has it. */
  function ResultOf(phase: Phase): Option<Result> {
    match phase
    case Finished(r) => Some(r)
    case TypeReleased(r) => Some(r)
    case Sending(r) => Some(r)
    case _ => None
  }

  function HeldOne(phase: Phase, ok: bool): nat {
    if ResultOf(phase).Some? && ResultOf(phase).value.item.success == ok then 1 else 0
  }

  /** A job that has not been tested to the end. */
  function JobOne(phase: Phase): nat {
    if phase.WaitGlobal? || phase.WaitType? || phase.Running? then 1 else 0
  }

  function Held(workers: seq<Phase>, ok: bool): nat {
    if |workers| == 0 then 0 else HeldOne(workers[0], ok) + Held(workers[1..], ok)
  }

  function Jobs(workers: seq<Phase>): nat {
    if |workers| == 0 then 0 else JobOne(workers[0]) + Jobs(workers[1..])
  }

  function Buffering(results: seq<Result>, ok: bool): nat {
    if |results| == 0 then 0 else (if results[0].item.success == ok then 1 else 0) + Buffering(results[1..], ok)
  }

  lemma {:induction false} HeldMove(workers: seq<Phase>, w: nat, phase: Phase, ok: bool)
    requires w < |workers|
    ensures Held(workers[w := phase], ok) == Held(workers, ok) - HeldOne(workers[w], ok) + HeldOne(phase, ok)
    ensures Jobs(workers[w := phase]) == Jobs(workers) - JobOne(workers[w]) + JobOne(phase)
  {
    var moved := workers[w := phase];
    if w == 0 {
      assert moved[1..] == workers[1..];
    } else {
      assert moved[1..] == workers[1..][w - 1 := phase];
      HeldMove(workers[1..], w - 1, phase, ok);
    }
  }

  lemma {:induction false} BufferingJoin(results: seq<Result>, r: Result, ok: bool)
    ensures Buffering(results + [r], ok) == Buffering(results, ok) + if r.item.success == ok then 1 else 0
  {
    if |results| > 0 {
      assert (results + [r])[1..] == results[1..] + [r];
      BufferingJoin(results[1..], r, ok);
    }
  }

  lemma {:induction false} NothingHeld(workers: seq<Phase>, ok: bool)
    requires forall w :: 0 <= w < |workers| ==> workers[w].Idle?
    ensures Held(workers, ok) == 0 && Jobs(workers) == 0
  {
    if |workers| > 0 {
      NothingHeld(workers[1..], ok);
    }
  }

  /** Somewhere between its worker and the response there is a result for the index with the verdict, unless it was dropped. */
  ghost predicate StillThere(batch: Batch, i: nat, ok: bool) {
    || (exists w :: 0 <= w < |batch.workers| && Carried(batch.workers[w], i, ok))
    || (exists k :: 0 <= k < |batch.results| && batch.results[k].index == i && batch.results[k].item.success == ok)
    || (i < |batch.items| && batch.items[i].Some? && batch.items[i].value.success == ok)
    || i in batch.dropped
  }

  predicate Carried(phase: Phase, i: nat, ok: bool) {
    ResultOf(phase).Some? && ResultOf(phase).value.index == i && ResultOf(phase).value.item.success == ok
  }

  /** Every verdict under way or recorded is one that a test returned for that index, and none is lost or counted twice. */
  ghost predicate Explained(batch: Batch, tests: seq<(nat, bool)>) {
    && (forall w :: 0 <= w < |batch.workers| && ResultOf(batch.workers[w]).Some? ==> Backed(ResultOf(batch.workers[w]).value, tests))
    && (forall k :: 0 <= k < |batch.results| ==> Backed(batch.results[k], tests))
    && (forall i :: 0 <= i < |batch.items| && batch.items[i].Some? ==> (i, batch.items[i].value.success) in tests)
    && (forall t :: t in tests ==> StillThere(batch, t.0, t.1))
    && (forall ok :: Balance(batch, tests, ok))
    && |tests| + Jobs(batch.workers) <= batch.next
    && (batch.outcome.Success? ==> batch.outcome.response.items == batch.items)
  }

  predicate Backed(r: Result, tests: seq<(nat, bool)>) {
    (r.index, r.item.success) in tests
  }

  ghost predicate Balance(batch: Batch, tests: seq<(nat, bool)>, ok: bool) {
    Held(batch.workers, ok) + Buffering(batch.results, ok) + CountItems(batch.items, ok) <= WithVerdict(tests, ok)
  }

  // ---------------------------------------------------------------- every step keeps that

  lemma NewExplained(names: seq<string>, requested: int, kind: TestType, hasCallback: bool, procs: int)
    ensures Explained(NewBatch(names, requested, kind, hasCallback, procs), [])
  {
    var batch := NewBatch(names, requested, kind, hasCallback, procs);
    forall ok
      ensures Balance(batch, [], ok)
    {
      NothingHeld(batch.workers, ok);
      CountNone(batch.items, ok);
    }
    NothingHeld(batch.workers, true);
  }

  /** The acting worker's move, for acts that neither end a test nor send nor drop anything. */
  lemma CarryMove(batch: Batch, w: nat, phase: Phase, next: nat, tests: seq<(nat, bool)>)
    requires Explained(batch, tests) && w < |batch.workers|
    requires ResultOf(phase) == ResultOf(batch.workers[w])
    requires next - batch.next >= JobOne(phase) - JobOne(batch.workers[w]) && next >= batch.next
    ensures Explained(batch.(workers := batch.workers[w := phase], next := next), tests)
  {
    var after := batch.(workers := batch.workers[w := phase], next := next);
    forall ok
      ensures Balance(after, tests, ok)
    {
      assert Balance(batch, tests, ok);
      HeldMove(batch.workers, w, phase, ok);
    }
    HeldMove(batch.workers, w, phase, true);
    forall t | t in tests
      ensures StillThere(after, t.0, t.1)
    {
      ThereByMove(batch, after, w, t.0, t.1);
    }
  }

  lemma ThereByMove(batch: Batch, after: Batch, w: nat, i: nat, ok: bool)
    requires StillThere(batch, i, ok) && w < |batch.workers| && |after.workers| == |batch.workers|
    requires forall v :: 0 <= v < |batch.workers| && v != w ==> after.workers[v] == batch.workers[v]
    requires ResultOf(after.workers[w]) == ResultOf(batch.workers[w])
    requires after.results == batch.results && after.items == batch.items && after.dropped == batch.dropped
    ensures StillThere(after, i, ok)
  {
    if v :| 0 <= v < |batch.workers| && Carried(batch.workers[v], i, ok) {
      assert Carried(after.workers[v], i, ok);
    }
  }

  /** A test returns. */
  lemma FinishMove(batch: Batch, w: nat, ok: bool, tests: seq<(nat, bool)>)
    requires Explained(batch, tests) && w < |batch.workers| && batch.workers[w].Running?
    ensures var job := batch.workers[w].job;
      Explained(batch.(workers := batch.workers[w := Finished(Result(job.index, Item(job.name, ok)))]), tests + [(job.index, ok)])
  {
    var job := batch.workers[w].job;
    var phase := Finished(Result(job.index, Item(job.name, ok)));
    var after, longer := batch.(workers := batch.workers[w := phase]), tests + [(job.index, ok)];
    hide Held, Jobs, Buffering, CountItems, WithVerdict;
    forall any
      ensures Balance(after, longer, any)
    {
      assert Balance(batch, tests, any);
      OneMoreVerdict(tests, (job.index, ok), any);
      HeldMove(batch.workers, w, phase, any);
    }
    HeldMove(batch.workers, w, phase, ok);
    forall t | t in longer
      ensures StillThere(after, t.0, t.1)
    {
      FinishKeeps(batch, after, w, tests, t);
    }
    hide ResultOf, StillThere;
    forall r | Backed(r, tests)
      ensures Backed(r, longer)
    {
    }
    assert ResultOf(phase) == Some(Result(job.index, Item(job.name, ok))) by { IsResult(job, ok); }
    assert Backed(ResultOf(phase).value, longer);
  }

  lemma IsResult(job: Job, ok: bool)
    ensures ResultOf(Finished(Result(job.index, Item(job.name, ok)))) == Some(Result(job.index, Item(job.name, ok)))
  {
  }

  lemma FinishKeeps(batch: Batch, after: Batch, w: nat, tests: seq<(nat, bool)>, t: (nat, bool))
    requires (forall u :: u in tests ==> StillThere(batch, u.0, u.1)) && w < |batch.workers| && batch.workers[w].Running?
    requires |after.workers| == |batch.workers| && forall v :: 0 <= v < |batch.workers| && v != w ==> after.workers[v] == batch.workers[v]
    requires after.results == batch.results && after.items == batch.items && after.dropped == batch.dropped
    requires t in tests || Carried(after.workers[w], t.0, t.1)
    ensures StillThere(after, t.0, t.1)
  {
    if t in tests {
      if v :| 0 <= v < |batch.workers| && Carried(batch.workers[v], t.0, t.1) {
        assert Carried(after.workers[v], t.0, t.1);
      }
    }
  }

  /** A worker gives up, and whatever it carried is dropped. */
  lemma DropMove(batch: Batch, w: nat, phase: Phase, tests: seq<(nat, bool)>)
    requires Explained(batch, tests) && w < |batch.workers| && ResultOf(phase) == None && JobOne(phase) == 0
    ensures Explained(batch.(workers := batch.workers[w := phase], dropped := batch.dropped + batch.workers[w].Carries()), tests)
  {
    var after := batch.(workers := batch.workers[w := phase], dropped := batch.dropped + batch.workers[w].Carries());
    forall ok
      ensures Balance(after, tests, ok)
    {
      assert Balance(batch, tests, ok);
      HeldMove(batch.workers, w, phase, ok);
    }
    HeldMove(batch.workers, w, phase, true);
    forall t | t in tests
      ensures StillThere(after, t.0, t.1)
    {
      if v :| 0 <= v < |batch.workers| && Carried(batch.workers[v], t.0, t.1) {
        if v == w {
          assert t.0 in batch.workers[w].Carries();
        } else {
          assert Carried(after.workers[v], t.0, t.1);
        }
      }
    }
  }

  /** A result goes from its worker into the channel. */
  lemma SendMove(batch: Batch, w: nat, tests: seq<(nat, bool)>)
    requires Explained(batch, tests) && w < |batch.workers| && batch.workers[w].Sending?
    ensures Explained(batch.(workers := batch.workers[w := Idle], results := batch.results + [batch.workers[w].result]), tests)
  {
    var r := batch.workers[w].result;
    var after := batch.(workers := batch.workers[w := Idle], results := batch.results + [r]);
    hide Held, Jobs, Buffering, CountItems, WithVerdict;
    forall ok
      ensures Balance(after, tests, ok)
    {
      assert Balance(batch, tests, ok);
      HeldMove(batch.workers, w, Idle, ok);
      BufferingJoin(batch.results, r, ok);
    }
    HeldMove(batch.workers, w, Idle, true);
    assert Backed(r, tests);
    forall t | t in tests
      ensures StillThere(after, t.0, t.1)
    {
      if v :| 0 <= v < |batch.workers| && Carried(batch.workers[v], t.0, t.1) {
        if v == w {
          assert after.results[|batch.results|] == r;
        } else {
          assert Carried(after.workers[v], t.0, t.1);
        }
      } else if k :| 0 <= k < |batch.results| && batch.results[k].index == t.0 && batch.results[k].item.success == t.1 {
        assert after.results[k] == batch.results[k];
      }
    }
  }

  /** The collector records a result in a slot that was free. */
  lemma CollectMove(batch: Batch, callbackFails: bool, tests: seq<(nat, bool)>)
    requires Explained(batch, tests) && |batch.results| > 0 && batch.outcome.Pending?
    requires batch.results[0].index < |batch.items| && batch.items[batch.results[0].index].None?
    ensures Explained(CollectOne(batch, callbackFails), tests)
  {
    var r, after := batch.results[0], CollectOne(batch, callbackFails);
    forall ok
      ensures Balance(after, tests, ok)
    {
      assert Balance(batch, tests, ok);
      CountRecord(batch.items, r.index, r.item, ok);
    }
    assert Backed(r, tests);
    forall k | 0 <= k < |after.results|
      ensures Backed(after.results[k], tests)
    {
      assert after.results[k] == batch.results[k + 1];
    }
    forall t | t in tests
      ensures StillThere(after, t.0, t.1)
    {
      if v :| 0 <= v < |batch.workers| && Carried(batch.workers[v], t.0, t.1) {
        assert Carried(after.workers[v], t.0, t.1);
      } else if k :| 0 <= k < |batch.results| && batch.results[k].index == t.0 && batch.results[k].item.success == t.1 {
        if k > 0 {
          assert after.results[k - 1] == batch.results[k];
        }
      }
    }
  }

  /** Whatever changes neither workers, results, items nor drops. */
  lemma SameVerdicts(batch: Batch, after: Batch, tests: seq<(nat, bool)>)
    requires Explained(batch, tests)
    requires after.workers == batch.workers && after.results == batch.results && after.items == batch.items
    requires after.dropped == batch.dropped && after.next == batch.next
    requires after.outcome.Success? ==> after.outcome.response.items == after.items
    ensures Explained(after, tests)
  {
    forall ok
      ensures Balance(after, tests, ok)
    {
      assert Balance(batch, tests, ok);
    }
    forall t | t in tests
      ensures StillThere(after, t.0, t.1)
    {
      assert StillThere(batch, t.0, t.1);
    }
  }

  function ReturnedBy(batch: Batch, act: Act): seq<(nat, bool)>
    requires act.Finish? ==> act.w < |batch.workers| && batch.workers[act.w].Running?
  {
    if act.Finish? then [(batch.workers[act.w].job.index, act.ok)] else []
  }

  lemma MoverExplained(batch: Batch, act: Act, l: Limiters, procs: int, tests: seq<(nat, bool)>)
    requires ActEnabled(batch, act, l, procs) && Explained(batch, tests)
    requires HasWorker(act) && !act.Produce? && !act.SeesDone? && !act.Send?
    ensures Explained(ActBatch(batch, act, l, procs), tests + ReturnedBy(batch, act))
  {
    MoverMoves(batch, act, l, procs);
    hide Explained;
    var phase := NextPhase(batch.workers[act.w], act);
    if act.Finish? {
      FinishMove(batch, act.w, act.ok, tests);
    } else {
      CarryMove(batch, act.w, phase, batch.next, tests);
      assert tests + [] == tests;
    }
  }

  lemma ActExplained(batch: Batch, act: Act, l: Limiters, procs: int, tests: seq<(nat, bool)>)
    requires BatchInv(batch) && ActEnabled(batch, act, l, procs) && Explained(batch, tests)
    ensures Explained(ActBatch(batch, act, l, procs), tests + ReturnedBy(batch, act))
  {
    hide BatchInv, Explained;
    assert tests + [] == tests;
    match act
    case Produce(w) => CarryMove(batch, w, WaitGlobal(Job(batch.next, batch.names[batch.next])), batch.next + 1, tests);
    case SeesDone(w) => DropMove(batch, w, if batch.workers[w].WaitType? then Aborting else Exited, tests);
    case Send(w) => SendMove(batch, w, tests);
    case Collect(callbackFails) =>
      CollectIsFresh(batch);
      CollectMove(batch, callbackFails, tests);
    case Return => QuietExplained(batch, act, l, procs, tests);
    case Cancel => QuietExplained(batch, act, l, procs, tests);
    case ProducerStops => QuietExplained(batch, act, l, procs, tests);
    case ProducerCloses => QuietExplained(batch, act, l, procs, tests);
    case CloseResults => QuietExplained(batch, act, l, procs, tests);
    case _ => MoverExplained(batch, act, l, procs, tests);
  }

  lemma QuietExplained(batch: Batch, act: Act, l: Limiters, procs: int, tests: seq<(nat, bool)>)
    requires ActEnabled(batch, act, l, procs) && Explained(batch, tests)
    requires act.Return? || act.Cancel? || act.ProducerStops? || act.ProducerCloses? || act.CloseResults?
    ensures Explained(ActBatch(batch, act, l, procs), tests)
  {
    SameVerdicts(batch, ActBatch(batch, act, l, procs), tests);
  }

  lemma StepExplained(s: System, step: Step, b: nat, tests: seq<(nat, bool)>)
    requires SystemInv(s) && Enabled(s, step)
    requires if b < |s.batches| then Explained(s.batches[b], tests) else tests == []
    ensures var after := Apply(s, step);
      if b < |after.batches| then Explained(after.batches[b], tests + ReturnedNow(s, step, b))
      else tests + ReturnedNow(s, step, b) == []
  {
    hide Explained, BatchInv;
    assert tests + [] == tests;
    match step
    case Start(names, requested, kind, hasCallback) =>
      NewExplained(names, requested, kind, hasCallback, s.procs);
    case Local(c, act) =>
      if b == c {
        ActExplained(s.batches[b], act, s.limiters, s.procs, tests);
      }
  }

  lemma {:induction false} RunExplained(s: System, steps: seq<Step>, b: nat, tests: seq<(nat, bool)>)
    requires SystemInv(s) && IsRun(s, steps)
    requires if b < |s.batches| then Explained(s.batches[b], tests) else tests == []
    ensures b < |Run(s, steps).batches| ==> Explained(Run(s, steps).batches[b], tests + Returned(s, steps, b))
    decreases |steps|
  {
    hide Explained, SystemInv;
    if |steps| == 0 {
      assert tests + [] == tests;
    } else {
      var now, next := ReturnedNow(s, steps[0], b), Apply(s, steps[0]);
      StepExplained(s, steps[0], b, tests);
      StepInv(s, steps[0]);
      RunExplained(next, steps[1..], b, tests + now);
      assert (tests + now) + Returned(next, steps[1..], b) == tests + (now + Returned(next, steps[1..], b));
    }
  }

  // ---------------------------------------------------------------- results

  lemma {:induction false} VerdictsAdd(tests: seq<(nat, bool)>)
    ensures WithVerdict(tests, true) + WithVerdict(tests, false) == |tests|
  {
    if |tests| > 0 {
      VerdictsAdd(tests[..|tests| - 1]);
    }
  }

  /** At the end of a complete batch everything is recorded: nothing is under way and nothing was dropped. */
  lemma CompleteIsAll(batch: Batch)
    requires BatchInv(batch) && batch.outcome.Success?
    ensures InFlight(batch.workers) == multiset{} && batch.results == [] && batch.dropped == multiset{}
    ensures batch.next == |batch.names|
  {
    UpToOnce(batch.next, 0);
    UpToOnce(|batch.names|, 0);
    AllRecorded(InFlight(batch.workers), Buffered(batch.results), batch.recorded, batch.dropped, UpTo(batch.next), |batch.names|);
  }

  lemma AllRecorded(flying: multiset<nat>, buffered: multiset<nat>, recorded: multiset<nat>, dropped: multiset<nat>, all: multiset<nat>, n: nat)
    requires flying + buffered + recorded + dropped == all && |recorded| == n && |all| <= n
    ensures flying == multiset{} && dropped == multiset{} && |all| == n
  {
    assert |all| == |flying| + |buffered| + |recorded| + |dropped|;
  }

  lemma {:induction false} CarriedFlies(workers: seq<Phase>, w: nat)
    requires w < |workers| && ResultOf(workers[w]).Some?
    ensures InFlight(workers) != multiset{}
  {
    if w == 0 {
      assert ResultOf(workers[0]).value.index in workers[0].Carries();
    } else {
      CarriedFlies(workers[1..], w - 1);
    }
  }

  lemma CompleteVerdicts(batch: Batch, tests: seq<(nat, bool)>)
    requires BatchInv(batch) && batch.outcome.Success? && Explained(batch, tests)
    ensures var response := batch.outcome.response;
      && response.success == WithVerdict(tests, true) && response.failed == WithVerdict(tests, false)
      && forall i :: 0 <= i < |batch.names| ==>
           && (i, response.items[i].value.success) in tests
           && forall ok :: (i, ok) in tests ==> ok == response.items[i].value.success
  {
    CompleteIsAll(batch);
    VerdictsAdd(tests);
    CountFull(batch.items);
    assert Balance(batch, tests, true) && Balance(batch, tests, false);
    forall i, ok | 0 <= i < |batch.names| && (i, ok) in tests
      ensures ok == batch.items[i].value.success
    {
      assert StillThere(batch, (i, ok).0, (i, ok).1);
      if w :| 0 <= w < |batch.workers| && Carried(batch.workers[w], i, ok) {
        CarriedFlies(batch.workers, w);
      }
    }
  }

  /**
    A batch that returns without an error counts exactly the tests that succeeded and those that failed, and
    every item carries the verdict of the test that was run for its index; that test is the only one.
   */
  lemma VerdictsAreReported(procs: int, steps: seq<Step>, b: nat)
    requires IsRun(Initial(procs), steps) && b < |Run(Initial(procs), steps).batches|
    requires Run(Initial(procs), steps).batches[b].outcome.Success?
    ensures var batch, tests := Run(Initial(procs), steps).batches[b], Returned(Initial(procs), steps, b);
      var response := batch.outcome.response;
      && |response.items| == |batch.names| && (forall i :: 0 <= i < |batch.names| ==> response.items[i].Some?)
      && response.success == FinishSteps(steps, b, true)
      && response.failed == FinishSteps(steps, b, false)
      && forall i :: 0 <= i < |batch.names| ==>
           && (i, response.items[i].value.success) in tests
           && forall ok :: (i, ok) in tests ==> ok == response.items[i].value.success
  {
    var tests := Returned(Initial(procs), steps, b);
    AfterRun(procs, []);
    AfterRun(procs, steps);
    RunExplained(Initial(procs), steps, b, []);
    assert [] + tests == tests;
    ReturnedCounts(Initial(procs), steps, b, true);
    ReturnedCounts(Initial(procs), steps, b, false);
    SuccessIsComplete(procs, steps, b);
    hide Explained, BatchInv, IsRun, Run, Returned;
    CompleteVerdicts(Run(Initial(procs), steps).batches[b], tests);
  }

  // ---------------------------------------------------------------- success or failure

  predicate CallbackFails(steps: seq<Step>, b: nat) {
    exists k :: 0 <= k < |steps| && steps[k] == Local(b, Collect(true))
  }

  /** The verdict so far, given whether the callback has failed. */
  predicate Judged(batch: Batch, failed: bool) {
    && (failed ==> batch.outcome.Failure?)
    && (batch.outcome.Failure? && !failed ==> batch.current < |batch.names|)
  }

  lemma ActJudged(batch: Batch, act: Act, l: Limiters, procs: int, failed: bool)
    requires ActEnabled(batch, act, l, procs) && Judged(batch, failed)
    ensures Judged(ActBatch(batch, act, l, procs), failed || act == Collect(true))
  {
    if HasWorker(act) && !act.Produce? && !act.SeesDone? && !act.Send? {
      MoverMoves(batch, act, l, procs);
      hide ActBatch, ActEnabled, NextPhase;
    }
  }

  lemma {:induction false} RunJudged(s: System, steps: seq<Step>, b: nat, failed: bool)
    requires IsRun(s, steps) && (if b < |s.batches| then Judged(s.batches[b], failed) else !failed)
    ensures b < |Run(s, steps).batches| ==> Judged(Run(s, steps).batches[b], failed || CallbackFails(steps, b))
    decreases |steps|
  {
    if |steps| > 0 {
      var step, rest := steps[0], steps[1..];
      var now := failed || step == Local(b, Collect(true));
      if step.Local? && step.b == b {
        ActJudged(s.batches[b], step.act, s.limiters, s.procs, failed);
      }
      RunJudged(Apply(s, step), rest, b, now);
      FailsLater(steps, b);
    }
  }

  lemma FailsLater(steps: seq<Step>, b: nat)
    requires |steps| > 0
    ensures CallbackFails(steps, b) <==> steps[0] == Local(b, Collect(true)) || CallbackFails(steps[1..], b)
  {
    if CallbackFails(steps[1..], b) {
      var k :| 0 <= k < |steps[1..]| && steps[1..][k] == Local(b, Collect(true));
      assert steps[k + 1] == Local(b, Collect(true));
    }
    if k :| 0 <= k < |steps| && steps[k] == Local(b, Collect(true)) {
      assert k > 0 ==> steps[1..][k - 1] == steps[k];
    }
  }

  /** A batch that is over succeeded if and only if its callback never failed and every name was recorded, cancelled or not. */
  lemma SucceedsIffAllRecorded(procs: int, steps: seq<Step>, b: nat)
    requires IsRun(Initial(procs), steps) && b < |Run(Initial(procs), steps).batches|
    requires !Run(Initial(procs), steps).batches[b].outcome.Pending?
    ensures var batch := Run(Initial(procs), steps).batches[b];
      batch.outcome.Success? <==> !CallbackFails(steps, b) && |batch.recorded| == |batch.names|
  {
    AfterRun(procs, steps);
    RunJudged(Initial(procs), steps, b, false);
    var batch := Run(Initial(procs), steps).batches[b];
    assert BatchInv(batch);
    hide IsRun, Run, CallbackFails;
    if batch.outcome.Success? {
      UpToOnce(|batch.names|, 0);
    }
  }
}
