/**
  What every step keeps inside one batch: each job index handed out is in exactly one
  place, items carry their own names, and the counters describe the items slice.
 */
module BatchInvariant {
  import opened Options
  import opened BatchModel

  // ---------------------------------------------------------------- where the indices are

  ghost function InFlight(workers: seq<Phase>): multiset<nat> {
    if |workers| == 0 then multiset{} else workers[0].Carries() + InFlight(workers[1..])
  }

  ghost function Buffered(results: seq<Result>): multiset<nat> {
    if |results| == 0 then multiset{} else multiset{results[0].index} + Buffered(results[1..])
  }

  /** One copy of every index below n. */
  ghost function UpTo(n: nat): multiset<nat> {
    if n == 0 then multiset{} else UpTo(n - 1) + multiset{n - 1}
  }

  ghost function CountItems(items: seq<Option<Item>>, ok: bool): nat {
    if |items| == 0 then 0
    else CountItems(items[1..], ok) + if items[0].Some? && items[0].value.success == ok then 1 else 0
  }

  lemma {:induction false} UpToOnce(n: nat, i: nat)
    ensures UpTo(n)[i] == if i < n then 1 else 0
    ensures |UpTo(n)| == n
  {
    if n > 0 {
      UpToOnce(n - 1, i);
    }
  }

  lemma Regroup(a: multiset<nat>, moved: multiset<nat>, out: multiset<nat>, rest: multiset<nat>, into: multiset<nat>)
    requires moved + out == rest + into
    ensures (a + moved) + out == (a + rest) + into
  {
    assert (a + moved) + out == a + (moved + out);
  }

  lemma {:induction false} InFlightMove(workers: seq<Phase>, w: nat, phase: Phase)
    requires w < |workers|
    ensures InFlight(workers[w := phase]) + workers[w].Carries() == InFlight(workers) + phase.Carries()
    ensures workers[w].Carries() <= InFlight(workers)
  {
    var moved := workers[w := phase];
    if w == 0 {
      assert moved[1..] == workers[1..];
    } else {
      var rest := workers[1..];
      assert moved[1..] == rest[w - 1 := phase] && moved[0] == workers[0] && rest[w - 1] == workers[w];
      InFlightMove(rest, w - 1, phase);
      hide Phase.Carries;
      Regroup(workers[0].Carries(), InFlight(moved[1..]), workers[w].Carries(), InFlight(workers[1..]), phase.Carries());
    }
  }

  lemma {:induction false} InFlightIdle(workers: seq<Phase>)
    requires forall w :: 0 <= w < |workers| ==> workers[w].Carries() == multiset{}
    ensures InFlight(workers) == multiset{}
  {
    if |workers| > 0 {
      InFlightIdle(workers[1..]);
    }
  }

  lemma {:induction false} BufferedAppend(results: seq<Result>, r: Result)
    ensures Buffered(results + [r]) == Buffered(results) + multiset{r.index}
  {
    if |results| > 0 {
      assert (results + [r])[1..] == results[1..] + [r];
      BufferedAppend(results[1..], r);
    }
  }

  lemma {:induction false} CountRecord(items: seq<Option<Item>>, i: nat, item: Item, ok: bool)
    requires i < |items| && items[i].None?
    ensures CountItems(items[i := Some(item)], ok) == CountItems(items, ok) + if item.success == ok then 1 else 0
  {
    var written := items[i := Some(item)];
    if i == 0 {
      assert written[1..] == items[1..];
    } else {
      assert written[1..] == items[1..][i - 1 := Some(item)];
      CountRecord(items[1..], i - 1, item, ok);
    }
  }

  lemma {:induction false} CountNone(items: seq<Option<Item>>, ok: bool)
    requires forall i :: 0 <= i < |items| ==> items[i].None?
    ensures CountItems(items, ok) == 0
  {
    if |items| > 0 {
      CountNone(items[1..], ok);
    }
  }

  lemma {:induction false} CountFull(items: seq<Option<Item>>)
    requires forall i :: 0 <= i < |items| ==> items[i].Some?
    ensures CountItems(items, true) + CountItems(items, false) == |items|
  {
    if |items| > 0 {
      CountFull(items[1..]);
    }
  }

  // ---------------------------------------------------------------- the invariant

  /** Every index the producer has handed out is in exactly one place. */
  ghost predicate Conserved(workers: seq<Phase>, results: seq<Result>, recorded: multiset<nat>, dropped: multiset<nat>,
                            next: nat)
  {
    InFlight(workers) + Buffered(results) + recorded + dropped == UpTo(next)
  }

  ghost predicate WorkersNamed(workers: seq<Phase>, names: seq<string>) {
    forall w :: 0 <= w < |workers| ==> workers[w].NamedBy(names)
  }

  ghost predicate ResultNamed(r: Result, names: seq<string>) {
    r.index < |names| && r.item.name == names[r.index]
  }

  ghost predicate ResultsNamed(results: seq<Result>, names: seq<string>) {
    forall k :: 0 <= k < |results| ==> ResultNamed(results[k], names)
  }

  ghost predicate ItemsNamed(items: seq<Option<Item>>, names: seq<string>) {
    && |items| == |names|
    && forall i :: 0 <= i < |items| && items[i].Some? ==> items[i].value.name == names[i]
  }

  ghost predicate ItemsRecorded(items: seq<Option<Item>>, recorded: multiset<nat>) {
    forall i :: 0 <= i < |items| ==> (items[i].Some? <==> i in recorded)
  }

  ghost predicate Counters(items: seq<Option<Item>>, recorded: multiset<nat>, current: nat, success: nat, failed: nat) {
    && success == CountItems(items, true)
    && failed == CountItems(items, false)
    && current == |recorded|
    && success + failed == current
  }

  /** What a caller may rely on when the engine returns without an error. */
  ghost predicate Complete(response: Response, names: seq<string>, recorded: multiset<nat>) {
    && response.total == |names| == |response.items|
    && response.success + response.failed == response.total
    && (forall i :: 0 <= i < |names| ==> response.items[i].Some? && response.items[i].value.name == names[i])
    && response.success == CountItems(response.items, true)
    && response.failed == CountItems(response.items, false)
    && recorded == UpTo(|names|)
  }

  ghost predicate WorkersClosing(workers: seq<Phase>, jobsClosed: bool, cancelled: bool) {
    forall w :: 0 <= w < |workers| ==>
      (workers[w].Exited? ==> jobsClosed || cancelled) && (workers[w].Aborting? ==> cancelled)
  }

  ghost predicate Flags(batch: Batch) {
    && batch.next <= |batch.names|
    && |batch.results| <= |batch.workers|
    && |batch.workers| >= 1
    && (batch.jobsClosed && !batch.cancelled ==> batch.next == |batch.names|)
    && (!batch.cancelled ==> batch.dropped == multiset{})
    && (batch.outcome != Pending ==> batch.cancelled)
    && (batch.cancelled && batch.outcome.Pending? ==> batch.interrupted)
    && (batch.outcome.Failure? ==> batch.interrupted)
    && (batch.outcome.Success? ==>
          |batch.results| == 0 && batch.resultsClosed && Complete(batch.outcome.response, batch.names, batch.recorded))
  }

  ghost predicate BatchInv(batch: Batch) {
    && Conserved(batch.workers, batch.results, batch.recorded, batch.dropped, batch.next)
    && WorkersNamed(batch.workers, batch.names)
    && ResultsNamed(batch.results, batch.names)
    && ItemsNamed(batch.items, batch.names)
    && ItemsRecorded(batch.items, batch.recorded)
    && Counters(batch.items, batch.recorded, batch.current, batch.success, batch.failed)
    && WorkersClosing(batch.workers, batch.jobsClosed, batch.cancelled)
    && (batch.resultsClosed ==> AllExited(batch.workers))
    && Flags(batch)
  }

  // ---------------------------------------------------------------- preservation

  lemma NewBatchInv(names: seq<string>, requested: int, kind: TestType, hasCallback: bool, procs: int)
    ensures BatchInv(NewBatch(names, requested, kind, hasCallback, procs))
  {
    var batch := NewBatch(names, requested, kind, hasCallback, procs);
    InFlightIdle(batch.workers);
    CountNone(batch.items, true);
    CountNone(batch.items, false);
  }

  lemma WorkersMove(batch: Batch, w: nat, phase: Phase)
    requires BatchInv(batch) && w < |batch.workers| && phase.NamedBy(batch.names)
    requires phase.Exited? ==> batch.jobsClosed || batch.cancelled
    requires phase.Aborting? ==> batch.cancelled
    ensures WorkersNamed(batch.workers[w := phase], batch.names)
    ensures WorkersClosing(batch.workers[w := phase], batch.jobsClosed, batch.cancelled)
  {
  }

  /** A worker moves on without changing which index it carries. */
  lemma MoveInv(batch: Batch, w: nat, phase: Phase)
    requires BatchInv(batch) && w < |batch.workers|
    requires phase.Carries() == batch.workers[w].Carries() && phase.NamedBy(batch.names)
    requires phase.Exited? ==> batch.jobsClosed || batch.cancelled
    requires !phase.Aborting? && !batch.workers[w].Exited?
    ensures BatchInv(Move(batch, w, phase))
  {
    InFlightMove(batch.workers, w, phase);
    CancelRight(InFlight(batch.workers[w := phase]), InFlight(batch.workers), phase.Carries());
    WorkersMove(batch, w, phase);
  }

  lemma CancelRight(a: multiset<nat>, b: multiset<nat>, c: multiset<nat>)
    requires a + c == b + c
    ensures a == b
  {
    assert (a + c) - c == a && (b + c) - c == b;
  }

  lemma AddOne(moved: multiset<nat>, flying: multiset<nat>, buffered: multiset<nat>, recorded: multiset<nat>,
               dropped: multiset<nat>, upTo: multiset<nat>, i: nat)
    requires moved + multiset{} == flying + multiset{i}
    requires flying + buffered + recorded + dropped == upTo
    ensures moved + buffered + recorded + dropped == upTo + multiset{i}
  {
    assert moved == flying + multiset{i};
  }

  lemma ProduceConserves(batch: Batch, w: nat, phase: Phase)
    requires BatchInv(batch) && w < |batch.workers| && batch.workers[w].Idle? && phase.Carries() == multiset{batch.next}
    ensures Conserved(batch.workers[w := phase], batch.results, batch.recorded, batch.dropped, batch.next + 1)
  {
    hide WorkersNamed, ResultsNamed, ItemsNamed, ItemsRecorded, Counters, WorkersClosing, Flags;
    InFlightMove(batch.workers, w, phase);
    AddOne(InFlight(batch.workers[w := phase]), InFlight(batch.workers), Buffered(batch.results), batch.recorded, batch.dropped,
           UpTo(batch.next), batch.next);
  }

  lemma ProduceInv(batch: Batch, w: nat)
    requires BatchInv(batch) && w < |batch.workers| && batch.workers[w].Idle?
    requires !batch.jobsClosed && batch.next < |batch.names|
    ensures BatchInv(Move(batch, w, WaitGlobal(Job(batch.next, batch.names[batch.next]))).(next := batch.next + 1))
  {
    hide Conserved, Counters, ResultsNamed, ItemsNamed, ItemsRecorded, WorkersNamed, WorkersClosing;
    var phase := WaitGlobal(Job(batch.next, batch.names[batch.next]));
    WorkersMove(batch, w, phase);
    ProduceConserves(batch, w, phase);
  }

  lemma DropInv(batch: Batch, w: nat, phase: Phase)
    requires BatchInv(batch) && w < |batch.workers| && batch.cancelled && !batch.workers[w].Exited?
    requires phase == Aborting || phase == Exited
    ensures BatchInv(Move(batch, w, phase).(dropped := batch.dropped + batch.workers[w].Carries()))
  {
    InFlightMove(batch.workers, w, phase);
    WorkersMove(batch, w, phase);
    var workers := batch.workers[w := phase];
    assert InFlight(workers) + batch.workers[w].Carries() == InFlight(batch.workers);
  }

  lemma SendInv(batch: Batch, w: nat)
    requires BatchInv(batch) && w < |batch.workers| && batch.workers[w].Sending?
    requires |batch.results| < |batch.workers|
    ensures BatchInv(Move(batch, w, Idle).(results := batch.results + [batch.workers[w].result]))
  {
    var r := batch.workers[w].result;
    SentConserves(batch, w);
    hide Conserved, Counters, ItemsNamed, ItemsRecorded;
    WorkersMove(batch, w, Idle);
    assert ResultNamed(r, batch.names);
    assert ResultsNamed(batch.results + [r], batch.names);
    hide WorkersNamed, WorkersClosing, ResultsNamed, ResultNamed;
  }

  lemma SentConserves(batch: Batch, w: nat)
    requires Conserved(batch.workers, batch.results, batch.recorded, batch.dropped, batch.next)
    requires w < |batch.workers| && batch.workers[w].Sending?
    ensures Conserved(batch.workers[w := Idle], batch.results + [batch.workers[w].result], batch.recorded, batch.dropped, batch.next)
  {
    var r := batch.workers[w].result;
    InFlightMove(batch.workers, w, Idle);
    BufferedAppend(batch.results, r);
    SendConserves(InFlight(batch.workers[w := Idle]), InFlight(batch.workers), Buffered(batch.results), r.index);
  }

  lemma SendConserves(moved: multiset<nat>, flying: multiset<nat>, buffered: multiset<nat>, i: nat)
    requires moved + multiset{i} == flying + multiset{}
    ensures moved + (buffered + multiset{i}) == flying + buffered
  {
    assert moved + (buffered + multiset{i}) == (moved + multiset{i}) + buffered;
  }

  /** The collector never overwrites an entry: the index it takes was not recorded before. */
  lemma CollectIsFresh(batch: Batch)
    requires BatchInv(batch) && |batch.results| > 0
    ensures batch.results[0].index < |batch.items|
    ensures batch.recorded[batch.results[0].index] == 0
    ensures batch.items[batch.results[0].index].None?
  {
    assert ResultNamed(batch.results[0], batch.names);
    var i := batch.results[0].index;
    UpToOnce(batch.next, i);
    assert Buffered(batch.results)[i] >= 1;
    assert (InFlight(batch.workers) + Buffered(batch.results) + batch.recorded + batch.dropped)[i] <= 1;
  }

  lemma CollectInv(batch: Batch, callbackFails: bool)
    requires BatchInv(batch) && |batch.results| > 0 && batch.results[0].index < |batch.items|
    requires batch.outcome.Pending?
    ensures BatchInv(CollectOne(batch, callbackFails))
  {
    CollectIsFresh(batch);
    var r, rest := batch.results[0], batch.results[1..];
    assert ResultNamed(r, batch.names);
    CollectCounts(batch.items, batch.recorded, r, batch.current, batch.success, batch.failed);
    CollectConserves(batch.workers, batch.results, batch.recorded, batch.dropped, batch.next);
    assert ResultsNamed(rest, batch.names);
    CollectItems(batch.items, batch.recorded, r, batch.names);
    hide Conserved, Counters, ResultsNamed, ItemsNamed, ItemsRecorded, WorkersNamed, WorkersClosing;
  }

  lemma CollectCounts(items: seq<Option<Item>>, recorded: multiset<nat>, r: Result, current: nat, success: nat, failed: nat)
    requires Counters(items, recorded, current, success, failed) && r.index < |items| && items[r.index].None?
    ensures Counters(items[r.index := Some(r.item)], recorded + multiset{r.index}, current + 1,
                     if r.item.success then success + 1 else success, if r.item.success then failed else failed + 1)
  {
    CountRecord(items, r.index, r.item, true);
    CountRecord(items, r.index, r.item, false);
  }

  lemma CollectConserves(workers: seq<Phase>, results: seq<Result>, recorded: multiset<nat>, dropped: multiset<nat>, next: nat)
    requires Conserved(workers, results, recorded, dropped, next) && |results| > 0
    ensures Conserved(workers, results[1..], recorded + multiset{results[0].index}, dropped, next)
  {
    var flying, rest, one := InFlight(workers), Buffered(results[1..]), multiset{results[0].index};
    assert Buffered(results) == one + rest;
    assert flying + (one + rest) + recorded + dropped == flying + rest + (recorded + one) + dropped;
  }

  lemma CollectItems(items: seq<Option<Item>>, recorded: multiset<nat>, r: Result, names: seq<string>)
    requires ItemsNamed(items, names) && ItemsRecorded(items, recorded) && ResultNamed(r, names)
    ensures ItemsNamed(items[r.index := Some(r.item)], names)
    ensures ItemsRecorded(items[r.index := Some(r.item)], recorded + multiset{r.index})
  {
  }

  /** When the collector concludes without an error every index has been recorded once. */
  lemma ConcludeRecordsAll(batch: Batch)
    requires BatchInv(batch)
    requires |batch.results| == 0 && batch.resultsClosed
    requires !(batch.cancelled && batch.current < |batch.names|)
    ensures batch.recorded == UpTo(|batch.names|)
  {
    hide WorkersNamed, ResultsNamed, ItemsNamed, ItemsRecorded, Complete;
    InFlightIdle(batch.workers);
    assert batch.workers[0].Exited?;
    UpToOnce(batch.next, 0);
    assert Buffered(batch.results) == multiset{};
    hide InFlight, Buffered, UpTo, WorkersClosing;
    NothingLost(batch.recorded, batch.dropped, UpTo(batch.next), |batch.names|);
  }

  lemma NothingLost(recorded: multiset<nat>, dropped: multiset<nat>, all: multiset<nat>, n: nat)
    requires multiset{} + multiset{} + recorded + dropped == all
    requires |all| <= n
    requires dropped == multiset{} || |recorded| >= n
    ensures recorded == all
    ensures |recorded| >= n ==> |all| == n
  {
    assert recorded + dropped == all;
    assert |recorded + dropped| == |recorded| + |dropped|;
  }

  lemma ReturnInv(batch: Batch)
    requires BatchInv(batch)
    requires batch.outcome.Pending? && |batch.results| == 0 && batch.resultsClosed
    ensures BatchInv(Conclude(batch))
  {
    if !(batch.cancelled && batch.current < |batch.names|) {
      ConcludeRecordsAll(batch);
      forall i | 0 <= i < |batch.names|
        ensures batch.items[i].Some?
      {
        UpToOnce(|batch.names|, i);
      }
      CountFull(batch.items);
    }
  }

  lemma NextPhaseKeeps(phase: Phase, act: Act, names: seq<string>)
    requires MovesOnly(phase, act) && phase.NamedBy(names)
    ensures NextPhase(phase, act).Carries() == phase.Carries()
    ensures NextPhase(phase, act).NamedBy(names)
    ensures !NextPhase(phase, act).Aborting? && !phase.Exited?
    ensures NextPhase(phase, act).Exited? ==> (phase.Idle? && act.SeesClosed?) || phase.Aborting?
  {
  }

  lemma MovesOnlyInv(batch: Batch, act: Act, w: nat)
    requires BatchInv(batch) && w < |batch.workers| && MovesOnly(batch.workers[w], act)
    requires act.SeesClosed? ==> batch.jobsClosed
    ensures BatchInv(Move(batch, w, NextPhase(batch.workers[w], act)))
  {
    NextPhaseKeeps(batch.workers[w], act, batch.names);
    MoveInv(batch, w, NextPhase(batch.workers[w], act));
  }

  lemma FlagsInv(batch: Batch, act: Act, l: Limiters, procs: int)
    requires BatchInv(batch) && ActEnabled(batch, act, l, procs)
    requires act.Cancel? || act.ProducerStops? || act.ProducerCloses? || act.CloseResults?
    ensures BatchInv(ActBatch(batch, act, l, procs))
  {
  }

  /** One act of any goroutine keeps the batch invariant. */
  lemma ActInv(batch: Batch, act: Act, l: Limiters, procs: int)
    requires BatchInv(batch) && ActEnabled(batch, act, l, procs)
    ensures BatchInv(ActBatch(batch, act, l, procs))
  {
    hide BatchInv;
    match act
    case Produce(w) => ProduceInv(batch, w);
    case Send(w) => SendInv(batch, w);
    case Collect(callbackFails) => CollectInv(batch, callbackFails);
    case Return => ReturnInv(batch);
    case SeesDone(w) => DropInv(batch, w, if batch.workers[w].WaitType? then Aborting else Exited);
    case Cancel => FlagsInv(batch, act, l, procs);
    case ProducerStops => FlagsInv(batch, act, l, procs);
    case ProducerCloses => FlagsInv(batch, act, l, procs);
    case CloseResults => FlagsInv(batch, act, l, procs);
    case _ => MovesOnlyInv(batch, act, act.w);
  }
}
