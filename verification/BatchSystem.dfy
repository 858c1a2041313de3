/**
  All batches together: the shared limiters hold exactly one token per holder in every
  reachable state, no budget is exceeded, nothing deadlocks and every run ends.
 */
module BatchSystem {
  import opened BatchModel
  import opened BatchInvariant

  // ---------------------------------------------------------------- holders

  ghost function GlobalHolders(batches: seq<Batch>): set<(nat, nat)> {
    set b: nat, w: nat | b < |batches| && w < |batches[b].workers| && batches[b].workers[w].HoldsGlobal() :: (b, w)
  }

  ghost function TypeHolders(batches: seq<Batch>, kind: TestType): set<(nat, nat)> {
    set b: nat, w: nat
      | b < |batches| && batches[b].kind == kind && w < |batches[b].workers| && batches[b].workers[w].HoldsType()
      :: (b, w)
  }

  /** The tests of one type that are in progress, over all batches. */
  ghost function RunningTests(batches: seq<Batch>, kind: TestType): set<(nat, nat)> {
    set b: nat, w: nat
      | b < |batches| && batches[b].kind == kind && w < |batches[b].workers| && batches[b].workers[w].Running?
      :: (b, w)
  }

  ghost predicate LimiterInv(s: System) {
    && s.limiters.typed.Keys == {TCP, HTTP, UDP}
    && s.limiters.global == |GlobalHolders(s.batches)| <= GlobalCapacity(s.procs)
    && (forall kind :: kind in s.limiters.typed ==>
          s.limiters.typed[kind] == |TypeHolders(s.batches, kind)| <= TypeCapacity(kind, s.procs))
  }

  ghost predicate SystemInv(s: System) {
    && (forall b :: 0 <= b < |s.batches| ==> BatchInv(s.batches[b]))
    && LimiterInv(s)
  }

  // ---------------------------------------------------------------- limiter bookkeeping

  lemma Resize<T>(before: set<T>, after: set<T>, x: T, held: bool, holds: bool)
    requires (x in before) == held
    requires after == if holds then before + {x} else before - {x}
    ensures |after| == |before| + (if holds then 1 else 0) - (if held then 1 else 0)
  {
    if holds && held {
      assert after == before;
    }
    if !holds && !held {
      assert after == before;
    }
  }

  lemma HoldersOf(batches: seq<Batch>, b: nat, w: nat, after: Batch)
    requires b < |batches| && w < |batches[b].workers| && |after.workers| == |batches[b].workers|
    requires forall v :: 0 <= v < |after.workers| && v != w ==> after.workers[v] == batches[b].workers[v]
    ensures GlobalHolders(batches[b := after])
         == if after.workers[w].HoldsGlobal() then GlobalHolders(batches) + {(b, w)} else GlobalHolders(batches) - {(b, w)}
  {
    hide Phase.HoldsGlobal;
    var all := batches[b := after];
    forall c: nat, v: nat | (c, v) != (b, w)
      ensures (c, v) in GlobalHolders(all) <==> (c, v) in GlobalHolders(batches)
    {
    }
  }

  lemma HoldersMove(batches: seq<Batch>, b: nat, w: nat, after: Batch)
    requires b < |batches| && w < |batches[b].workers|
    requires after.kind == batches[b].kind && |after.workers| == |batches[b].workers|
    requires forall v :: 0 <= v < |after.workers| && v != w ==> after.workers[v] == batches[b].workers[v]
    ensures |GlobalHolders(batches[b := after])| == |GlobalHolders(batches)|
              + (if after.workers[w].HoldsGlobal() then 1 else 0)
              - (if batches[b].workers[w].HoldsGlobal() then 1 else 0)
  {
    var all := batches[b := after];
    var before := GlobalHolders(batches);
    var holds := after.workers[w].HoldsGlobal();
    HoldersOf(batches, b, w, after);
    Resize(before, GlobalHolders(all), (b, w), batches[b].workers[w].HoldsGlobal(), holds);
  }

  lemma TypeHoldersOf(batches: seq<Batch>, b: nat, w: nat, after: Batch)
    requires b < |batches| && w < |batches[b].workers| && |after.workers| == |batches[b].workers| && after.kind == batches[b].kind
    requires forall v :: 0 <= v < |after.workers| && v != w ==> after.workers[v] == batches[b].workers[v]
    ensures TypeHolders(batches[b := after], after.kind)
         == if after.workers[w].HoldsType() then TypeHolders(batches, after.kind) + {(b, w)} else TypeHolders(batches, after.kind) - {(b, w)}
  {
    hide Phase.HoldsType;
    var all := batches[b := after];
    forall c: nat, v: nat | (c, v) != (b, w)
      ensures (c, v) in TypeHolders(all, after.kind) <==> (c, v) in TypeHolders(batches, after.kind)
    {
    }
  }

  lemma TypeHoldersMove(batches: seq<Batch>, b: nat, w: nat, after: Batch)
    requires b < |batches| && w < |batches[b].workers|
    requires after.kind == batches[b].kind && |after.workers| == |batches[b].workers|
    requires forall v :: 0 <= v < |after.workers| && v != w ==> after.workers[v] == batches[b].workers[v]
    ensures |TypeHolders(batches[b := after], after.kind)| == |TypeHolders(batches, after.kind)|
              + (if after.workers[w].HoldsType() then 1 else 0)
              - (if batches[b].workers[w].HoldsType() then 1 else 0)
  {
    var all := batches[b := after];
    var before := TypeHolders(batches, after.kind);
    var holds := after.workers[w].HoldsType();
    TypeHoldersOf(batches, b, w, after);
    Resize(before, TypeHolders(all, after.kind), (b, w), batches[b].workers[w].HoldsType(), holds);
  }

  lemma OtherTypeHolders(batches: seq<Batch>, b: nat, after: Batch, kind: TestType)
    requires b < |batches| && after.kind == batches[b].kind && after.kind != kind
    ensures TypeHolders(batches[b := after], kind) == TypeHolders(batches, kind)
  {
  }

  predicate HasWorker(act: Act) {
    act.Produce? || act.SeesClosed? || act.SeesDone? || act.AcquireGlobal? || act.AcquireType? || act.AbortRelease? ||
    act.Finish? || act.ReleaseType? || act.ReleaseGlobal? || act.Send?
  }

  lemma MoverMoves(batch: Batch, act: Act, l: Limiters, procs: int)
    requires ActEnabled(batch, act, l, procs) && HasWorker(act) && !act.Produce? && !act.SeesDone? && !act.Send?
    ensures act.w < |batch.workers| && MovesOnly(batch.workers[act.w], act)
    ensures ActBatch(batch, act, l, procs) == Move(batch, act.w, NextPhase(batch.workers[act.w], act))
  {
    hide Move, NextPhase;
  }

  lemma CarrierTouchesOne(batch: Batch, act: Act, l: Limiters, procs: int)
    requires ActEnabled(batch, act, l, procs) && (act.Produce? || act.SeesDone? || act.Send?)
    ensures var after := ActBatch(batch, act, l, procs);
      && after.kind == batch.kind && |after.workers| == |batch.workers| && act.w < |batch.workers|
      && forall v :: 0 <= v < |after.workers| && v != act.w ==> after.workers[v] == batch.workers[v]
  {
  }

  lemma OthersTouchNone(batch: Batch, act: Act, l: Limiters, procs: int)
    requires ActEnabled(batch, act, l, procs) && !HasWorker(act)
    ensures ActBatch(batch, act, l, procs).kind == batch.kind && ActBatch(batch, act, l, procs).workers == batch.workers
  {
  }

  lemma ActTouchesOneWorker(batch: Batch, act: Act, l: Limiters, procs: int)
    requires ActEnabled(batch, act, l, procs)
    ensures var after := ActBatch(batch, act, l, procs);
      && after.kind == batch.kind && |after.workers| == |batch.workers|
      && if !HasWorker(act) then after.workers == batch.workers
         else
           && act.w < |batch.workers|
           && (forall v :: 0 <= v < |after.workers| && v != act.w ==> after.workers[v] == batch.workers[v])
  {
    hide ActEnabled, ActBatch, NextPhase;
    if act.Produce? || act.SeesDone? || act.Send? {
      CarrierTouchesOne(batch, act, l, procs);
    } else if HasWorker(act) {
      MoverMoves(batch, act, l, procs);
    } else {
      OthersTouchNone(batch, act, l, procs);
    }
  }

  function GlobalDelta(act: Act): int {
    if act.AcquireGlobal? then 1 else if act.AbortRelease? || act.ReleaseGlobal? then -1 else 0
  }

  function TypeDelta(act: Act): int {
    if act.AcquireType? then 1 else if act.ReleaseType? then -1 else 0
  }

  function Holds(held: bool): int {
    if held then 1 else 0
  }

  /** What the acting worker holds before and after differs by what the act takes or gives. */
  lemma ActHolds(batch: Batch, act: Act, l: Limiters, procs: int)
    requires ActEnabled(batch, act, l, procs) && HasWorker(act)
    ensures var to := ActBatch(batch, act, l, procs).workers[act.w];
      && Holds(to.HoldsGlobal()) == Holds(batch.workers[act.w].HoldsGlobal()) + GlobalDelta(act)
      && Holds(to.HoldsType()) == Holds(batch.workers[act.w].HoldsType()) + TypeDelta(act)
  {
    match act
    case AcquireGlobal(w) =>
    case AcquireType(w) =>
    case AbortRelease(w) =>
    case ReleaseType(w) =>
    case ReleaseGlobal(w) =>
    case SeesDone(w) =>
    case SeesClosed(w) =>
    case Finish(w, ok) =>
    case Produce(w) =>
    case Send(w) =>
  }

  lemma SameHolders(batches: seq<Batch>, b: nat, after: Batch, kind: TestType)
    requires b < |batches| && after.kind == batches[b].kind && after.workers == batches[b].workers
    ensures GlobalHolders(batches[b := after]) == GlobalHolders(batches)
    ensures TypeHolders(batches[b := after], kind) == TypeHolders(batches, kind)
  {
  }

  lemma GlobalStep(s: System, b: nat, act: Act)
    requires LimiterInv(s) && Enabled(s, Local(b, act))
    ensures var t := Apply(s, Local(b, act));
      t.limiters.global == |GlobalHolders(t.batches)| <= GlobalCapacity(s.procs)
  {
    var batch := s.batches[b];
    var after := ActBatch(batch, act, s.limiters, s.procs);
    ActTouchesOneWorker(batch, act, s.limiters, s.procs);
    if HasWorker(act) {
      HoldersMove(s.batches, b, act.w, after);
      ActHolds(batch, act, s.limiters, s.procs);
    } else {
      SameHolders(s.batches, b, after, TCP);
    }
  }

  /** Tokens move by the same delta, because a release finds the token its holder put in. */
  lemma TypeTokens(batch: Batch, act: Act, l: Limiters, kind: TestType)
    requires kind in l.typed
    requires batch.kind == kind && act.ReleaseType? ==> l.typed[kind] > 0
    ensures ActLimiters(batch, act, l).typed.Keys == l.typed.Keys
    ensures ActLimiters(batch, act, l).typed[kind] == l.typed[kind] + if batch.kind == kind then TypeDelta(act) else 0
  {
  }

  lemma TypeRoom(s: System, b: nat, act: Act)
    requires Enabled(s, Local(b, act)) && s.batches[b].kind in s.limiters.typed
    ensures act.AcquireType? ==> s.limiters.typed[s.batches[b].kind] < TypeCapacity(s.batches[b].kind, s.procs)
    ensures act.ReleaseType? ==> (b, act.w) in TypeHolders(s.batches, s.batches[b].kind)
    ensures act.ReleaseType? ==> |TypeHolders(s.batches, s.batches[b].kind)| > 0
  {
    if act.ReleaseType? {
      assert (b, act.w) in TypeHolders(s.batches, s.batches[b].kind);
    }
  }

  lemma TypeStep(s: System, b: nat, act: Act, kind: TestType)
    requires LimiterInv(s) && Enabled(s, Local(b, act)) && kind in s.limiters.typed
    ensures var t := Apply(s, Local(b, act));
      && t.limiters.typed.Keys == s.limiters.typed.Keys
      && t.limiters.typed[kind] == |TypeHolders(t.batches, kind)| <= TypeCapacity(kind, s.procs)
  {
    var batch := s.batches[b];
    var after := ActBatch(batch, act, s.limiters, s.procs);
    ActTouchesOneWorker(batch, act, s.limiters, s.procs);
    hide ActBatch, ActLimiters, ActEnabled;
    if batch.kind != kind {
      OtherTypeHolders(s.batches, b, after, kind);
      TypeTokens(batch, act, s.limiters, kind);
    } else if HasWorker(act) {
      TypeRoom(s, b, act);
      TypeHoldersMove(s.batches, b, act.w, after);
      ActHolds(batch, act, s.limiters, s.procs);
      TypeTokens(batch, act, s.limiters, kind);
    } else {
      SameHolders(s.batches, b, after, kind);
      TypeTokens(batch, act, s.limiters, kind);
    }
  }

  lemma StartStep(s: System, newcomer: Batch)
    requires LimiterInv(s)
    requires forall w :: 0 <= w < |newcomer.workers| ==> newcomer.workers[w].Idle?
    ensures LimiterInv(s.(batches := s.batches + [newcomer]))
  {
    var batches := s.batches + [newcomer];
    assert GlobalHolders(batches) == GlobalHolders(s.batches);
    forall kind: TestType
      ensures TypeHolders(batches, kind) == TypeHolders(s.batches, kind)
    {
    }
  }

  lemma LocalLimiters(s: System, b: nat, act: Act)
    requires LimiterInv(s) && Enabled(s, Local(b, act))
    ensures LimiterInv(Apply(s, Local(b, act)))
  {
    var t := Apply(s, Local(b, act));
    GlobalStep(s, b, act);
    forall kind | kind in s.limiters.typed
      ensures t.limiters.typed.Keys == s.limiters.typed.Keys
      ensures t.limiters.typed[kind] == |TypeHolders(t.batches, kind)| <= TypeCapacity(kind, s.procs)
    {
      TypeStep(s, b, act, kind);
    }
    TypeStep(s, b, act, TCP);
  }

  lemma LocalStep(s: System, b: nat, act: Act)
    requires SystemInv(s) && Enabled(s, Local(b, act))
    ensures SystemInv(Apply(s, Local(b, act)))
  {
    hide BatchInv, LimiterInv, ActBatch, ActLimiters;
    ActInv(s.batches[b], act, s.limiters, s.procs);
    LocalLimiters(s, b, act);
  }

  lemma StepInv(s: System, step: Step)
    requires SystemInv(s) && Enabled(s, step)
    ensures SystemInv(Apply(s, step)) && Apply(s, step).procs == s.procs
  {
    match step
    case Start(names, requested, kind, hasCallback) =>
      var newcomer := NewBatch(names, requested, kind, hasCallback, s.procs);
      NewBatchInv(names, requested, kind, hasCallback, s.procs);
      StartStep(s, newcomer);
      hide BatchInv, LimiterInv, NewBatch;
    case Local(b, act) =>
      LocalStep(s, b, act);
  }

  lemma {:induction false} RunInv(s: System, steps: seq<Step>)
    requires SystemInv(s) && IsRun(s, steps)
    ensures SystemInv(Run(s, steps)) && Run(s, steps).procs == s.procs
    decreases |steps|
  {
    if |steps| > 0 {
      StepInv(s, steps[0]);
      RunInv(Apply(s, steps[0]), steps[1..]);
    }
  }
}
