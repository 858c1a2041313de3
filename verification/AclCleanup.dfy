/**
  Deleting expired rows over whole runs: invisible on the blacklist, and on the whitelist
  exactly as long as nobody is listed over an expired row.
 */
module AclCleanup {
  import opened Options
  import opened AclModel

  /** The part of a row that decides anything. */
  function Shape(e: Entry): Entry {
    e.(displayName := "", reason := "")
  }

  function Live(rows: seq<Entry>, now: int): set<Entry> {
    set e | e in rows && !IsExpired(e, now) :: Shape(e)
  }

  /** What an operation does to the live rows; a sweep does nothing to them. */
  function LiveStep(t: Text, live: set<Entry>, op: Op, now: int): set<Entry> {
    match op
    case Add(_, name, enabled, reason, serverID, expires) =>
      var e := Created(t, name, enabled, reason, serverID, expires);
      (set x | x in live && !Collide(e, x)) + (if IsExpired(e, now) then {} else {Shape(e)})
    case Enable(name, serverID, enabled) =>
      set x | x in live :: if Hits(t, x, name, serverID) then x.(enabled := enabled) else x
    case Drop(name, serverID) => set x | x in live && !Hits(t, x, name, serverID)
    case Sweep(_) => live
  }

  lemma LiveAdd(t: Text, rows: seq<Entry>, e: Entry, now: int)
    ensures Live(Upsert(rows, e), now)
         == (set x | x in Live(rows, now) && !Collide(e, x)) + (if IsExpired(e, now) then {} else {Shape(e)})
  {
    var after := Upsert(rows, e);
    var L, R := Live(after, now), (set x | x in Live(rows, now) && !Collide(e, x)) + (if IsExpired(e, now) then {} else {Shape(e)});
    forall x | x in L
      ensures x in R
    {
      var a :| a in after && !IsExpired(a, now) && x == Shape(a);
      var i :| 0 <= i < |after| && after[i] == a;
      if i < |rows| && !Collide(e, rows[i]) {
        assert rows[i] in rows && Shape(rows[i]) in Live(rows, now);
      }
    }
    forall x | x in R
      ensures x in L
    {
      if x in Live(rows, now) && !Collide(e, x) {
        var a :| a in rows && !IsExpired(a, now) && x == Shape(a);
        var i :| 0 <= i < |rows| && rows[i] == a;
        assert after[i] == a;
      } else if i :| 0 <= i < |rows| && Collide(e, rows[i]) {
        assert after[i] in after && Shape(after[i]) == x;
      } else {
        assert after[|rows|] == e;
      }
    }
  }

  lemma LiveEnable(t: Text, rows: seq<Entry>, name: string, serverID: string, enabled: bool, now: int)
    ensures Live(SetEnabled(t, rows, name, serverID, enabled), now)
         == set x | x in Live(rows, now) :: if Hits(t, x, name, serverID) then x.(enabled := enabled) else x
  {
    var after := SetEnabled(t, rows, name, serverID, enabled);
    var R := set x | x in Live(rows, now) :: if Hits(t, x, name, serverID) then x.(enabled := enabled) else x;
    forall x | x in Live(after, now)
      ensures x in R
    {
      var a :| a in after && !IsExpired(a, now) && x == Shape(a);
      var i :| 0 <= i < |after| && after[i] == a;
      assert rows[i] in rows && Shape(rows[i]) in Live(rows, now);
      assert Hits(t, Shape(rows[i]), name, serverID) == Hits(t, rows[i], name, serverID);
    }
    forall x | x in R
      ensures x in Live(after, now)
    {
      var y :| y in Live(rows, now) && x == if Hits(t, y, name, serverID) then y.(enabled := enabled) else y;
      var a :| a in rows && !IsExpired(a, now) && y == Shape(a);
      var i :| 0 <= i < |rows| && rows[i] == a;
      assert after[i] in after && Shape(after[i]) == x;
    }
  }

  lemma LiveStepIs(t: Text, rows: seq<Entry>, op: Op, now: int)
    requires op.Sweep? ==> op.at <= now
    ensures Live(ApplyBlack(t, rows, op), now) == LiveStep(t, Live(rows, now), op, now)
  {
    match op
    case Add(_, name, enabled, reason, serverID, expires) =>
      LiveAdd(t, rows, Created(t, name, enabled, reason, serverID, expires), now);
    case Enable(name, serverID, enabled) =>
      LiveEnable(t, rows, name, serverID, enabled, now);
    case Drop(name, serverID) =>
      RemainingAre(t, rows, name, serverID);
      assert forall e :: Hits(t, Shape(e), name, serverID) == Hits(t, e, name, serverID);
    case Sweep(at) =>
      SweptAre(rows, at);
  }

  function WithoutSweeps(ops: seq<Op>): seq<Op> {
    if |ops| == 0 then []
    else WithoutSweeps(ops[..|ops| - 1]) + if ops[|ops| - 1].Sweep? then [] else [ops[|ops| - 1]]
  }

  lemma {:induction false} SameLive(t: Text, ops: seq<Op>, now: int)
    requires forall i :: 0 <= i < |ops| && ops[i].Sweep? ==> ops[i].at <= now
    ensures Live(RunOps(t, true, ops), now) == Live(RunOps(t, true, WithoutSweeps(ops)), now)
  {
    hide Live, LiveStep, ApplyBlack;
    if |ops| > 0 {
      var init, last := ops[..|ops| - 1], ops[|ops| - 1];
      SameLive(t, init, now);
      LiveStepIs(t, RunOps(t, true, init), last, now);
      if last.Sweep? {
        SweepIsNothing(t, Live(RunOps(t, true, init), now), last, now);
        assert WithoutSweeps(ops) == WithoutSweeps(init);
      } else {
        LiveStepIs(t, RunOps(t, true, WithoutSweeps(init)), last, now);
        assert WithoutSweeps(ops)[..|WithoutSweeps(init)|] == WithoutSweeps(init);
      }
    }
  }

  lemma SweepIsNothing(t: Text, live: set<Entry>, op: Op, now: int)
    requires op.Sweep?
    ensures LiveStep(t, live, op, now) == live
  {
  }

  lemma ScanByHits(t: Text, rows: seq<Entry>, name: string, serverID: string, now: int)
    requires Lowered(t, rows) && FoldAgrees(t, rows, name)
    ensures Scan(t, rows, name, serverID, now) <==> exists i :: 0 <= i < |rows| && Hits(t, rows[i], name, serverID) && Active(rows[i], now)
  {
    hide ForServer;
    if Scan(t, rows, name, serverID, now) {
      var i :| 0 <= i < |rows| && ForServer(rows[i], serverID) && MatchesEntry(t, name, rows[i], now);
      assert Hits(t, rows[i], name, serverID);
    }
    if i :| 0 <= i < |rows| && Hits(t, rows[i], name, serverID) && Active(rows[i], now) {
      assert MatchesEntry(t, name, rows[i], now);
    }
  }

  lemma ScanByLive(t: Text, rows: seq<Entry>, name: string, serverID: string, now: int)
    requires Lowered(t, rows) && FoldAgrees(t, rows, name)
    ensures Scan(t, rows, name, serverID, now) <==> exists x :: x in Live(rows, now) && x.enabled && Hits(t, x, name, serverID)
  {
    ScanByHits(t, rows, name, serverID, now);
    if i :| 0 <= i < |rows| && Hits(t, rows[i], name, serverID) && Active(rows[i], now) {
      assert rows[i] in rows && Shape(rows[i]) in Live(rows, now);
      assert Hits(t, Shape(rows[i]), name, serverID);
    }
    if x :| x in Live(rows, now) && x.enabled && Hits(t, x, name, serverID) {
      var a :| a in rows && !IsExpired(a, now) && x == Shape(a);
      var i :| 0 <= i < |rows| && rows[i] == a;
      assert Hits(t, rows[i], name, serverID) && Active(rows[i], now);
    }
  }

  /** Whenever and however often expired rows were deleted, the blacklist answers as if none ever had been. */
  lemma CleanupIsInvisible(t: Text, ops: seq<Op>, name: string, serverID: string, now: int)
    requires forall i :: 0 <= i < |ops| && ops[i].Sweep? ==> ops[i].at <= now
    requires FoldAgrees(t, RunOps(t, true, ops), name) && FoldAgrees(t, RunOps(t, true, WithoutSweeps(ops)), name)
    ensures Scan(t, RunOps(t, true, ops), name, serverID, now) <==> Scan(t, RunOps(t, true, WithoutSweeps(ops)), name, serverID, now)
  {
    RunProper(t, true, ops);
    RunProper(t, true, WithoutSweeps(ops));
    ScanByLive(t, RunOps(t, true, ops), name, serverID, now);
    ScanByLive(t, RunOps(t, true, WithoutSweeps(ops)), name, serverID, now);
    SameLive(t, ops, now);
  }

  // ---------------------------------------------------------------- the whitelist

  /** The row an operation adds. */
  function AddedBy(t: Text, op: Op): Entry
    requires op.Add?
  {
    Created(t, op.name, op.enabled, op.reason, op.serverID, op.expires)
  }

  predicate Admits(t: Text, rows: seq<Entry>, op: Op)
    requires op.Add?
  {
    Insert(rows, AddedBy(t, op)).Some?
  }

  /** A new listing without expiry takes effect exactly when the row it collides with, if there is one, is active anyway. */
  lemma ListingTakesEffectIff(t: Text, rows: seq<Entry>, op: Op, now: int)
    requires Proper(t, rows) && op.Add? && op.enabled && op.expires == None
    requires t.fold(t.trim(op.name), t.trim(op.name)) && FoldAgrees(t, rows, t.trim(op.name))
    ensures Scan(t, ApplyWhite(t, rows, op), t.trim(op.name), op.serverID, now)
       <==> forall i :: 0 <= i < |rows| && Collide(AddedBy(t, op), rows[i]) ==> Active(rows[i], now)
  {
    var e, listed := AddedBy(t, op), t.trim(op.name);
    if Admits(t, rows, op) {
      var after := rows + [e];
      assert after[|rows|] == e && ForServer(e, op.serverID) && MatchesEntry(t, listed, e, now);
    } else {
      ScanByHits(t, rows, listed, op.serverID, now);
      forall i | 0 <= i < |rows|
        ensures Collide(e, rows[i]) <==> Hits(t, rows[i], listed, op.serverID)
      {
      }
      var i :| 0 <= i < |rows| && Collide(e, rows[i]);
      forall j | 0 <= j < |rows| && Collide(e, rows[j])
        ensures j == i
      {
        assert Collide(rows[i], rows[j]) && Collide(rows[j], rows[i]);
      }
    }
  }

  /** Operations that happen at a known time, in order. */
  predicate Chronological(ops: seq<Op>) {
    forall i, j :: 0 <= i < j < |ops| && Dated(ops[i]) && Dated(ops[j]) ==> ops[i].at <= ops[j].at
  }

  predicate Dated(op: Op) {
    op.Add? || op.Sweep?
  }

  predicate DatedBy(ops: seq<Op>, now: int) {
    forall k :: 0 <= k < |ops| && Dated(ops[k]) ==> ops[k].at <= now
  }

  /** The operation adds a row that collides with one already expired. */
  predicate LapsedCollision(t: Text, rows: seq<Entry>, op: Op) {
    op.Add? && exists i :: 0 <= i < |rows| && Collide(AddedBy(t, op), rows[i]) && IsExpired(rows[i], op.at)
  }

  /** In the run without cleanups no listing is ever added over an expired one. */
  predicate NoLapsedCollision(t: Text, ops: seq<Op>) {
    forall k :: 0 <= k < |ops| ==> !LapsedCollision(t, RunOps(t, false, WithoutSweeps(ops[..k])), ops[k])
  }

  /** With the cleanups of a run and without them every listing is admitted or refused alike, and every later scan answers alike. */
  ghost predicate Invisible(t: Text, ops: seq<Op>) {
    && (forall k :: 0 <= k < |ops| && ops[k].Add? ==>
          (Admits(t, RunOps(t, false, ops[..k]), ops[k]) <==> Admits(t, RunOps(t, false, WithoutSweeps(ops[..k])), ops[k])))
    && (forall name, serverID, now :: DatedBy(ops, now) ==>
          (Scan(t, RunOps(t, false, ops), name, serverID, now) <==> Scan(t, RunOps(t, false, WithoutSweeps(ops)), name, serverID, now)))
  }

  /** The rows without some that have expired. */
  predicate Thinned(fewer: seq<Entry>, rows: seq<Entry>, now: int) {
    && (forall e :: e in fewer ==> e in rows)
    && (forall e :: e in rows && e !in fewer ==> IsExpired(e, now))
  }

  lemma ThinnedScan(t: Text, fewer: seq<Entry>, rows: seq<Entry>, name: string, serverID: string, now: int)
    requires Thinned(fewer, rows, now)
    ensures Scan(t, fewer, name, serverID, now) <==> Scan(t, rows, name, serverID, now)
  {
    if Scan(t, fewer, name, serverID, now) {
      var i :| 0 <= i < |fewer| && ForServer(fewer[i], serverID) && MatchesEntry(t, name, fewer[i], now);
      assert fewer[i] in rows;
      var j :| 0 <= j < |rows| && rows[j] == fewer[i];
    }
    if Scan(t, rows, name, serverID, now) {
      var i :| 0 <= i < |rows| && ForServer(rows[i], serverID) && MatchesEntry(t, name, rows[i], now);
      assert rows[i] in fewer;
      var j :| 0 <= j < |fewer| && fewer[j] == rows[i];
    }
  }

  /** Thinned tables admit the same listings unless one collides with an expired row. */
  lemma ThinnedAdmits(t: Text, fewer: seq<Entry>, rows: seq<Entry>, op: Op)
    requires op.Add? && Thinned(fewer, rows, op.at) && !LapsedCollision(t, rows, op)
    ensures Admits(t, fewer, op) <==> Admits(t, rows, op)
  {
    hide Collide, IsExpired;
    var e := AddedBy(t, op);
    if i :| 0 <= i < |rows| && Collide(e, rows[i]) {
      assert rows[i] in fewer;
      var j :| 0 <= j < |fewer| && fewer[j] == rows[i];
      assert Collide(e, fewer[j]);
    }
    if i :| 0 <= i < |fewer| && Collide(e, fewer[i]) {
      assert fewer[i] in rows;
    }
  }

  lemma ThinnedEnable(t: Text, fewer: seq<Entry>, rows: seq<Entry>, name: string, serverID: string, enabled: bool, now: int)
    requires Thinned(fewer, rows, now)
    ensures Thinned(SetEnabled(t, fewer, name, serverID, enabled), SetEnabled(t, rows, name, serverID, enabled), now)
  {
    hide Hits;
    var f, r := SetEnabled(t, fewer, name, serverID, enabled), SetEnabled(t, rows, name, serverID, enabled);
    forall e | e in f
      ensures e in r
    {
      var i :| 0 <= i < |f| && f[i] == e;
      assert fewer[i] in rows;
      var j :| 0 <= j < |rows| && rows[j] == fewer[i];
      assert r[j] == e;
    }
    forall e | e in r
      ensures e in f || IsExpired(e, now)
    {
      var i :| 0 <= i < |r| && r[i] == e;
      if rows[i] in fewer {
        var j :| 0 <= j < |fewer| && fewer[j] == rows[i];
        assert f[j] == e;
      }
    }
  }

  /** One operation on both tables, a cleanup on the thinner one only. */
  lemma ThinnedStep(t: Text, fewer: seq<Entry>, rows: seq<Entry>, op: Op, now: int)
    requires Thinned(fewer, rows, now) && (op.Sweep? ==> op.at <= now)
    requires op.Add? ==> (Admits(t, fewer, op) <==> Admits(t, rows, op))
    ensures Thinned(ApplyWhite(t, fewer, op), if op.Sweep? then rows else ApplyWhite(t, rows, op), now)
  {
    match op
    case Add(_, _, _, _, _, _) =>
      hide Created, IsExpired;
    case Enable(name, serverID, enabled) =>
      ThinnedEnable(t, fewer, rows, name, serverID, enabled, now);
    case Drop(name, serverID) =>
      RemainingAre(t, fewer, name, serverID);
      RemainingAre(t, rows, name, serverID);
      hide Hits, IsExpired, Remove;
    case Sweep(at) =>
      SweptAre(fewer, at);
  }

  lemma {:induction false} ThinnedRun(t: Text, ops: seq<Op>, now: int)
    requires Chronological(ops) && NoLapsedCollision(t, ops) && DatedBy(ops, now)
    ensures Thinned(RunOps(t, false, ops), RunOps(t, false, WithoutSweeps(ops)), now)
  {
    if |ops| > 0 {
      var init, last := ops[..|ops| - 1], ops[|ops| - 1];
      forall k | 0 <= k < |init|
        ensures !LapsedCollision(t, RunOps(t, false, WithoutSweeps(init[..k])), init[k])
      {
        assert init[..k] == ops[..k];
      }
      var fewer, rows := RunOps(t, false, init), RunOps(t, false, WithoutSweeps(init));
      ThinnedRun(t, init, now);
      if last.Add? {
        ThinnedRun(t, init, last.at);
        ThinnedAdmits(t, fewer, rows, last);
      }
      ThinnedStep(t, fewer, rows, last, now);
      RunWithoutSweeps(t, init, last);
    }
  }

  lemma RunWithoutSweeps(t: Text, init: seq<Op>, last: Op)
    ensures var rows := RunOps(t, false, WithoutSweeps(init));
      RunOps(t, false, WithoutSweeps(init + [last])) == if last.Sweep? then rows else ApplyWhite(t, rows, last)
  {
    var ops := init + [last];
    assert ops[..|ops| - 1] == init;
    if last.Sweep? {
      assert WithoutSweeps(ops) == WithoutSweeps(init);
    } else {
      RunOne(t, WithoutSweeps(init), last);
    }
  }

  /** The counterpart for the whitelist: cleanups are invisible in a run that never lists over an expired row. */
  lemma WhiteCleanupIsInvisible(t: Text, ops: seq<Op>)
    requires Chronological(ops) && NoLapsedCollision(t, ops)
    ensures Invisible(t, ops)
  {
    forall k | 0 <= k < |ops| && ops[k].Add?
      ensures Admits(t, RunOps(t, false, ops[..k]), ops[k]) <==> Admits(t, RunOps(t, false, WithoutSweeps(ops[..k])), ops[k])
    {
      NoLapsedPrefix(t, ops, k);
      ThinnedRun(t, ops[..k], ops[k].at);
      ThinnedAdmits(t, RunOps(t, false, ops[..k]), RunOps(t, false, WithoutSweeps(ops[..k])), ops[k]);
    }
    forall name, serverID, now | DatedBy(ops, now)
      ensures Scan(t, RunOps(t, false, ops), name, serverID, now) <==> Scan(t, RunOps(t, false, WithoutSweeps(ops)), name, serverID, now)
    {
      ThinnedRun(t, ops, now);
      ThinnedScan(t, RunOps(t, false, ops), RunOps(t, false, WithoutSweeps(ops)), name, serverID, now);
    }
  }

  lemma NoLapsedPrefix(t: Text, ops: seq<Op>, n: nat)
    requires n <= |ops| && NoLapsedCollision(t, ops)
    ensures NoLapsedCollision(t, ops[..n])
  {
    forall k | 0 <= k < n
      ensures !LapsedCollision(t, RunOps(t, false, WithoutSweeps(ops[..n][..k])), ops[..n][k])
    {
      assert ops[..n][..k] == ops[..k];
    }
  }

  predicate SweepFree(ops: seq<Op>) {
    forall k :: 0 <= k < |ops| ==> !ops[k].Sweep?
  }

  lemma {:induction false} SweepFreeStays(ops: seq<Op>)
    requires SweepFree(ops)
    ensures WithoutSweeps(ops) == ops
  {
    if |ops| > 0 {
      SweepFreeStays(ops[..|ops| - 1]);
    }
  }

  lemma {:induction false} WithoutSweepsJoin(a: seq<Op>, b: seq<Op>)
    ensures WithoutSweeps(a + b) == WithoutSweeps(a) + WithoutSweeps(b)
  {
    if |b| == 0 {
      assert a + b == a;
    } else {
      assert (a + b)[..|a + b| - 1] == a + b[..|b| - 1];
      WithoutSweepsJoin(a, b[..|b| - 1]);
    }
  }

  /** A listing over an expired row: one cleanup just before it changes whether it is admitted. */
  lemma LapsedIsVisible(t: Text, ops: seq<Op>, k: nat) returns (swept: seq<Op>)
    requires Chronological(ops) && SweepFree(ops) && k < |ops| && LapsedCollision(t, RunOps(t, false, ops[..k]), ops[k])
    ensures Chronological(swept) && WithoutSweeps(swept) == ops && !Invisible(t, swept)
  {
    swept := SweptBefore(ops, k);
    var before := ops[..k];
    RunOne(t, before, Sweep(ops[k].at));
    RunProper(t, false, before);
    SweptAdmits(t, RunOps(t, false, before), ops[k]);
    assert swept[..k + 1] == before + [Sweep(ops[k].at)];
    hide RunOps, Admits, LapsedCollision, Proper, DeleteExpired, WithoutSweeps;
    assert !(Admits(t, RunOps(t, false, swept[..k + 1]), swept[k + 1])
             <==> Admits(t, RunOps(t, false, WithoutSweeps(swept[..k + 1])), swept[k + 1]));
  }

  lemma InOrder(ops: seq<Op>, k: nat)
    requires Chronological(ops) && k < |ops| && ops[k].Add?
    ensures Chronological(ops[..k] + [Sweep(ops[k].at)] + ops[k..])
  {
    var swept := ops[..k] + [Sweep(ops[k].at)] + ops[k..];
    assert forall i :: 0 <= i < |swept| ==> swept[i] == if i < k then ops[i] else if i == k then Sweep(ops[k].at) else ops[i - 1];
  }

  /** The same run with a cleanup just before its k-th operation, at the time of that operation. */
  lemma SweptBefore(ops: seq<Op>, k: nat) returns (swept: seq<Op>)
    requires Chronological(ops) && SweepFree(ops) && k < |ops| && ops[k].Add?
    ensures swept == ops[..k] + [Sweep(ops[k].at)] + ops[k..]
    ensures Chronological(swept) && WithoutSweeps(swept) == ops
    ensures WithoutSweeps(swept[..k + 1]) == ops[..k] && swept[k + 1] == ops[k]
  {
    var sweep := Sweep(ops[k].at);
    swept := ops[..k] + [sweep] + ops[k..];
    Spliced(ops, k, sweep);
    InOrder(ops, k);
    WithoutOne(ops[..k], sweep, ops[k..]);
    hide Chronological, WithoutSweeps;
  }

  lemma WithoutOne(before: seq<Op>, sweep: Op, after: seq<Op>)
    requires SweepFree(before) && SweepFree(after) && sweep.Sweep?
    ensures WithoutSweeps(before + [sweep]) == before && WithoutSweeps(before + [sweep] + after) == before + after
  {
    SweepFreeStays(before);
    SweepFreeStays(after);
    assert (before + [sweep])[..|before|] == before;
    WithoutSweepsJoin(before + [sweep], after);
  }

  lemma Spliced<T>(s: seq<T>, k: nat, x: T)
    requires k < |s|
    ensures var longer := s[..k] + [x] + s[k..];
      longer[..k + 1] == s[..k] + [x] && longer[k + 1] == s[k] && s[..k] + s[k..] == s
  {
  }

  lemma SweptAdmits(t: Text, rows: seq<Entry>, op: Op)
    requires Constrained(rows) && LapsedCollision(t, rows, op)
    ensures !Admits(t, rows, op) && Admits(t, DeleteExpired(rows, op.at), op)
  {
    var e, fewer := AddedBy(t, op), DeleteExpired(rows, op.at);
    SweptAre(rows, op.at);
    var i :| 0 <= i < |rows| && Collide(e, rows[i]) && IsExpired(rows[i], op.at);
    forall j | 0 <= j < |fewer|
      ensures !Collide(e, fewer[j])
    {
      assert fewer[j] in rows;
      var l :| 0 <= l < |rows| && rows[l] == fewer[j];
      if Collide(e, rows[l]) {
        assert Collide(rows[i], rows[l]) && Collide(rows[l], rows[i]);
      }
    }
  }

  /**
    For a run without cleanups: wherever cleanups may be put in, at the right times, they are invisible
    if and only if no listing is added over an expired row.
   */
  lemma WhiteCleanupInvisibleIff(t: Text, ops: seq<Op>)
    requires Chronological(ops) && SweepFree(ops)
    ensures NoLapsedCollision(t, ops) <==> AllPlacementsInvisible(t, ops)
  {
    if NoLapsedCollision(t, ops) {
      forall swept | Chronological(swept) && WithoutSweeps(swept) == ops
        ensures Invisible(t, swept)
      {
        SweptNoLapsed(t, swept);
        WhiteCleanupIsInvisible(t, swept);
      }
    } else {
      var k :| 0 <= k < |ops| && LapsedCollision(t, RunOps(t, false, WithoutSweeps(ops[..k])), ops[k]);
      SweepFreeStays(ops[..k]);
      var swept := LapsedIsVisible(t, ops, k);
    }
  }

  ghost predicate AllPlacementsInvisible(t: Text, ops: seq<Op>) {
    forall swept :: Chronological(swept) && WithoutSweeps(swept) == ops ==> Invisible(t, swept)
  }

  lemma SweptNoLapsed(t: Text, swept: seq<Op>)
    requires NoLapsedCollision(t, WithoutSweeps(swept)) && SweepFree(WithoutSweeps(swept))
    ensures NoLapsedCollision(t, swept)
  {
    var ops := WithoutSweeps(swept);
    forall k | 0 <= k < |swept|
      ensures !LapsedCollision(t, RunOps(t, false, WithoutSweeps(swept[..k])), swept[k])
    {
      if swept[k].Add? {
        KthKept(swept, k);
        var n := |WithoutSweeps(swept[..k])|;
        SweepFreeStays(ops[..n]);
        hide LapsedCollision, RunOps, WithoutSweeps;
        assert !LapsedCollision(t, RunOps(t, false, WithoutSweeps(ops[..n])), ops[n]);
      }
    }
  }

  lemma KthKept(swept: seq<Op>, k: nat)
    requires k < |swept| && !swept[k].Sweep?
    ensures var ops, before := WithoutSweeps(swept), WithoutSweeps(swept[..k]);
      |before| < |ops| && ops[..|before|] == before && ops[|before|] == swept[k]
  {
    var before, after := swept[..k], swept[k + 1..];
    assert swept == before + [swept[k]] + after;
    WithoutSweepsJoin(before + [swept[k]], after);
    WithoutSweepsJoin(before, [swept[k]]);
    assert [swept[k]][..0] == [];
    assert WithoutSweeps([swept[k]]) == [swept[k]];
  }

  /** The shortest run that shows it: an expired row of a server still refuses a new one until it is deleted. */
  lemma ExpiredRowBlocksListing(t: Text, start: int, name: string, serverID: string, now: int)
    requires t.fold(name, name) && t.trim(name) == name && |serverID| > 0
    ensures var lapsed, again := Add(start, name, true, "", serverID, Some(now - 1)), Add(now, name, true, "", serverID, None);
      && !Scan(t, RunOps(t, false, [lapsed, again]), name, serverID, now)
      && Scan(t, RunOps(t, false, [lapsed, Sweep(now), again]), name, serverID, now)
  {
    var first, again := Add(start, name, true, "", serverID, Some(now - 1)), Add(now, name, true, "", serverID, None);
    var a, b := Created(t, name, true, "", serverID, Some(now - 1)), Created(t, name, true, "", serverID, None);
    RunOne(t, [], first);
    InsertFirst(a);
    assert [] + [first] == [first];
    RunOne(t, [first], again);
    InsertRefused(a, b);
    assert [first] + [again] == [first, again];
    RunOne(t, [first], Sweep(now));
    SweepOne(a, now);
    assert [first] + [Sweep(now)] == [first, Sweep(now)];
    RunOne(t, [first, Sweep(now)], again);
    InsertFirst(b);
    assert [first, Sweep(now)] + [again] == [first, Sweep(now), again];
    hide RunOps, DeleteExpired, Insert;
    assert [b][0] == b && ForServer(b, serverID) && MatchesEntry(t, name, b, now);
  }

  lemma InsertFirst(e: Entry)
    ensures Insert([], e) == Some([e])
  {
    assert [] + [e] == [e];
  }

  lemma InsertRefused(a: Entry, b: Entry)
    requires Collide(b, a)
    ensures Insert([a], b) == None
  {
    assert [a][0] == a;
  }

  lemma SweepOne(a: Entry, now: int)
    requires IsExpired(a, now)
    ensures DeleteExpired([a], now) == []
  {
    assert [a][..0] == [];
  }

  lemma RunOne(t: Text, ops: seq<Op>, op: Op)
    ensures RunOps(t, false, ops + [op]) == ApplyWhite(t, RunOps(t, false, ops), op)
  {
    assert (ops + [op])[..|ops|] == ops;
  }
}
