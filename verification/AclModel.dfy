/**
  Access control: the rows of the blacklist and whitelist tables, the statements that change
  them, and the decision taken by lookups against the decision taken by scanning whole lists.
 */
module AclModel {
  import opened Options

  /** The string operations of the decision: lower case, equality under folding, trimming. */
  datatype Text = Text(lower: string -> string, fold: (string, string) -> bool, trim: string -> string)

  /** A row of either table; a global row usually has no server at all. */
  datatype Entry = Entry(displayName: string, lowerName: string, enabled: bool, reason: string, server: Option<string>, expires: Option<int>)

  datatype Settings = Settings(blacklistEnabled: bool, whitelistEnabled: bool, defaultMessage: string, whitelistMessage: string)

  datatype DenyType = DenyNone | DenyBlacklist | DenyWhitelist

  const BannedText := "你已被封禁"
  const NotListedText := "你不在白名单中"

  const DefaultSettings := Settings(true, false, BannedText, NotListedText)

  // ---------------------------------------------------------------- rows

  /** A row expires strictly after its time. */
  predicate IsExpired(e: Entry, now: int) {
    e.expires.Some? && now > e.expires.value
  }

  predicate Active(e: Entry, now: int) {
    e.enabled && !IsExpired(e, now)
  }

  /** The check on one entry, whichever list it is in. */
  predicate MatchesEntry(t: Text, name: string, e: Entry, now: int) {
    Active(e, now) && t.fold(name, e.displayName)
  }

  /** The row belongs to the server, or to all servers when the identifier is empty. */
  predicate ForServer(e: Entry, serverID: string) {
    if e.server.None? then |serverID| == 0 else e.server.value == serverID
  }

  /** The condition of a lookup by name. */
  predicate Hits(t: Text, e: Entry, name: string, serverID: string) {
    e.lowerName == t.lower(name) && ForServer(e, serverID)
  }

  predicate Lowered(t: Text, rows: seq<Entry>) {
    forall i :: 0 <= i < |rows| ==> rows[i].lowerName == t.lower(rows[i].displayName)
  }

  /** The tables' uniqueness constraint, which does not see rows without a server. */
  predicate Collide(a: Entry, b: Entry) {
    a.server.Some? && a.server == b.server && a.lowerName == b.lowerName
  }

  predicate Constrained(rows: seq<Entry>) {
    forall i, j :: 0 <= i < j < |rows| ==> !Collide(rows[i], rows[j])
  }

  predicate Proper(t: Text, rows: seq<Entry>) {
    && Lowered(t, rows) && Constrained(rows)
    && forall i :: 0 <= i < |rows| ==> rows[i].server.Some? ==> |rows[i].server.value| > 0
  }

  // ---------------------------------------------------------------- statements

  function Created(t: Text, name: string, enabled: bool, reason: string, serverID: string, expires: Option<int>): Entry {
    var trimmed := t.trim(name);
    Entry(trimmed, t.lower(trimmed), enabled, reason, if |serverID| == 0 then None else Some(serverID), expires)
  }

  /** A blacklist row replaces the one it collides with, which keeps its spelling of the name. */
  function Upsert(rows: seq<Entry>, e: Entry): seq<Entry> {
    if exists i :: 0 <= i < |rows| && Collide(e, rows[i])
    then seq(|rows|, i requires 0 <= i < |rows| =>
           if Collide(e, rows[i]) then rows[i].(enabled := e.enabled, reason := e.reason, expires := e.expires) else rows[i])
    else rows + [e]
  }

  /** A whitelist row that collides is refused. */
  function Insert(rows: seq<Entry>, e: Entry): Option<seq<Entry>> {
    if exists i :: 0 <= i < |rows| && Collide(e, rows[i]) then None else Some(rows + [e])
  }

  function SetEnabled(t: Text, rows: seq<Entry>, name: string, serverID: string, enabled: bool): seq<Entry> {
    seq(|rows|, i requires 0 <= i < |rows| => if Hits(t, rows[i], name, serverID) then rows[i].(enabled := enabled) else rows[i])
  }

  function Remove(t: Text, rows: seq<Entry>, name: string, serverID: string): seq<Entry> {
    if |rows| == 0 then []
    else Remove(t, rows[..|rows| - 1], name, serverID)
         + if Hits(t, rows[|rows| - 1], name, serverID) then [] else [rows[|rows| - 1]]
  }

  function DeleteExpired(rows: seq<Entry>, now: int): seq<Entry> {
    if |rows| == 0 then []
    else DeleteExpired(rows[..|rows| - 1], now) + if IsExpired(rows[|rows| - 1], now) then [] else [rows[|rows| - 1]]
  }

  datatype Op =
    | Add(at: int, name: string, enabled: bool, reason: string, serverID: string, expires: Option<int>)
    | Enable(name: string, serverID: string, enabled: bool)
    | Drop(name: string, serverID: string)
    | Sweep(at: int)

  function ApplyBlack(t: Text, rows: seq<Entry>, op: Op): seq<Entry> {
    match op
    case Add(_, name, enabled, reason, serverID, expires) => Upsert(rows, Created(t, name, enabled, reason, serverID, expires))
    case Enable(name, serverID, enabled) => SetEnabled(t, rows, name, serverID, enabled)
    case Drop(name, serverID) => Remove(t, rows, name, serverID)
    case Sweep(at) => DeleteExpired(rows, at)
  }

  function ApplyWhite(t: Text, rows: seq<Entry>, op: Op): seq<Entry> {
    if op.Add? then
      var after := Insert(rows, Created(t, op.name, op.enabled, op.reason, op.serverID, op.expires));
      if after.Some? then after.value else rows
    else ApplyBlack(t, rows, op)
  }

  /** The tables after a run: blacklist rows when `black`, whitelist rows otherwise. */
  function RunOps(t: Text, black: bool, ops: seq<Op>): seq<Entry> {
    if |ops| == 0 then []
    else
      var before := RunOps(t, black, ops[..|ops| - 1]);
      if black then ApplyBlack(t, before, ops[|ops| - 1]) else ApplyWhite(t, before, ops[|ops| - 1])
  }

  // ---------------------------------------------------------------- what the statements keep

  lemma {:induction false} SweptAre(rows: seq<Entry>, now: int)
    ensures forall e :: e in DeleteExpired(rows, now) <==> e in rows && !IsExpired(e, now)
  {
    if |rows| > 0 {
      SweptAre(rows[..|rows| - 1], now);
      assert rows == rows[..|rows| - 1] + [rows[|rows| - 1]];
    }
  }

  lemma {:induction false} RemainingAre(t: Text, rows: seq<Entry>, name: string, serverID: string)
    ensures forall e :: e in Remove(t, rows, name, serverID) <==> e in rows && !Hits(t, e, name, serverID)
  {
    if |rows| > 0 {
      RemainingAre(t, rows[..|rows| - 1], name, serverID);
      assert rows == rows[..|rows| - 1] + [rows[|rows| - 1]];
    }
  }

  /** Keeping some rows of a constrained table, and perhaps its next one, breaks nothing. */
  lemma FewerConstrained(rows: seq<Entry>, fewer: seq<Entry>, last: Entry)
    requires Constrained(rows + [last]) && Constrained(fewer) && forall e :: e in fewer ==> e in rows
    ensures Constrained(fewer + [last])
  {
    var all := rows + [last];
    forall i | 0 <= i < |fewer|
      ensures !Collide(fewer[i], last)
    {
      assert fewer[i] in rows;
      var k :| 0 <= k < |rows| && rows[k] == fewer[i];
      assert all[k] == rows[k] && all[|rows|] == last;
    }
  }

  lemma {:induction false} SweepConstrained(rows: seq<Entry>, now: int)
    requires Constrained(rows)
    ensures Constrained(DeleteExpired(rows, now))
  {
    if |rows| > 0 {
      SweepConstrained(rows[..|rows| - 1], now);
      SweptAre(rows[..|rows| - 1], now);
      assert rows == rows[..|rows| - 1] + [rows[|rows| - 1]];
      FewerConstrained(rows[..|rows| - 1], DeleteExpired(rows[..|rows| - 1], now), rows[|rows| - 1]);
    }
  }

  lemma {:induction false} RemoveConstrained(t: Text, rows: seq<Entry>, name: string, serverID: string)
    requires Constrained(rows)
    ensures Constrained(Remove(t, rows, name, serverID))
  {
    hide Hits;
    if |rows| > 0 {
      RemoveConstrained(t, rows[..|rows| - 1], name, serverID);
      RemainingAre(t, rows[..|rows| - 1], name, serverID);
      assert rows == rows[..|rows| - 1] + [rows[|rows| - 1]];
      FewerConstrained(rows[..|rows| - 1], Remove(t, rows[..|rows| - 1], name, serverID), rows[|rows| - 1]);
    }
  }

  lemma SubsetProper(t: Text, rows: seq<Entry>, fewer: seq<Entry>)
    requires Proper(t, rows) && Constrained(fewer) && forall e :: e in fewer ==> e in rows
    ensures Proper(t, fewer)
  {
    forall i | 0 <= i < |fewer|
      ensures fewer[i].lowerName == t.lower(fewer[i].displayName) && (fewer[i].server.Some? ==> |fewer[i].server.value| > 0)
    {
      assert fewer[i] in rows;
    }
  }

  lemma UpsertProper(t: Text, rows: seq<Entry>, e: Entry)
    requires Proper(t, rows) && e.lowerName == t.lower(e.displayName) && (e.server.Some? ==> |e.server.value| > 0)
    ensures Proper(t, Upsert(rows, e))
  {
  }

  lemma SetEnabledProper(t: Text, rows: seq<Entry>, name: string, serverID: string, enabled: bool)
    requires Proper(t, rows)
    ensures Proper(t, SetEnabled(t, rows, name, serverID, enabled))
  {
    hide Hits;
  }

  lemma StepProper(t: Text, rows: seq<Entry>, op: Op)
    requires Proper(t, rows)
    ensures Proper(t, ApplyBlack(t, rows, op)) && Proper(t, ApplyWhite(t, rows, op))
  {
    match op
    case Add(_, name, enabled, reason, serverID, expires) =>
      UpsertProper(t, rows, Created(t, name, enabled, reason, serverID, expires));
    case Enable(name, serverID, enabled) =>
      SetEnabledProper(t, rows, name, serverID, enabled);
    case Drop(name, serverID) =>
      RemainingAre(t, rows, name, serverID);
      RemoveConstrained(t, rows, name, serverID);
      SubsetProper(t, rows, Remove(t, rows, name, serverID));
    case Sweep(at) =>
      SweptAre(rows, at);
      SweepConstrained(rows, at);
      SubsetProper(t, rows, DeleteExpired(rows, at));
  }

  /** In every reachable table the stored lower-case names are right and no two rows of one server share one. */
  lemma {:induction false} RunProper(t: Text, black: bool, ops: seq<Op>)
    ensures Proper(t, RunOps(t, black, ops))
  {
    if |ops| > 0 {
      RunProper(t, black, ops[..|ops| - 1]);
      StepProper(t, RunOps(t, black, ops[..|ops| - 1]), ops[|ops| - 1]);
    }
  }

  // ---------------------------------------------------------------- lookup against scan

  /** Some row for the server matches the player: what scanning the server's list finds. */
  predicate Scan(t: Text, rows: seq<Entry>, name: string, serverID: string, now: int) {
    exists i :: 0 <= i < |rows| && ForServer(rows[i], serverID) && MatchesEntry(t, name, rows[i], now)
  }

  /** What a lookup may return: any row that hits, or nothing when none does. */
  predicate CanReturn(t: Text, rows: seq<Entry>, name: string, serverID: string, r: Option<Entry>) {
    match r
    case None => forall i :: 0 <= i < |rows| ==> !Hits(t, rows[i], name, serverID)
    case Some(e) => exists i :: 0 <= i < |rows| && rows[i] == e && Hits(t, e, name, serverID)
  }

  predicate Found(t: Text, name: string, r: Option<Entry>, now: int) {
    r.Some? && MatchesEntry(t, name, r.value, now)
  }

  /** The rows a lookup chooses from all match the player, or none does. */
  predicate Coherent(t: Text, rows: seq<Entry>, name: string, serverID: string, now: int) {
    forall i, j :: 0 <= i < |rows| && 0 <= j < |rows| && Hits(t, rows[i], name, serverID) && Hits(t, rows[j], name, serverID) ==>
      MatchesEntry(t, name, rows[i], now) == MatchesEntry(t, name, rows[j], now)
  }

  /** A row matches by folding although its lower-case name differs, and no row that a lookup could return matches. */
  predicate FoundByFoldOnly(t: Text, rows: seq<Entry>, name: string, serverID: string, now: int) {
    && (exists i :: 0 <= i < |rows| && ForServer(rows[i], serverID) && MatchesEntry(t, name, rows[i], now)
                    && !Hits(t, rows[i], name, serverID))
    && (forall i :: 0 <= i < |rows| && Hits(t, rows[i], name, serverID) ==> !MatchesEntry(t, name, rows[i], now))
  }

  predicate Agrees(t: Text, rows: seq<Entry>, name: string, serverID: string, now: int) {
    Coherent(t, rows, name, serverID, now) && !FoundByFoldOnly(t, rows, name, serverID, now)
  }

  /** Folding the name with the names in the table is comparing their lower-case forms. */
  predicate FoldAgrees(t: Text, rows: seq<Entry>, name: string) {
    forall i :: 0 <= i < |rows| ==> (t.fold(name, rows[i].displayName) <==> t.lower(name) == t.lower(rows[i].displayName))
  }

  /** At most one row hits. */
  predicate AtMostOne(t: Text, rows: seq<Entry>, name: string, serverID: string) {
    forall i, j :: 0 <= i < j < |rows| ==> !(Hits(t, rows[i], name, serverID) && Hits(t, rows[j], name, serverID))
  }

  /**
    For any folding and any lower-casing: every answer a lookup may give agrees with the scan
    exactly when the rows it chooses from agree and none is found by folding only.
   */
  lemma LookupIsScanIff(t: Text, rows: seq<Entry>, name: string, serverID: string, now: int)
    ensures (forall r :: CanReturn(t, rows, name, serverID, r) ==> (Found(t, name, r, now) <==> Scan(t, rows, name, serverID, now)))
       <==> Agrees(t, rows, name, serverID, now)
  {
    hide Hits, MatchesEntry;
    if Agrees(t, rows, name, serverID, now) {
      forall r | CanReturn(t, rows, name, serverID, r)
        ensures Found(t, name, r, now) <==> Scan(t, rows, name, serverID, now)
      {
        AgreedLookup(t, rows, name, serverID, now, r);
      }
    } else {
      var r := PartingLookup(t, rows, name, serverID, now);
    }
  }

  lemma HitIsForServer(t: Text, e: Entry, name: string, serverID: string)
    ensures Hits(t, e, name, serverID) ==> ForServer(e, serverID)
  {
  }

  lemma AgreedLookup(t: Text, rows: seq<Entry>, name: string, serverID: string, now: int, r: Option<Entry>)
    requires Agrees(t, rows, name, serverID, now) && CanReturn(t, rows, name, serverID, r)
    ensures Found(t, name, r, now) <==> Scan(t, rows, name, serverID, now)
  {
    hide Hits, MatchesEntry, ForServer;
    if r.Some? {
      var i :| 0 <= i < |rows| && rows[i] == r.value && Hits(t, r.value, name, serverID);
      HitIsForServer(t, rows[i], name, serverID);
    }
    if Scan(t, rows, name, serverID, now) {
      var i :| 0 <= i < |rows| && ForServer(rows[i], serverID) && MatchesEntry(t, name, rows[i], now);
      if !Hits(t, rows[i], name, serverID) {
        var j :| 0 <= j < |rows| && Hits(t, rows[j], name, serverID) && MatchesEntry(t, name, rows[j], now);
      }
    }
  }

  /** Otherwise some answer misses what the scan finds. */
  lemma PartingLookup(t: Text, rows: seq<Entry>, name: string, serverID: string, now: int) returns (r: Option<Entry>)
    requires !Agrees(t, rows, name, serverID, now)
    ensures CanReturn(t, rows, name, serverID, r) && !Found(t, name, r, now) && Scan(t, rows, name, serverID, now)
  {
    hide Hits, MatchesEntry, ForServer;
    if !Coherent(t, rows, name, serverID, now) {
      var i, j :| 0 <= i < |rows| && 0 <= j < |rows| && Hits(t, rows[i], name, serverID) && Hits(t, rows[j], name, serverID)
                  && MatchesEntry(t, name, rows[i], now) && !MatchesEntry(t, name, rows[j], now);
      HitIsForServer(t, rows[i], name, serverID);
      r := Some(rows[j]);
    } else if i :| 0 <= i < |rows| && Hits(t, rows[i], name, serverID) {
      r := Some(rows[i]);
    } else {
      r := None;
    }
  }

  lemma OneIsCoherent(t: Text, rows: seq<Entry>, name: string, serverID: string, now: int)
    requires AtMostOne(t, rows, name, serverID)
    ensures Coherent(t, rows, name, serverID, now)
  {
    hide Hits;
  }

  lemma FoldAgreesSuffices(t: Text, rows: seq<Entry>, name: string, serverID: string, now: int)
    requires Lowered(t, rows) && FoldAgrees(t, rows, name)
    ensures !FoundByFoldOnly(t, rows, name, serverID, now)
  {
  }

  /** For a server's own rows the constraint already gives at most one, in every reachable table. */
  lemma ServerRowsAreUnique(t: Text, black: bool, ops: seq<Op>, name: string, serverID: string)
    requires |serverID| > 0
    ensures AtMostOne(t, RunOps(t, black, ops), name, serverID)
  {
    RunProper(t, black, ops);
  }

  /**
    In every reachable table with at most one global row for the name, lookups and scans part exactly
    where a row is found by folding only; never, when folding the name is comparing in lower case.
   */
  lemma UniqueGlobalsSuffice(t: Text, black: bool, ops: seq<Op>, name: string, serverID: string, now: int)
    requires AtMostOne(t, RunOps(t, black, ops), name, "")
    ensures Agrees(t, RunOps(t, black, ops), name, serverID, now) <==> !FoundByFoldOnly(t, RunOps(t, black, ops), name, serverID, now)
    ensures FoldAgrees(t, RunOps(t, black, ops), name) ==> Agrees(t, RunOps(t, black, ops), name, serverID, now)
  {
    var rows := RunOps(t, black, ops);
    if |serverID| > 0 {
      ServerRowsAreUnique(t, black, ops, name, serverID);
    } else {
      assert serverID == "";
    }
    OneIsCoherent(t, rows, name, serverID, now);
    RunProper(t, black, ops);
    if FoldAgrees(t, rows, name) {
      FoldAgreesSuffices(t, rows, name, serverID, now);
    }
  }

  /** For global rows the constraint gives nothing: adding a name keeps its rows unique exactly when there was none. */
  lemma GlobalAddKeepsUniqueIff(t: Text, rows: seq<Entry>, at: int, name: string, enabled: bool, reason: string, expires: Option<int>)
    requires AtMostOne(t, rows, t.trim(name), "")
    ensures AtMostOne(t, ApplyBlack(t, rows, Add(at, name, enabled, reason, "", expires)), t.trim(name), "")
       <==> forall i :: 0 <= i < |rows| ==> !Hits(t, rows[i], t.trim(name), "")
  {
    var e := Created(t, name, enabled, reason, "", expires);
    var after := Upsert(rows, e);
    assert after == rows + [e];
    assert Hits(t, after[|rows|], t.trim(name), "");
    assert forall i :: 0 <= i < |rows| ==> after[i] == rows[i];
    if i :| 0 <= i < |rows| && Hits(t, rows[i], t.trim(name), "") {
      assert Hits(t, after[i], t.trim(name), "");
    }
  }

  /** A new global ban without expiry is found by every lookup exactly when every older row of the name matches too. */
  lemma GlobalBanFoundIff(t: Text, rows: seq<Entry>, at: int, name: string, reason: string, now: int)
    requires t.fold(t.trim(name), t.trim(name))
    ensures var after, banned := ApplyBlack(t, rows, Add(at, name, true, reason, "", None)), t.trim(name);
      && Scan(t, after, banned, "", now)
      && ((forall r :: CanReturn(t, after, banned, "", r) ==> Found(t, banned, r, now))
          <==> forall i :: 0 <= i < |rows| && Hits(t, rows[i], banned, "") ==> MatchesEntry(t, banned, rows[i], now))
  {
    var e, banned := Created(t, name, true, reason, "", None), t.trim(name);
    var after := Upsert(rows, e);
    assert after == rows + [e] && after[|rows|] == e;
    assert ForServer(e, "") && MatchesEntry(t, banned, e, now) && Hits(t, e, banned, "");
    hide Hits, MatchesEntry, ForServer, Upsert, Created;
    if forall r :: CanReturn(t, after, banned, "", r) ==> Found(t, banned, r, now) {
      forall i | 0 <= i < |rows| && Hits(t, rows[i], banned, "")
        ensures MatchesEntry(t, banned, rows[i], now)
      {
        assert after[i] == rows[i];
        assert CanReturn(t, after, banned, "", Some(rows[i]));
      }
    }
    if forall i :: 0 <= i < |rows| && Hits(t, rows[i], banned, "") ==> MatchesEntry(t, banned, rows[i], now) {
      forall r | CanReturn(t, after, banned, "", r)
        ensures Found(t, banned, r, now)
      {
        assert r.Some?;
        var i :| 0 <= i < |after| && after[i] == r.value && Hits(t, r.value, banned, "");
        assert i < |rows| ==> after[i] == rows[i];
      }
    }
  }

  /** So a global ban added over a disabled one is in force for a scan and may be missed by a lookup. */
  lemma SecondGlobalBanCanBeMissed(t: Text, first: int, second: int, name: string, now: int)
    requires t.fold(name, name) && t.trim(name) == name
    ensures var rows := RunOps(t, true, [Add(first, name, false, "", "", None), Add(second, name, true, "", "", None)]);
      && Scan(t, rows, name, "", now)
      && exists r :: CanReturn(t, rows, name, "", r) && !Found(t, name, r, now)
  {
    var disabled, ban := Add(first, name, false, "", "", None), Add(second, name, true, "", "", None);
    var ops := [disabled, ban];
    assert ops[..1] == [disabled] && [disabled][..0] == [];
    var a := Created(t, name, false, "", "", None);
    assert RunOps(t, true, [disabled]) == [a];
    GlobalBanFoundIff(t, [a], second, name, "", now);
    assert [a][0] == a && Hits(t, a, name, "") && !MatchesEntry(t, name, a, now);
  }

  // ---------------------------------------------------------------- cleaning up

  /** Deleting what has expired changes no scan at that time or later. */
  lemma SweepKeepsScan(t: Text, rows: seq<Entry>, at: int, name: string, serverID: string, now: int)
    requires at <= now
    ensures Scan(t, DeleteExpired(rows, at), name, serverID, now) <==> Scan(t, rows, name, serverID, now)
  {
    var fewer := DeleteExpired(rows, at);
    SweptAre(rows, at);
    if Scan(t, rows, name, serverID, now) {
      var i :| 0 <= i < |rows| && ForServer(rows[i], serverID) && MatchesEntry(t, name, rows[i], now);
      assert rows[i] in fewer;
      var j :| 0 <= j < |fewer| && fewer[j] == rows[i];
    }
    if Scan(t, fewer, name, serverID, now) {
      var j :| 0 <= j < |fewer| && ForServer(fewer[j], serverID) && MatchesEntry(t, name, fewer[j], now);
      assert fewer[j] in rows;
      var i :| 0 <= i < |rows| && rows[i] == fewer[j];
    }
  }

  lemma SweepKeepsAgrees(t: Text, rows: seq<Entry>, at: int, name: string, serverID: string, now: int)
    requires at <= now && Agrees(t, rows, name, serverID, now)
    ensures Agrees(t, DeleteExpired(rows, at), name, serverID, now)
  {
    SweptAre(rows, at);
    SweepKeepsMatches(t, rows, at, name, now);
    hide Hits, MatchesEntry, ForServer, DeleteExpired;
    var fewer := DeleteExpired(rows, at);
    forall i, j | 0 <= i < |fewer| && 0 <= j < |fewer| && Hits(t, fewer[i], name, serverID) && Hits(t, fewer[j], name, serverID)
      ensures MatchesEntry(t, name, fewer[i], now) == MatchesEntry(t, name, fewer[j], now)
    {
      assert fewer[i] in rows && fewer[j] in rows;
    }
    forall i | 0 <= i < |fewer| && ForServer(fewer[i], serverID) && MatchesEntry(t, name, fewer[i], now)
               && !Hits(t, fewer[i], name, serverID)
      ensures exists j :: 0 <= j < |fewer| && Hits(t, fewer[j], name, serverID) && MatchesEntry(t, name, fewer[j], now)
    {
      assert fewer[i] in rows;
      var j :| 0 <= j < |rows| && Hits(t, rows[j], name, serverID) && MatchesEntry(t, name, rows[j], now);
      assert rows[j] in fewer;
    }
  }

  lemma SweepKeepsMatches(t: Text, rows: seq<Entry>, at: int, name: string, now: int)
    requires at <= now
    ensures forall e :: e in rows && MatchesEntry(t, name, e, now) ==> e in DeleteExpired(rows, at)
  {
    SweptAre(rows, at);
  }

  // ---------------------------------------------------------------- rows and statements, seen by a caller

  /** An entry counts while it is enabled, up to and including its last instant, for a name equal to its own under folding. */
  lemma MatchesIff(t: Text, name: string, e: Entry, now: int)
    ensures MatchesEntry(t, name, e, now) <==>
              e.enabled && (e.expires == None || now <= e.expires.value) && t.fold(name, e.displayName)
  {
  }

  /** A row without a server, or with an empty one, is global; any other belongs to its server alone. */
  lemma ScopeIff(e: Entry, serverID: string)
    ensures ForServer(e, serverID) <==> (e.server == None && serverID == "") || e.server == Some(serverID)
  {
    assert serverID == "" <==> |serverID| == 0;
  }

  /** Dropping a name for a server leaves no such row and every other one. */
  lemma DropMeans(t: Text, rows: seq<Entry>, name: string, serverID: string)
    ensures forall e :: e in ApplyBlack(t, rows, Drop(name, serverID)) <==>
              e in rows && !(e.lowerName == t.lower(name) && ForServer(e, serverID))
  {
    RemainingAre(t, rows, name, serverID);
  }

  /** Enabling or disabling a name for a server does so for all its rows, and changes nothing else. */
  lemma EnableMeans(t: Text, rows: seq<Entry>, name: string, serverID: string, enabled: bool)
    ensures var after := ApplyBlack(t, rows, Enable(name, serverID, enabled));
      && |after| == |rows|
      && forall i :: 0 <= i < |rows| ==>
           after[i] == if rows[i].lowerName == t.lower(name) && ForServer(rows[i], serverID) then rows[i].(enabled := enabled) else rows[i]
  {
  }

  /** Banning a name on a server leaves it one row there, with what was just given, and no other row is touched. */
  lemma ServerBanMeans(t: Text, rows: seq<Entry>, op: Op)
    requires Proper(t, rows) && op.Add? && op.serverID != ""
    ensures var after, banned := ApplyBlack(t, rows, op), t.trim(op.name);
      && (exists i :: 0 <= i < |after| && Hits(t, after[i], banned, op.serverID))
      && (forall i :: 0 <= i < |after| && Hits(t, after[i], banned, op.serverID) ==>
            after[i].enabled == op.enabled && after[i].reason == op.reason && after[i].expires == op.expires)
      && AtMostOne(t, after, banned, op.serverID)
      && (forall e :: !Hits(t, e, banned, op.serverID) ==> (e in after <==> e in rows))
  {
    var e, banned := Created(t, op.name, op.enabled, op.reason, op.serverID, op.expires), t.trim(op.name);
    var after := Upsert(rows, e);
    UpsertProper(t, rows, e);
    assert |op.serverID| > 0;
    CollidesIsHits(t, e, banned, op.serverID);
    assert e.enabled == op.enabled && e.reason == op.reason && e.expires == op.expires;
    assert Hits(t, e, banned, op.serverID) && Constrained(after);
    OneRowPerServer(t, after, banned, op.serverID);
    assert after == ApplyBlack(t, rows, op);
    hide Created, Proper, Constrained;
    if i :| 0 <= i < |rows| && Collide(e, rows[i]) {
      assert Hits(t, after[i], banned, op.serverID);
      forall j | 0 <= j < |after| && Hits(t, after[j], banned, op.serverID)
        ensures after[j].enabled == op.enabled && after[j].reason == op.reason && after[j].expires == op.expires
      {
        assert Collide(e, after[j]) && Collide(e, rows[j]);
      }
      forall x | !Hits(t, x, banned, op.serverID)
        ensures x in after <==> x in rows
      {
        if x in after {
          var j :| 0 <= j < |after| && after[j] == x;
          assert rows[j] == x;
        }
        if x in rows {
          var j :| 0 <= j < |rows| && rows[j] == x;
          assert after[j] == x;
        }
      }
    } else {
      var last := |rows|;
      assert |after| == last + 1 && after[last] == e;
      assert Hits(t, after[last], banned, op.serverID);
      assert after == rows + [e];
    }
  }

  lemma OneRowPerServer(t: Text, rows: seq<Entry>, name: string, serverID: string)
    requires Constrained(rows) && |serverID| > 0
    ensures AtMostOne(t, rows, name, serverID)
  {
  }

  lemma CollidesIsHits(t: Text, e: Entry, name: string, serverID: string)
    requires e.server == Some(serverID) && e.lowerName == t.lower(name)
    ensures forall x :: Collide(e, x) <==> Hits(t, x, name, serverID) && x.server.Some?
    ensures |serverID| > 0 ==> forall x :: Hits(t, x, name, serverID) ==> x.server.Some?
  {
  }

  /** A global ban is always a new row; the older ones stay. */
  lemma GlobalBanMeans(t: Text, rows: seq<Entry>, op: Op)
    requires op.Add? && op.serverID == ""
    ensures ApplyBlack(t, rows, op) ==
      rows + [Entry(t.trim(op.name), t.lower(t.trim(op.name)), op.enabled, op.reason, None, op.expires)]
  {
  }

  /** A listing is a new row, unless a row of the same server and name refuses it. */
  lemma ListingMeans(t: Text, rows: seq<Entry>, op: Op)
    requires Proper(t, rows) && op.Add?
    ensures var listed := t.trim(op.name);
      ApplyWhite(t, rows, op) ==
        if op.serverID != "" && exists i :: 0 <= i < |rows| && Hits(t, rows[i], listed, op.serverID) then rows
        else rows + [Entry(listed, t.lower(listed), op.enabled, op.reason, if op.serverID == "" then None else Some(op.serverID), op.expires)]
  {
    var e, listed := Created(t, op.name, op.enabled, op.reason, op.serverID, op.expires), t.trim(op.name);
    assert op.serverID == "" <==> |op.serverID| == 0;
    if op.serverID != "" {
      CollidesIsHits(t, e, listed, op.serverID);
    }
  }
}
