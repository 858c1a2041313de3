/**
  The access-control manager over its two tables: the decision it takes by lookups, some of
  which may fail, against the decision taken on complete lists.
 */
module AclManager {
  import opened Options
  import opened AclModel

  /** The order of the checks: a ban in force first, then a missing listing. */
  function Judge(s: Settings, banned: bool, listed: bool): DenyType {
    if s.blacklistEnabled && banned then DenyBlacklist
    else if s.whitelistEnabled && !listed then DenyWhitelist
    else DenyNone
  }

  datatype Decision = Decision(kind: DenyType, reason: string, detail: string)

  // ---------------------------------------------------------------- the reference decision

  predicate AnyMatches(t: Text, entries: seq<Entry>, name: string, now: int) {
    exists i :: 0 <= i < |entries| && MatchesEntry(t, name, entries[i], now)
  }

  /** The first entry that matches, which gives the reason of a denial. */
  function FirstMatch(t: Text, entries: seq<Entry>, name: string, now: int): (r: Option<Entry>)
    ensures r.Some? <==> AnyMatches(t, entries, name, now)
  {
    if |entries| == 0 then None
    else if MatchesEntry(t, name, entries[0], now) then Some(entries[0])
    else
      assert forall i :: 0 <= i < |entries| - 1 ==> entries[1..][i] == entries[i + 1];
      FirstMatch(t, entries[1..], name, now)
  }

  method FindEntry(t: Text, entries: seq<Entry>, name: string, now: int) returns (r: Option<Entry>)
    ensures r == FirstMatch(t, entries, name, now)
  {
    for i := 0 to |entries|
      invariant FirstMatch(t, entries[i..], name, now) == FirstMatch(t, entries, name, now)
    {
      assert entries[i..][1..] == entries[i + 1..];
      if MatchesEntry(t, name, entries[i], now) {
        return Some(entries[i]);
      }
    }
    return None;
  }

  /** The entry a scan of the global list and then of the server's list stops at. */
  function BanEntry(t: Text, globalList: seq<Entry>, serverList: seq<Entry>, name: string, now: int): Option<Entry> {
    var entry := FirstMatch(t, globalList, name, now);
    if entry.Some? then entry else FirstMatch(t, serverList, name, now)
  }

  function OrElse(s: string, fallback: string): string {
    if |s| == 0 then fallback else s
  }

  function SettingsOf(settings: Option<Settings>): Settings {
    if settings.Some? then settings.value else DefaultSettings
  }

  method CheckAccessWithEntries(t: Text, name: string, globalBlack: seq<Entry>, serverBlack: seq<Entry>,
                                globalWhite: seq<Entry>, serverWhite: seq<Entry>, settings: Option<Settings>, now: int)
    returns (allowed: bool, reason: string)
    ensures var kind := Judge(SettingsOf(settings),
                              AnyMatches(t, globalBlack, name, now) || AnyMatches(t, serverBlack, name, now),
                              AnyMatches(t, globalWhite, name, now) || AnyMatches(t, serverWhite, name, now));
      && (allowed <==> kind == DenyNone)
      && (allowed <==> |reason| == 0)
    ensures var banned := (settings.None? || settings.value.blacklistEnabled)
                          && (AnyMatches(t, globalBlack, name, now) || AnyMatches(t, serverBlack, name, now));
      var missing := settings.Some? && settings.value.whitelistEnabled
                     && !AnyMatches(t, globalWhite, name, now) && !AnyMatches(t, serverWhite, name, now);
      && (allowed <==> !banned && !missing)
      && (banned ==> reason == OrElse(BanEntry(t, globalBlack, serverBlack, name, now).value.reason, "你已被封禁"))
      && (!banned && missing ==> reason == OrElse(settings.value.whitelistMessage, "你不在白名单中"))
    ensures var kind := Judge(SettingsOf(settings),
                              AnyMatches(t, globalBlack, name, now) || AnyMatches(t, serverBlack, name, now),
                              AnyMatches(t, globalWhite, name, now) || AnyMatches(t, serverWhite, name, now));
      && (kind == DenyBlacklist ==> reason == OrElse(BanEntry(t, globalBlack, serverBlack, name, now).value.reason, BannedText))
      && (kind == DenyWhitelist ==> reason == OrElse(settings.value.whitelistMessage, NotListedText))
  {
    if settings.None? || settings.value.blacklistEnabled {
      var entry := FindEntry(t, globalBlack, name, now);
      if entry.None? {
        entry := FindEntry(t, serverBlack, name, now);
      }
      if entry.Some? {
        return false, OrElse(entry.value.reason, BannedText);
      }
    }
    if settings.None? || !settings.value.whitelistEnabled {
      return true, "";
    }
    var listed := FindEntry(t, globalWhite, name, now);
    if listed.None? {
      listed := FindEntry(t, serverWhite, name, now);
    }
    if listed.Some? {
      return true, "";
    }
    return false, OrElse(settings.value.whitelistMessage, NotListedText);
  }

  /** A server's complete list, in any order. */
  ghost predicate IsListOf(list: seq<Entry>, rows: seq<Entry>, serverID: string) {
    forall e :: e in list <==> e in rows && ForServer(e, serverID)
  }

  lemma ListAnswersScan(t: Text, list: seq<Entry>, rows: seq<Entry>, name: string, serverID: string, now: int)
    requires IsListOf(list, rows, serverID)
    ensures AnyMatches(t, list, name, now) <==> Scan(t, rows, name, serverID, now)
  {
    hide MatchesEntry, ForServer;
    if AnyMatches(t, list, name, now) {
      var i :| 0 <= i < |list| && MatchesEntry(t, name, list[i], now);
      assert list[i] in rows;
      var j :| 0 <= j < |rows| && rows[j] == list[i];
    }
    if Scan(t, rows, name, serverID, now) {
      var j :| 0 <= j < |rows| && ForServer(rows[j], serverID) && MatchesEntry(t, name, rows[j], now);
      assert rows[j] in list;
      var i :| 0 <= i < |list| && list[i] == rows[j];
    }
  }

  // ---------------------------------------------------------------- lookups that may fail

  datatype Faults = Faults(
    serverSettings: bool, globalSettings: bool,
    globalBlack: bool, serverBlack: bool, globalWhite: bool, serverWhite: bool, cleanup: bool)

  const NoFaults := Faults(false, false, false, false, false, false, false)

  predicate FallsToGlobal(stored: map<string, Settings>, serverID: string, f: Faults) {
    |serverID| == 0 || f.serverSettings || serverID !in stored
  }

  function EffectiveSettings(stored: map<string, Settings>, serverID: string, f: Faults): Settings {
    if !FallsToGlobal(stored, serverID, f) then stored[serverID]
    else if !f.globalSettings && "" in stored then stored[""]
    else DefaultSettings
  }

  /** Complete answers to the four questions the decision asks about a player. */
  datatype Answers = Answers(globalBan: bool, serverBan: bool, globalListing: bool, serverListing: bool)

  /** The clock readings of one decision, in the order they are taken; every entry is judged at the reading of its lookup. */
  datatype Clock = Clock(cleanup: int, globalBlack: int, serverBlack: int, globalWhite: int, serverWhite: int) {
    predicate Runs() {
      cleanup <= globalBlack <= serverBlack <= globalWhite <= serverWhite
    }
  }

  function Instant(now: int): Clock {
    Clock(now, now, now, now, now)
  }

  function AnswersOf(t: Text, black: seq<Entry>, white: seq<Entry>, name: string, serverID: string, clock: Clock): Answers {
    Answers(Scan(t, black, name, "", clock.globalBlack), Scan(t, black, name, serverID, clock.serverBlack),
            Scan(t, white, name, "", clock.globalWhite), Scan(t, white, name, serverID, clock.serverWhite))
  }

  /** Each of the four lookups answers like the scan. */
  predicate AllAgree(t: Text, black: seq<Entry>, white: seq<Entry>, name: string, serverID: string, clock: Clock) {
    && Agrees(t, black, name, "", clock.globalBlack) && Agrees(t, black, name, serverID, clock.serverBlack)
    && Agrees(t, white, name, "", clock.globalWhite) && Agrees(t, white, name, serverID, clock.serverWhite)
  }

  /** A failed lookup counts as nothing found. */
  function Surviving(a: Answers, f: Faults): Answers {
    Answers(a.globalBan && !f.globalBlack, a.serverBan && !f.serverBlack,
            a.globalListing && !f.globalWhite, a.serverListing && !f.serverWhite)
  }

  function Kind(s: Settings, a: Answers, serverID: string): DenyType {
    Judge(s, a.globalBan || (|serverID| > 0 && a.serverBan), a.globalListing || (|serverID| > 0 && a.serverListing))
  }

  function KindUnder(stored: map<string, Settings>, a: Answers, serverID: string, f: Faults): DenyType {
    Kind(EffectiveSettings(stored, serverID, f), Surviving(a, f), serverID)
  }

  /** Whether a lookup that the decision really makes fails; later ones are skipped once it is taken. */
  predicate ErrorUnder(stored: map<string, Settings>, a: Answers, serverID: string, f: Faults) {
    var s, got := EffectiveSettings(stored, serverID, f), Surviving(a, f);
    var banned := s.blacklistEnabled && (got.globalBan || (|serverID| > 0 && got.serverBan));
    || (|serverID| > 0 && f.serverSettings)
    || (FallsToGlobal(stored, serverID, f) && f.globalSettings)
    || (s.blacklistEnabled && (f.globalBlack || (!got.globalBan && |serverID| > 0 && f.serverBlack)))
    || (!banned && s.whitelistEnabled && (f.globalWhite || (!got.globalListing && |serverID| > 0 && f.serverWhite)))
  }

  /** A decision reported without error is the one a database without faults would give. */
  lemma NoErrorMeansRight(stored: map<string, Settings>, a: Answers, serverID: string, f: Faults)
    requires !ErrorUnder(stored, a, serverID, f)
    ensures KindUnder(stored, a, serverID, f) == KindUnder(stored, a, serverID, NoFaults)
  {
    assert EffectiveSettings(stored, serverID, f) == EffectiveSettings(stored, serverID, NoFaults);
  }

  /** Errors of every kind let the player in. */
  ghost predicate FailsOpen(stored: map<string, Settings>, a: Answers, serverID: string) {
    forall f :: ErrorUnder(stored, a, serverID, f) ==> KindUnder(stored, a, serverID, f) == DenyNone
  }

  predicate GlobalWhitelist(stored: map<string, Settings>) {
    "" in stored && stored[""].whitelistEnabled
  }

  /**
    The decision lets a player in on every error exactly when the player is not banned and no
    whitelist is enabled, neither by the settings in force nor by the global ones.
   */
  lemma FailsOpenIff(stored: map<string, Settings>, a: Answers, serverID: string)
    ensures FailsOpen(stored, a, serverID) <==>
              && !a.globalBan && (|serverID| == 0 || !a.serverBan)
              && !EffectiveSettings(stored, serverID, NoFaults).whitelistEnabled && !GlobalWhitelist(stored)
  {
    if a.globalBan || (|serverID| > 0 && a.serverBan) {
      BanIsFoundOnError(stored, a, serverID);
    } else if EffectiveSettings(stored, serverID, NoFaults).whitelistEnabled || GlobalWhitelist(stored) {
      var f := MissedListing(stored, a, serverID);
    } else {
      forall f
        ensures KindUnder(stored, a, serverID, f) == DenyNone
      {
        assert EffectiveSettings(stored, serverID, f) in
          [DefaultSettings, EffectiveSettings(stored, serverID, NoFaults)] + if "" in stored then [stored[""]] else [];
      }
    }
  }

  /** With all settings unreadable the defaults apply, and they still deny whoever is banned. */
  lemma BanIsFoundOnError(stored: map<string, Settings>, a: Answers, serverID: string)
    requires a.globalBan || (|serverID| > 0 && a.serverBan)
    ensures var f := NoFaults.(serverSettings := true, globalSettings := true);
      ErrorUnder(stored, a, serverID, f) && KindUnder(stored, a, serverID, f) == DenyBlacklist
  {
    var f := NoFaults.(serverSettings := true, globalSettings := true);
    assert EffectiveSettings(stored, serverID, f) == DefaultSettings;
  }

  /** A whitelist that cannot be read lists nobody. */
  lemma MissedListing(stored: map<string, Settings>, a: Answers, serverID: string) returns (f: Faults)
    requires !a.globalBan && (|serverID| == 0 || !a.serverBan)
    requires EffectiveSettings(stored, serverID, NoFaults).whitelistEnabled || GlobalWhitelist(stored)
    ensures ErrorUnder(stored, a, serverID, f) && KindUnder(stored, a, serverID, f) == DenyWhitelist
  {
    f := NoFaults.(globalWhite := true, serverWhite := true);
    if EffectiveSettings(stored, serverID, NoFaults).whitelistEnabled {
      assert EffectiveSettings(stored, serverID, f) == EffectiveSettings(stored, serverID, NoFaults);
    } else {
      f := f.(serverSettings := true);
      assert EffectiveSettings(stored, serverID, f) == stored[""];
    }
  }

  // ---------------------------------------------------------------- what the decision means

  /** The settings in force: the server's own, else the global ones, else the defaults. */
  function InForce(stored: map<string, Settings>, serverID: string): Settings {
    if serverID != "" && serverID in stored then stored[serverID]
    else if "" in stored then stored[""]
    else Settings(true, false, "你已被封禁", "你不在白名单中")
  }

  /** Some row of the global list, or of the server's own list, matches the player. */
  predicate OnList(t: Text, rows: seq<Entry>, name: string, serverID: string, globalTime: int, serverTime: int) {
    Scan(t, rows, name, "", globalTime) || (serverID != "" && Scan(t, rows, name, serverID, serverTime))
  }

  /** A player is denied for a ban that counts, or else for missing on a whitelist that counts, and for nothing else. */
  lemma VerdictMeans(t: Text, black: seq<Entry>, white: seq<Entry>, stored: map<string, Settings>, name: string,
                     serverID: string, clock: Clock, f: Faults)
    requires f == NoFaults || f == NoFaults.(cleanup := true)
    ensures var kind := KindUnder(stored, AnswersOf(t, black, white, name, serverID, clock), serverID, f);
      var s := InForce(stored, serverID);
      var banned := s.blacklistEnabled && OnList(t, black, name, serverID, clock.globalBlack, clock.serverBlack);
      && (kind == DenyBlacklist <==> banned)
      && (kind == DenyWhitelist <==>
            !banned && s.whitelistEnabled && !OnList(t, white, name, serverID, clock.globalWhite, clock.serverWhite))
    ensures !ErrorUnder(stored, AnswersOf(t, black, white, name, serverID, clock), serverID, f)
  {
    hide Scan;
    assert serverID == "" <==> |serverID| == 0;
  }

  /** A failed lookup that is made is reported; one of a list that is not in use is never made. */
  lemma ReportedErrors(stored: map<string, Settings>, a: Answers, serverID: string, f: Faults)
    ensures f.serverSettings && serverID != "" ==> ErrorUnder(stored, a, serverID, f)
    ensures f.globalSettings && (serverID == "" || serverID !in stored) ==> ErrorUnder(stored, a, serverID, f)
    ensures !f.serverSettings && !f.globalSettings ==>
      var s := EffectiveSettings(stored, serverID, f);
      var unseen := (s.blacklistEnabled ==> !f.globalBlack && !f.serverBlack) && (s.whitelistEnabled ==> !f.globalWhite && !f.serverWhite);
      unseen ==> !ErrorUnder(stored, a, serverID, f)
    ensures var s := EffectiveSettings(stored, serverID, f);
      && (f.globalBlack && s.blacklistEnabled ==> ErrorUnder(stored, a, serverID, f))
      && (f.globalWhite && s.whitelistEnabled && !s.blacklistEnabled ==> ErrorUnder(stored, a, serverID, f))
      && (f.serverBlack && s.blacklistEnabled && serverID != "" && !a.globalBan ==> ErrorUnder(stored, a, serverID, f))
  {
    assert serverID == "" <==> |serverID| == 0;
  }

  /** What a denied player is told for a ban, by the entry that was found and the message of the settings. */
  predicate BanText(t: Text, s: Settings, e: Entry, d: Decision) {
    || d == Decision(DenyBlacklist, OrElse(t.trim(s.defaultMessage), BannedText), OrElse(t.trim(e.reason), "无"))
    || d == Decision(DenyBlacklist, OrElse(OrElse(t.trim(e.reason), t.trim(s.defaultMessage)), BannedText), e.reason)
  }

  // ---------------------------------------------------------------- the manager

  class ACLManager {
    const text: Text
    var blacklist: seq<Entry>
    var whitelist: seq<Entry>
    var settings: map<string, Settings>
    var lastCleanup: Option<int>

    /** One minute, in the unit of the clock readings. */
    const CleanupInterval := 60

    ghost predicate Valid()
      reads this
    {
      Proper(text, blacklist) && Proper(text, whitelist)
    }

    /** Each lookup for this player answers like the scan. */
    ghost predicate LookupsAgree(name: string, serverID: string, clock: Clock)
      reads this
    {
      AllAgree(text, blacklist, whitelist, name, serverID, clock)
    }

    ghost function Answered(name: string, serverID: string, clock: Clock): Answers
      reads this
    {
      AnswersOf(text, blacklist, whitelist, name, serverID, clock)
    }

    constructor (text: Text)
      ensures this.text == text && blacklist == [] && whitelist == [] && settings == map[] && lastCleanup.None? && Valid()
    {
      this.text := text;
      blacklist, whitelist, settings, lastCleanup := [], [], map[], None;
    }

    /** At most once a minute; a deletion that fails is ignored. */
    method CleanupExpiredEntriesIfDue(now: int, f: Faults)
      requires Valid()
      modifies this
      ensures Valid() && settings == old(settings)
      ensures forall name, serverID, clock: Clock :: now <= clock.cleanup && clock.Runs() ==>
                Answered(name, serverID, clock) == old(Answered(name, serverID, clock))
      ensures forall name, serverID, clock: Clock :: now <= clock.cleanup && clock.Runs() && old(LookupsAgree(name, serverID, clock)) ==>
                LookupsAgree(name, serverID, clock)
      ensures old(lastCleanup).Some? && now - old(lastCleanup).value < 60 ==>
                blacklist == old(blacklist) && whitelist == old(whitelist) && lastCleanup == old(lastCleanup)
      ensures !(old(lastCleanup).Some? && now - old(lastCleanup).value < 60) ==>
                && lastCleanup == Some(now)
                && blacklist == (if f.cleanup then old(blacklist) else DeleteExpired(old(blacklist), now))
                && whitelist == (if f.cleanup then old(whitelist) else DeleteExpired(old(whitelist), now))
    {
      hide Scan, Agrees, DeleteExpired, Proper;
      if lastCleanup.Some? && now - lastCleanup.value < CleanupInterval {
        return;
      }
      if !f.cleanup {
        BothSwept(text, blacklist, whitelist, now);
        blacklist := DeleteExpired(blacklist, now);
        whitelist := DeleteExpired(whitelist, now);
      }
      lastCleanup := Some(now);
    }

    static lemma BothSwept(t: Text, black: seq<Entry>, white: seq<Entry>, now: int)
      requires Proper(t, black) && Proper(t, white)
      ensures var b, w := DeleteExpired(black, now), DeleteExpired(white, now);
        && Proper(t, b) && Proper(t, w)
        && (forall name, serverID, clock: Clock :: now <= clock.cleanup && clock.Runs() ==>
              AnswersOf(t, b, w, name, serverID, clock) == AnswersOf(t, black, white, name, serverID, clock))
        && (forall name, serverID, clock: Clock :: now <= clock.cleanup && clock.Runs() && AllAgree(t, black, white, name, serverID, clock) ==>
              AllAgree(t, b, w, name, serverID, clock))
    {
      hide Scan, Agrees, DeleteExpired, Proper;
      Swept(t, black, now);
      Swept(t, white, now);
    }

    /** What deleting the expired rows of a table leaves as it was. */
    static lemma Swept(t: Text, rows: seq<Entry>, now: int)
      requires Proper(t, rows)
      ensures Proper(t, DeleteExpired(rows, now))
      ensures forall name, serverID, at :: now <= at ==>
                (Scan(t, DeleteExpired(rows, now), name, serverID, at) <==> Scan(t, rows, name, serverID, at))
      ensures forall name, serverID, at :: now <= at && Agrees(t, rows, name, serverID, at) ==>
                Agrees(t, DeleteExpired(rows, now), name, serverID, at)
    {
      StepProper(t, rows, Sweep(now));
      forall name, serverID, at | now <= at
        ensures Scan(t, DeleteExpired(rows, now), name, serverID, at) <==> Scan(t, rows, name, serverID, at)
      {
        SweepKeepsScan(t, rows, now, name, serverID, at);
      }
      forall name, serverID, at | now <= at && Agrees(t, rows, name, serverID, at)
        ensures Agrees(t, DeleteExpired(rows, now), name, serverID, at)
      {
        SweepKeepsAgrees(t, rows, now, name, serverID, at);
      }
    }

    /** Any row that hits, or none; a fault gives none, and an error. */
    method GetByName(rows: seq<Entry>, name: string, serverID: string, fault: bool) returns (r: Option<Entry>)
      ensures !fault ==> CanReturn(text, rows, name, serverID, r)
      ensures fault ==> r.None?
    {
      if !fault && exists i :: 0 <= i < |rows| && Hits(text, rows[i], name, serverID) {
        var i :| 0 <= i < |rows| && Hits(text, rows[i], name, serverID);
        return Some(rows[i]);
      }
      return None;
    }

    /** A lookup and the check on what it returned. */
    method Lookup(rows: seq<Entry>, name: string, serverID: string, fault: bool, now: int) returns (r: Option<Entry>)
      ensures Agrees(text, rows, name, serverID, now) ==>
                (r.Some? <==> !fault && Scan(text, rows, name, serverID, now))
      ensures r.Some? ==> r.value in rows && Hits(text, r.value, name, serverID) && MatchesEntry(text, name, r.value, now)
    {
      r := GetByName(rows, name, serverID, fault);
      if !fault && Agrees(text, rows, name, serverID, now) {
        AgreedLookup(text, rows, name, serverID, now, r);
      }
      if r.Some? && !MatchesEntry(text, name, r.value, now) {
        r := None;
      }
    }

    method LoadSettings(serverID: string, f: Faults) returns (s: Settings, error: bool)
      ensures s == EffectiveSettings(settings, serverID, f)
      ensures error <==> (|serverID| > 0 && f.serverSettings) || (FallsToGlobal(settings, serverID, f) && f.globalSettings)
    {
      error := false;
      if |serverID| > 0 {
        error := f.serverSettings;
        if !f.serverSettings && serverID in settings {
          return settings[serverID], error;
        }
      }
      error := error || f.globalSettings;
      if !f.globalSettings && "" in settings {
        return settings[""], error;
      }
      return DefaultSettings, error;
    }

    /** The first two steps: a ban for all servers, then one for this server. */
    method CheckBans(name: string, serverID: string, clock: Clock, f: Faults, s: Settings) returns (d: Option<Decision>, error: bool)
      requires Valid()
      ensures d.Some? ==> d.value.kind == DenyBlacklist && |d.value.reason| > 0
      ensures d.Some? ==> exists e :: e in blacklist && e.lowerName == text.lower(name) && BanText(text, s, e, d.value)
      ensures LookupsAgree(name, serverID, clock) ==>
                var got := Surviving(Answered(name, serverID, clock), f);
                && (d.Some? <==> got.globalBan || (|serverID| > 0 && got.serverBan))
                && (error <==> f.globalBlack || (!got.globalBan && |serverID| > 0 && f.serverBlack))
    {
      hide Scan, Agrees;
      var entry := Lookup(blacklist, name, "", f.globalBlack, clock.globalBlack);
      error := f.globalBlack;
      if entry.Some? {
        var title := OrElse(text.trim(s.defaultMessage), BannedText);
        return Some(Decision(DenyBlacklist, title, OrElse(text.trim(entry.value.reason), "无"))), error;
      }
      if |serverID| > 0 {
        entry := Lookup(blacklist, name, serverID, f.serverBlack, clock.serverBlack);
        error := error || f.serverBlack;
        if entry.Some? {
          var reason := OrElse(text.trim(entry.value.reason), text.trim(s.defaultMessage));
          return Some(Decision(DenyBlacklist, OrElse(reason, BannedText), entry.value.reason)), error;
        }
      }
      return None, error;
    }

    /** The third step: a listing for all servers, then one for this server. */
    method CheckListed(name: string, serverID: string, clock: Clock, f: Faults) returns (listed: bool, error: bool)
      requires Valid()
      ensures LookupsAgree(name, serverID, clock) ==>
                var got := Surviving(Answered(name, serverID, clock), f);
                && (listed <==> got.globalListing || (|serverID| > 0 && got.serverListing))
                && (error <==> f.globalWhite || (!got.globalListing && |serverID| > 0 && f.serverWhite))
    {
      hide Scan, Agrees;
      var entry := Lookup(whitelist, name, "", f.globalWhite, clock.globalWhite);
      error := f.globalWhite;
      if entry.Some? {
        return true, error;
      }
      if |serverID| > 0 {
        entry := Lookup(whitelist, name, serverID, f.serverWhite, clock.serverWhite);
        error := error || f.serverWhite;
        if entry.Some? {
          return true, error;
        }
      }
      return false, error;
    }

    method CheckAccessFull(name: string, serverID: string, clock: Clock, f: Faults) returns (d: Decision, error: bool)
      requires Valid() && clock.Runs()
      modifies this
      ensures Valid() && settings == old(settings)
      ensures forall n, s, later: Clock :: clock.cleanup <= later.cleanup && later.Runs() ==> Answered(n, s, later) == old(Answered(n, s, later))
      ensures old(LookupsAgree(name, serverID, clock)) ==>
                && d.kind == KindUnder(settings, old(Answered(name, serverID, clock)), serverID, f)
                && (error <==> ErrorUnder(settings, old(Answered(name, serverID, clock)), serverID, f))
      ensures f == NoFaults || f == NoFaults.(cleanup := true) ==> old(LookupsAgree(name, serverID, clock)) ==>
                var s := InForce(settings, serverID);
                var banned := s.blacklistEnabled && old(OnList(text, blacklist, name, serverID, clock.globalBlack, clock.serverBlack));
                && (d.kind == DenyBlacklist <==> banned)
                && (d.kind == DenyWhitelist <==>
                      !banned && s.whitelistEnabled
                      && !old(OnList(text, whitelist, name, serverID, clock.globalWhite, clock.serverWhite)))
                && !error
      ensures d.kind == DenyNone <==> |d.reason| == 0
      ensures d.kind == DenyBlacklist ==>
                exists e :: e in blacklist && e.lowerName == text.lower(name)
                            && BanText(text, EffectiveSettings(settings, serverID, f), e, d)
      ensures d.kind == DenyWhitelist ==>
                d.reason == OrElse(text.trim(EffectiveSettings(settings, serverID, f).whitelistMessage), NotListedText)
    {
      hide Scan, Agrees, KindUnder, ErrorUnder, AnswersOf, BanText, EffectiveSettings;
      if f == NoFaults || f == NoFaults.(cleanup := true) {
        VerdictMeans(text, blacklist, whitelist, settings, name, serverID, clock, f);
      }
      hide OnList, InForce;
      CleanupExpiredEntriesIfDue(clock.cleanup, f);
      d, error := Decide(name, serverID, clock, f);
    }

    /** The decision on the tables as they are. */
    method Decide(name: string, serverID: string, clock: Clock, f: Faults) returns (d: Decision, error: bool)
      requires Valid()
      ensures LookupsAgree(name, serverID, clock) ==>
                && d.kind == KindUnder(settings, Answered(name, serverID, clock), serverID, f)
                && (error <==> ErrorUnder(settings, Answered(name, serverID, clock), serverID, f))
      ensures d.kind == DenyNone <==> |d.reason| == 0
      ensures d.kind == DenyBlacklist ==>
                exists e :: e in blacklist && e.lowerName == text.lower(name)
                            && BanText(text, EffectiveSettings(settings, serverID, f), e, d)
      ensures d.kind == DenyWhitelist ==>
                d.reason == OrElse(text.trim(EffectiveSettings(settings, serverID, f).whitelistMessage), NotListedText)
    {
      hide Scan, Agrees, BanText;
      var s, settingsError := LoadSettings(serverID, f);
      var banError, listError := false, false;
      if s.blacklistEnabled {
        var ban;
        ban, banError := CheckBans(name, serverID, clock, f, s);
        if ban.Some? {
          return ban.value, settingsError || banError;
        }
      }
      if !s.whitelistEnabled {
        return Decision(DenyNone, "", ""), settingsError || banError;
      }
      var listed;
      listed, listError := CheckListed(name, serverID, clock, f);
      error := settingsError || banError || listError;
      if listed {
        return Decision(DenyNone, "", ""), error;
      }
      return Decision(DenyWhitelist, OrElse(text.trim(s.whitelistMessage), NotListedText), ""), error;
    }

    /** Access fails open: it is denied only by a decision taken without error, and that decision is the faultless one. */
    method CheckAccessWithError(name: string, serverID: string, clock: Clock, f: Faults)
      returns (allowed: bool, reason: string, error: bool)
      requires Valid() && clock.Runs()
      modifies this
      ensures Valid()
      ensures error ==> allowed
      ensures allowed <==> |reason| == 0
      ensures old(LookupsAgree(name, serverID, clock)) ==>
                && (error <==> ErrorUnder(settings, old(Answered(name, serverID, clock)), serverID, f))
                && (allowed <==> error || KindUnder(settings, old(Answered(name, serverID, clock)), serverID, NoFaults) == DenyNone)
    {
      ghost var a := Answered(name, serverID, clock);
      var d;
      d, error := CheckAccessFull(name, serverID, clock, f);
      if !ErrorUnder(settings, a, serverID, f) {
        NoErrorMeansRight(settings, a, serverID, f);
      }
      if error {
        return true, "", error;
      }
      return d.kind == DenyNone, d.reason, error;
    }

    method AddToBlacklist(now: int, name: string, enabled: bool, reason: string, serverID: string, expires: Option<int>)
      requires Valid()
      modifies this
      ensures Valid() && whitelist == old(whitelist) && settings == old(settings)
      ensures blacklist == ApplyBlack(text, old(blacklist), Add(now, name, enabled, reason, serverID, expires))
    {
      StepProper(text, blacklist, Add(now, name, enabled, reason, serverID, expires));
      blacklist := Upsert(blacklist, Created(text, name, enabled, reason, serverID, expires));
    }

    method AddToWhitelist(now: int, name: string, enabled: bool, reason: string, serverID: string, expires: Option<int>) returns (ok: bool)
      requires Valid()
      modifies this
      ensures Valid() && blacklist == old(blacklist) && settings == old(settings)
      ensures whitelist == ApplyWhite(text, old(whitelist), Add(now, name, enabled, reason, serverID, expires))
      ensures ok <==> Insert(old(whitelist), Created(text, name, enabled, reason, serverID, expires)).Some?
    {
      StepProper(text, whitelist, Add(now, name, enabled, reason, serverID, expires));
      var after := Insert(whitelist, Created(text, name, enabled, reason, serverID, expires));
      if after.Some? {
        whitelist := after.value;
      }
      return after.Some?;
    }
  }

  // ---------------------------------------------------------------- the two decisions

  /** What CheckAccessWithEntries decides on complete lists of both tables. */
  function ReferenceKind(t: Text, black: seq<Entry>, white: seq<Entry>, s: Settings, name: string, serverID: string, now: int): DenyType {
    Judge(s, Scan(t, black, name, "", now) || Scan(t, black, name, serverID, now),
             Scan(t, white, name, "", now) || Scan(t, white, name, serverID, now))
  }

  /** The decision by lookups, without faults and at one instant, is the reference decision. */
  lemma FullIsReference(t: Text, black: seq<Entry>, white: seq<Entry>, stored: map<string, Settings>, name: string,
                        serverID: string, now: int)
    ensures KindUnder(stored, AnswersOf(t, black, white, name, serverID, Instant(now)), serverID, NoFaults)
         == ReferenceKind(t, black, white, EffectiveSettings(stored, serverID, NoFaults), name, serverID, now)
  {
    hide Scan;
    if |serverID| == 0 {
      assert serverID == "";
    }
  }

  /** Both decisions, taken one after the other on the same tables, allow the same players. */
  method BothDecisions(m: ACLManager, name: string, serverID: string, now: int,
                       globalBlack: seq<Entry>, serverBlack: seq<Entry>, globalWhite: seq<Entry>, serverWhite: seq<Entry>)
    returns (byLookup: bool, byLists: bool)
    requires m.Valid() && m.LookupsAgree(name, serverID, Instant(now))
    requires IsListOf(globalBlack, m.blacklist, "") && IsListOf(serverBlack, m.blacklist, serverID)
    requires IsListOf(globalWhite, m.whitelist, "") && IsListOf(serverWhite, m.whitelist, serverID)
    modifies m
    ensures byLookup == byLists
  {
    hide Scan, Agrees, AnyMatches, BanEntry;
    var t := m.text;
    var s, _ := m.LoadSettings(serverID, NoFaults);
    ghost var black, white := m.blacklist, m.whitelist;
    ListAnswersScan(t, globalBlack, black, name, "", now);
    ListAnswersScan(t, serverBlack, black, name, serverID, now);
    ListAnswersScan(t, globalWhite, white, name, "", now);
    ListAnswersScan(t, serverWhite, white, name, serverID, now);
    FullIsReference(t, black, white, m.settings, name, serverID, now);
    var reason;
    byLists, reason := CheckAccessWithEntries(t, name, globalBlack, serverBlack, globalWhite, serverWhite, Some(s), now);
    var d, _ := m.CheckAccessFull(name, serverID, Instant(now), NoFaults);
    byLookup := d.kind == DenyNone;
  }

  /**
    In reachable tables with at most one global row for the player, in which folding the name is comparing it
    in lower case, the lookups agree: this is when both decisions are known to be the same.
   */
  lemma ReachableLookupsAgree(t: Text, blackOps: seq<Op>, whiteOps: seq<Op>, name: string, serverID: string, clock: Clock)
    requires AtMostOne(t, RunOps(t, true, blackOps), name, "") && FoldAgrees(t, RunOps(t, true, blackOps), name)
    requires AtMostOne(t, RunOps(t, false, whiteOps), name, "") && FoldAgrees(t, RunOps(t, false, whiteOps), name)
    ensures AllAgree(t, RunOps(t, true, blackOps), RunOps(t, false, whiteOps), name, serverID, clock)
  {
    UniqueGlobalsSuffice(t, true, blackOps, name, "", clock.globalBlack);
    UniqueGlobalsSuffice(t, true, blackOps, name, serverID, clock.serverBlack);
    UniqueGlobalsSuffice(t, false, whiteOps, name, "", clock.globalWhite);
    UniqueGlobalsSuffice(t, false, whiteOps, name, serverID, clock.serverWhite);
  }
}
