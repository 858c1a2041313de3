/**
  Latency histories: the batch meaning of a trace of samples, and the two incremental
  stores that keep it up to date sample by sample.
 */
module LatencyHistory {

  datatype Sample<+T> = Sample(at: int, info: T)

  /** A sample together with the minimum gap in force when it is recorded. */
  datatype Entry<+T> = Entry(sample: Sample<T>, gap: int)

  /** An override can only shorten the configured gap, unless none is configured. */
  function EffectiveGap(configured: int, override_: int): (gap: int)
    ensures override_ <= 0 ==> gap == configured
    ensures override_ > 0 && configured <= 0 ==> gap == override_
    ensures override_ > 0 && configured > 0 ==> gap <= override_ && gap <= configured && (gap == override_ || gap == configured)
  {
    if override_ <= 0 then configured
    else if configured <= 0 || override_ < configured then override_
    else configured
  }

  // ---------------------------------------------------------------- the batch specification

  /** A sample stays iff it is the last one or its successor comes at least the successor's gap later. */
  function Coalesced<T>(trace: seq<Entry<T>>): seq<Sample<T>> {
    if |trace| == 0 then []
    else if |trace| == 1 then [trace[0].sample]
    else
      (if trace[1].sample.at - trace[0].sample.at >= trace[1].gap then [trace[0].sample] else [])
      + Coalesced(trace[1..])
  }

  function Fresh<T>(samples: seq<Sample<T>>, cutoff: int): seq<Sample<T>> {
    if |samples| == 0 then []
    else if samples[0].at < cutoff then Fresh(samples[1..], cutoff)
    else [samples[0]] + Fresh(samples[1..], cutoff)
  }

  /** The last `limit` samples; a limit of zero or less means no limit. */
  function LastN<T>(samples: seq<T>, limit: int): seq<T> {
    if limit > 0 && |samples| > limit then samples[|samples| - limit..] else samples
  }

  function Batch<T>(trace: seq<Entry<T>>, cutoff: int, limit: int): seq<Sample<T>> {
    LastN(Fresh(Coalesced(trace), cutoff), limit)
  }

  predicate Sorted<T>(samples: seq<Sample<T>>) {
    forall i, j :: 0 <= i < j < |samples| ==> samples[i].at <= samples[j].at
  }

  predicate Chronological<T>(trace: seq<Entry<T>>) {
    forall i, j :: 0 <= i < j < |trace| ==> trace[i].sample.at <= trace[j].sample.at
  }

  // ---------------------------------------------------------------- the two incremental updates

  /** The server store skips expired samples from the front. */
  function DropExpired<T>(series: seq<Sample<T>>, cutoff: int): seq<Sample<T>> {
    if |series| > 0 && series[0].at < cutoff then DropExpired(series[1..], cutoff) else series
  }

  function ServerRecord<T>(series: seq<Sample<T>>, e: Entry<T>, retention: int, limit: int): seq<Sample<T>> {
    LiveRecord(DropExpired(series, e.sample.at - retention), e, limit)
  }

  function LiveRecord<T>(live: seq<Sample<T>>, e: Entry<T>, limit: int): seq<Sample<T>> {
    var last := |live| - 1;
    if |live| == 0 then [e.sample]
    else LastN(if e.sample.at - live[last].at < e.gap then live[last := e.sample] else live + [e.sample], limit)
  }

  /** The outbound store filters, and returns early when it replaces the last sample. */
  function OutboundAppend<T>(samples: seq<Sample<T>>, e: Entry<T>, retention: int, limit: int): seq<Sample<T>> {
    var live := Fresh(samples, e.sample.at - retention);
    var last := |live| - 1;
    if |live| > 0 && e.gap > 0 && e.sample.at - live[last].at < e.gap then live[last := e.sample]
    else LastN(live + [e.sample], limit)
  }

  // ---------------------------------------------------------------- the outbound store

  datatype OutboundInfo = OutboundInfo(latencyMs: int, ok: bool)

  class OutboundLatencyHistory {
    var samples: seq<Sample<OutboundInfo>>

    constructor ()
      ensures samples == []
    {
      samples := [];
    }

    method Filtered(cutoff: int) returns (result: seq<Sample<OutboundInfo>>)
      ensures result == Fresh(samples, cutoff)
    {
      result := [];
      for i := 0 to |samples|
        invariant result + Fresh(samples[i..], cutoff) == Fresh(samples, cutoff)
      {
        assert samples[i..][1..] == samples[i + 1..];
        if samples[i].at < cutoff {
          continue;
        }
        result := result + [samples[i]];
      }
    }

    method Append(sample: Sample<OutboundInfo>, retention: int, minIntervalMs: int, storageLimit: int)
      modifies this
      ensures samples == OutboundAppend(old(samples), Entry(sample, minIntervalMs), retention, storageLimit)
    {
      var filtered := Filtered(sample.at - retention);
      if |filtered| > 0 && minIntervalMs > 0 {
        var lastIndex := |filtered| - 1;
        if sample.at - filtered[lastIndex].at < minIntervalMs {
          filtered := filtered[lastIndex := sample];
          samples := filtered;
          return;
        }
      }
      filtered := filtered + [sample];
      if storageLimit > 0 && |filtered| > storageLimit {
        filtered := filtered[|filtered| - storageLimit..];
      }
      samples := filtered;
    }

    /** compact: forgets expired samples and says whether none is left. */
    method Compact(cutoff: int) returns (empty: bool)
      modifies this
      ensures samples == Fresh(old(samples), cutoff) && empty == (samples == [])
    {
      if |samples| == 0 {
        return true;
      }
      var filtered := Filtered(cutoff);
      samples := filtered;
      return |filtered| == 0;
    }
  }

  // ---------------------------------------------------------------- the server store

  datatype ServerInfo = ServerInfo(latencyMs: int, online: bool, stopped: bool, source: string)

  type ServerSeries = seq<Sample<ServerInfo>>

  /** `now` replaces a missing timestamp; a negative latency counts as zero. */
  function Normalized(given: Sample<ServerInfo>, now: int): Sample<ServerInfo> {
    Sample(if given.at <= 0 then now else given.at,
           given.info.(latencyMs := if given.info.latencyMs < 0 then 0 else given.info.latencyMs))
  }

  function Series<ID(==)>(series: map<ID, ServerSeries>, id: ID): ServerSeries {
    if id in series then series[id] else []
  }

  ghost predicate OthersSame<ID(!new)>(before: map<ID, ServerSeries>, after: map<ID, ServerSeries>, id: ID) {
    forall key :: key != id ==> Series(after, key) == Series(before, key)
  }

  /** How many samples a caller gets: the requested number within the configured bounds, never less than one. */
  function ClampLimit(value: int, defaultLimit: int, maxLimit: int): (limit: nat)
    ensures limit >= 1 && (maxLimit > 0 ==> limit <= maxLimit)
    ensures 0 < value <= maxLimit ==> limit == value
  {
    var fallback := if defaultLimit <= 0 then 100 else defaultLimit;
    var most := if maxLimit <= 0 then fallback else maxLimit;
    var wanted := if value <= 0 then fallback else value;
    if wanted > most then most else wanted
  }

  class ServerLatencyHistoryStore<ID(==,!new)> {
    var series: map<ID, ServerSeries>
    const blank: ID      // the empty server ID
    const trim: ID -> ID // strings.TrimSpace
    const retention: nat
    const storageLimit: int
    const renderLimit: int
    const minIntervalMs: int

    constructor (blank: ID, trim: ID -> ID, retention: nat, storageLimit: int, renderLimit: int, minIntervalMs: int)
      ensures series == map[] && this.blank == blank && this.trim == trim
      ensures this.retention == retention && this.storageLimit == storageLimit && this.minIntervalMs == minIntervalMs
      ensures this.renderLimit == renderLimit
    {
      this.blank, this.trim := blank, trim;
      this.renderLimit := renderLimit;
      this.retention := retention;
      this.storageLimit := storageLimit;
      this.minIntervalMs := minIntervalMs;
      series := map[];
    }

    method TrimExpired(id: ID, cutoff: int) returns (live: ServerSeries)
      modifies this
      ensures live == DropExpired(Series(old(series), id), cutoff) == Series(series, id)
      ensures OthersSame(old(series), series, id)
    {
      live := Series(series, id);
      if |live| == 0 {
        return [];
      }
      var start := 0;
      while start < |live| && live[start].at < cutoff
        invariant 0 <= start <= |live|
        invariant DropExpired(live[start..], cutoff) == DropExpired(live, cutoff)
      {
        assert live[start..][1..] == live[start + 1..];
        start := start + 1;
      }
      if start >= |live| {
        series := series - {id};
        return [];
      }
      if start > 0 {
        live := live[start..];
        series := series[id := live];
      }
    }

    method Record(serverID: ID, given: Sample<ServerInfo>, minIntervalOverrideMs: int, now: int)
      modifies this
      ensures trim(serverID) == blank ==> series == old(series)
      ensures trim(serverID) != blank ==>
        var id := trim(serverID);
        var e := Entry(Normalized(given, now), EffectiveGap(minIntervalMs, minIntervalOverrideMs));
        Series(series, id) == ServerRecord(Series(old(series), id), e, retention, storageLimit)
      ensures trim(serverID) != blank ==>
        var s := Series(series, trim(serverID));
        |s| > 0 && s[|s| - 1] == Sample(if given.at <= 0 then now else given.at,
                                        ServerInfo(if given.info.latencyMs < 0 then 0 else given.info.latencyMs,
                                                   given.info.online, given.info.stopped, given.info.source))
      ensures OthersSame(old(series), series, trim(serverID))
    {
      hide DropExpired, LiveRecord;
      var id := trim(serverID);
      if id == blank {
        return;
      }
      var sample := given;
      if sample.at <= 0 {
        sample := sample.(at := now);
      }
      if sample.info.latencyMs < 0 {
        sample := sample.(info := sample.info.(latencyMs := 0));
      }
      assert sample == Normalized(given, now);
      var cutoff := sample.at - retention;
      var minGap := EffectiveGap(minIntervalMs, minIntervalOverrideMs);
      var live := TrimExpired(id, cutoff);
      RecordEndsWithSample(live, Entry(sample, minGap), storageLimit);
      live := Push(live, sample, minGap);
      hide *;
      series := series[id := live];
    }

    /** The sample replaces the last one that is nearer than the gap, or follows it; the oldest make room. */
    method Push(before: ServerSeries, sample: Sample<ServerInfo>, minGap: int) returns (live: ServerSeries)
      ensures live == LiveRecord(before, Entry(sample, minGap), storageLimit)
    {
      live := before;
      if |live| == 0 {
        return [sample];
      }
      var lastIndex := |live| - 1;
      if sample.at - live[lastIndex].at < minGap {
        live := live[lastIndex := sample];
      } else {
        live := live + [sample];
      }
      if storageLimit > 0 && |live| > storageLimit {
        live := live[|live| - storageLimit..];
      }
    }

    method History(serverID: ID, now: int) returns (samples: ServerSeries)
      modifies this
      ensures var id := trim(serverID);
        && (id != blank ==> samples == DropExpired(Series(old(series), id), now - retention) == Series(series, id))
        && (id == blank ==> samples == [] && series == old(series))
        && OthersSame(old(series), series, id)
    {
      var id := trim(serverID);
      if id == blank {
        return [];
      }
      samples := TrimExpired(id, now - retention);
    }

    /** The last samples of every server asked for, at most as many as the clamped limit. */
    method Snapshot(serverIDs: seq<ID>, limit: int, now: int) returns (result: map<ID, ServerSeries>)
      modifies this
      ensures forall id :: id in result <==> id != blank && exists k :: 0 <= k < |serverIDs| && trim(serverIDs[k]) == id
      ensures forall id :: id in result ==>
                && Series(series, id) == DropExpired(Series(old(series), id), now - retention)
                && result[id] == LastN(Series(series, id), ClampLimit(limit, renderLimit, storageLimit))
      ensures forall key :: key !in result ==> Series(series, key) == Series(old(series), key)
    {
      hide DropExpired, Series, LastN;
      var clamped := ClampLimit(limit, renderLimit, storageLimit);
      result := map[];
      for i := 0 to |serverIDs|
        invariant forall k :: 0 <= k < i && trim(serverIDs[k]) != blank ==> trim(serverIDs[k]) in result
        invariant forall id :: id in result ==> id != blank && exists k :: 0 <= k < i && trim(serverIDs[k]) == id
        invariant forall id :: id in result ==>
                    && Series(series, id) == DropExpired(Series(old(series), id), now - retention)
                    && result[id] == LastN(Series(series, id), clamped)
        invariant forall key :: key !in result ==> Series(series, key) == Series(old(series), key)
      {
        var id := trim(serverIDs[i]);
        if id == blank {
          continue;
        }
        DropTwice(Series(old(series), id), now - retention);
        var live := Latest(id, clamped, now - retention);
        result := result[id := live];
      }
    }

    method Latest(id: ID, limit: nat, cutoff: int) returns (live: ServerSeries)
      requires limit > 0
      modifies this
      ensures Series(series, id) == DropExpired(Series(old(series), id), cutoff) && live == LastN(Series(series, id), limit)
      ensures OthersSame(old(series), series, id)
    {
      live := TrimExpired(id, cutoff);
      if |live| > limit {
        live := live[|live| - limit..];
      }
    }
  }

  lemma {:induction false} DropTwice<T>(series: seq<Sample<T>>, cutoff: int)
    ensures DropExpired(DropExpired(series, cutoff), cutoff) == DropExpired(series, cutoff)
  {
    if |series| > 0 && series[0].at < cutoff {
      DropTwice(series[1..], cutoff);
    }
  }

  // ---------------------------------------------------------------- facts about the batch specification

  lemma {:induction false} FreshAppend<T>(a: seq<Sample<T>>, b: seq<Sample<T>>, cutoff: int)
    ensures Fresh(a + b, cutoff) == Fresh(a, cutoff) + Fresh(b, cutoff)
  {
    if |a| == 0 {
      assert a + b == b;
    } else {
      assert (a + b)[1..] == a[1..] + b;
      FreshAppend(a[1..], b, cutoff);
    }
  }

  /** On a sorted list filtering and skipping from the front are the same. */
  lemma {:induction false} SortedFresh<T>(samples: seq<Sample<T>>, cutoff: int)
    requires Sorted(samples)
    ensures Fresh(samples, cutoff) == DropExpired(samples, cutoff)
    ensures Sorted(Fresh(samples, cutoff)) && |Fresh(samples, cutoff)| <= |samples|
    ensures |samples| > 0 && samples[0].at >= cutoff ==> Fresh(samples, cutoff) == samples
  {
    if |samples| > 0 {
      SortedFresh(samples[1..], cutoff);
      if samples[0].at >= cutoff {
        assert |samples| > 1 ==> samples[1..][0] == samples[1];
        assert [samples[0]] + samples[1..] == samples;
      }
    }
  }

  lemma SuffixSorted<T>(samples: seq<Sample<T>>, k: nat)
    requires Sorted(samples) && k <= |samples|
    ensures Sorted(samples[k..])
    ensures k < |samples| ==> forall i :: 0 <= i < k ==> samples[..k][i].at <= samples[k].at
  {
  }

  /** Capping and dropping what is expired commute, because both keep a suffix. */
  lemma FreshLastN<T>(samples: seq<Sample<T>>, cutoff: int, limit: int)
    requires Sorted(samples)
    ensures Fresh(LastN(samples, limit), cutoff) == LastN(Fresh(samples, cutoff), limit)
    ensures DropExpired(LastN(samples, limit), cutoff) == Fresh(LastN(samples, limit), cutoff)
  {
    hide Fresh, DropExpired, Sorted;
    var kept := LastN(samples, limit);
    var k := |samples| - |kept|;
    assert kept == samples[k..];
    SuffixSorted(samples, k);
    SortedFresh(samples, cutoff);
    SortedFresh(kept, cutoff);
    if k > 0 {
      var cut := samples[..k];
      assert samples == cut + kept;
      FreshAppend(cut, kept, cutoff);
      if kept[0].at < cutoff {
        AllExpired(cut, cutoff);
      } else {
        CapSuffix(Fresh(cut, cutoff), kept, limit);
      }
    }
  }

  lemma CapSuffix<T>(front: seq<T>, kept: seq<T>, limit: int)
    requires limit > 0 && |kept| == limit
    ensures LastN(front + kept, limit) == kept
  {
  }

  lemma {:induction false} FreshTwice<T>(samples: seq<Sample<T>>, early: int, late: int)
    requires early <= late
    ensures Fresh(Fresh(samples, early), late) == Fresh(samples, late)
  {
    if |samples| > 0 {
      FreshTwice(samples[1..], early, late);
      if samples[0].at >= early {
        assert Fresh(samples, early)[0] == samples[0];
        assert Fresh(samples, early)[1..] == Fresh(samples[1..], early);
      }
    }
  }

  lemma {:induction false} AllExpired<T>(samples: seq<Sample<T>>, cutoff: int)
    requires forall i :: 0 <= i < |samples| ==> samples[i].at < cutoff
    ensures Fresh(samples, cutoff) == []
  {
    if |samples| > 0 {
      AllExpired(samples[1..], cutoff);
    }
  }

  lemma {:induction false} CoalescedSorted<T>(trace: seq<Entry<T>>)
    requires Chronological(trace)
    ensures Sorted(Coalesced(trace))
    ensures |trace| > 0 ==> |Coalesced(trace)| > 0
    ensures |trace| > 0 ==> Coalesced(trace)[|Coalesced(trace)| - 1] == trace[|trace| - 1].sample
    ensures forall s :: s in Coalesced(trace) ==> |trace| > 0 && trace[0].sample.at <= s.at
  {
    if |trace| > 1 {
      CoalescedSorted(trace[1..]);
    }
  }

  /** How one more entry changes the coalesced list: it replaces the last sample or comes after it. */
  lemma {:induction false} CoalescedAppend<T>(trace: seq<Entry<T>>, e: Entry<T>)
    requires |trace| > 0
    ensures |Coalesced(trace)| > 0
    ensures var kept := Coalesced(trace);
      Coalesced(trace + [e]) ==
        (if e.sample.at - trace[|trace| - 1].sample.at >= e.gap then kept else kept[..|kept| - 1]) + [e.sample]
  {
    var longer := trace + [e];
    assert longer[1..] == trace[1..] + [e];
    if |trace| == 1 {
      assert longer[1..] == [e];
      assert Coalesced([e]) == [e.sample];
    } else {
      CoalescedAppend(trace[1..], e);
      assert longer[1] == trace[1];
    }
  }

  lemma LastNAppend<T>(samples: seq<T>, x: T, limit: int)
    ensures LastN(LastN(samples, limit) + [x], limit) == LastN(samples + [x], limit)
  {
  }

  lemma LastNReplace<T>(samples: seq<T>, x: T, limit: int)
    requires |samples| > 0
    ensures var capped := LastN(samples, limit);
      && |capped| > 0
      && capped[|capped| - 1] == samples[|samples| - 1]
      && capped[|capped| - 1 := x] == LastN(samples[..|samples| - 1] + [x], limit)
  {
    var last := |samples| - 1;
    assert samples[..last] + [x] == samples[last := x];
  }

  lemma LastNTwice<T>(samples: seq<T>, limit: int)
    ensures LastN(LastN(samples, limit), limit) == LastN(samples, limit)
  {
  }

  // ---------------------------------------------------------------- refinement, one sample at a time

  lemma FreshOne<T>(s: Sample<T>, cutoff: int)
    ensures Fresh([s], cutoff) == if s.at < cutoff then [] else [s]
  {
  }

  /** What is fresh after one more entry. */
  lemma FreshStep<T>(trace: seq<Entry<T>>, e: Entry<T>, retention: nat)
    requires Chronological(trace + [e])
    ensures var cutoff := e.sample.at - retention;
      var live := Fresh(Coalesced(trace), cutoff);
      && (|live| > 0 ==> live[|live| - 1] == trace[|trace| - 1].sample)
      && Fresh(Coalesced(trace + [e]), cutoff) ==
           (if |live| == 0 then []
            else if e.sample.at - live[|live| - 1].at < e.gap then live[..|live| - 1] else live) + [e.sample]
  {
    var cutoff := e.sample.at - retention;
    FreshOne(e.sample, cutoff);
    if |trace| == 0 {
      assert trace + [e] == [e];
    } else {
      ChronologicalPrefix(trace, e);
      CoalescedSorted(trace);
      CoalescedAppend(trace, e);
      hide *;
      FreshStepOf(Coalesced(trace), Coalesced(trace + [e]), e, cutoff);
    }
  }

  lemma FreshStepOf<T>(kept: seq<Sample<T>>, longer: seq<Sample<T>>, e: Entry<T>, cutoff: int)
    requires Sorted(kept) && |kept| > 0 && e.sample.at >= cutoff
    requires longer == (if e.sample.at - kept[|kept| - 1].at >= e.gap then kept else kept[..|kept| - 1]) + [e.sample]
    ensures var live := Fresh(kept, cutoff);
      && (|live| > 0 ==> live[|live| - 1] == kept[|kept| - 1])
      && Fresh(longer, cutoff) ==
           (if |live| == 0 then []
            else if e.sample.at - live[|live| - 1].at < e.gap then live[..|live| - 1] else live) + [e.sample]
  {
    FreshOne(e.sample, cutoff);
    FreshReplaced(kept, e.sample, cutoff);
    FreshAppend(kept, [e.sample], cutoff);
    hide Fresh, Sorted;
  }

  /** What is fresh of a sorted history, by its last sample, and with that sample replaced. */
  lemma FreshReplaced<T>(kept: seq<Sample<T>>, s: Sample<T>, cutoff: int)
    requires Sorted(kept) && |kept| > 0
    ensures var live, last := Fresh(kept, cutoff), kept[|kept| - 1];
      && (last.at < cutoff ==> live == [])
      && (last.at >= cutoff ==> |live| > 0 && live[|live| - 1] == last)
      && Fresh(kept[..|kept| - 1] + [s], cutoff) == (if |live| > 0 then live[..|live| - 1] else []) + Fresh([s], cutoff)
  {
    var before, last := kept[..|kept| - 1], kept[|kept| - 1];
    assert kept == before + [last];
    FreshOne(last, cutoff);
    FreshAppend(before, [last], cutoff);
    FreshAppend(before, [s], cutoff);
    if last.at < cutoff {
      AllExpired(before, cutoff);
    }
  }

  /** Both stores, holding the batch result of a trace, hold the batch result of the longer trace after one more sample. */
  lemma RecordRefinesBatch<T>(trace: seq<Entry<T>>, e: Entry<T>, cutoff: int, retention: nat, limit: int)
    requires Chronological(trace + [e]) && cutoff <= e.sample.at - retention
    ensures ServerRecord(Batch(trace, cutoff, limit), e, retention, limit)
         == Batch(trace + [e], e.sample.at - retention, limit)
    ensures OutboundAppend(Batch(trace, cutoff, limit), e, retention, limit)
         == Batch(trace + [e], e.sample.at - retention, limit)
  {
    var next := e.sample.at - retention;
    var live, longer := Fresh(Coalesced(trace), next), Fresh(Coalesced(trace + [e]), next);
    FreshStep(trace, e, retention);
    StoredIsLive(trace, e, cutoff, retention, limit);
    hide Fresh, Coalesced, DropExpired, Chronological, LastN, ServerRecord, OutboundAppend;
    RecordOnLive(Batch(trace, cutoff, limit), live, longer, e, retention, limit);
  }

  /** What either store finds fresh in its capped series is the capped fresh part of the trace. */
  lemma StoredIsLive<T>(trace: seq<Entry<T>>, e: Entry<T>, cutoff: int, retention: nat, limit: int)
    requires Chronological(trace + [e]) && cutoff <= e.sample.at - retention
    ensures var next := e.sample.at - retention;
      var stored, live := Batch(trace, cutoff, limit), Fresh(Coalesced(trace), next);
      && Fresh(stored, next) == LastN(live, limit)
      && DropExpired(stored, next) == LastN(live, limit)
      && (|live| > 0 ==> live[|live| - 1].at <= e.sample.at)
  {
    hide Fresh, Coalesced, DropExpired, Chronological, LastN, Sorted;
    ChronologicalPrefix(trace, e);
    CoalescedSorted(trace);
    var kept := Coalesced(trace);
    SortedFresh(kept, cutoff);
    FreshTwice(kept, cutoff, e.sample.at - retention);
    FreshLastN(Fresh(kept, cutoff), e.sample.at - retention, limit);
    FreshStep(trace, e, retention);
    NewestIsLatest(trace, e);
    NothingFresh<T>(e.sample.at - retention);
  }

  lemma NewestIsLatest<T>(trace: seq<Entry<T>>, e: Entry<T>)
    requires Chronological(trace + [e])
    ensures |trace| > 0 ==> trace[|trace| - 1].sample.at <= e.sample.at
  {
    if |trace| > 0 {
      assert (trace + [e])[|trace| - 1] == trace[|trace| - 1] && (trace + [e])[|trace|] == e;
    }
  }

  lemma NothingFresh<T>(cutoff: int)
    ensures Fresh<T>(Coalesced([]), cutoff) == []
  {
  }

  lemma ChronologicalPrefix<T>(trace: seq<Entry<T>>, e: Entry<T>)
    requires Chronological(trace + [e])
    ensures Chronological(trace)
  {
    forall i, j | 0 <= i < j < |trace|
      ensures trace[i].sample.at <= trace[j].sample.at
    {
      assert (trace + [e])[i] == trace[i] && (trace + [e])[j] == trace[j];
    }
  }

  /** The update of either store, once its fresh samples are known to be the capped fresh samples of the trace. */
  lemma RecordOnLive<T>(stored: seq<Sample<T>>, live: seq<Sample<T>>, longer: seq<Sample<T>>, e: Entry<T>,
                        retention: nat, limit: int)
    requires Fresh(stored, e.sample.at - retention) == LastN(live, limit)
    requires DropExpired(stored, e.sample.at - retention) == LastN(live, limit)
    requires |live| > 0 ==> live[|live| - 1].at <= e.sample.at
    requires longer ==
      (if |live| == 0 then []
       else if e.sample.at - live[|live| - 1].at < e.gap then live[..|live| - 1] else live) + [e.sample]
    ensures ServerRecord(stored, e, retention, limit) == LastN(longer, limit)
    ensures OutboundAppend(stored, e, retention, limit) == LastN(longer, limit)
  {
    hide Fresh, DropExpired, LastN;
    LastNTwice(longer, limit);
    if |live| == 0 {
      LastNEmpty(live, e.sample, limit);
      assert [] + [e.sample] == [e.sample];
    } else {
      LastNAppend(live, e.sample, limit);
      LastNReplace(live, e.sample, limit);
    }
  }

  lemma LastNEmpty<T>(live: seq<T>, x: T, limit: int)
    requires |live| == 0
    ensures LastN(live, limit) == [] && LastN([x], limit) == [x]
  {
  }

  // ---------------------------------------------------------------- what a caller sees

  lemma RecordEndsWithSample<T>(live: seq<Sample<T>>, e: Entry<T>, limit: int)
    ensures var after := LiveRecord(live, e, limit);
      |after| > 0 && after[|after| - 1] == e.sample
  {
  }

  /** A sample is fresh exactly from its cutoff on. */
  lemma {:induction false} FreshIff<T(!new)>(samples: seq<Sample<T>>, cutoff: int)
    ensures forall s :: s in Fresh(samples, cutoff) <==> s in samples && s.at >= cutoff
  {
    if |samples| > 0 {
      FreshIff(samples[1..], cutoff);
      assert samples == [samples[0]] + samples[1..];
    }
  }

  /** The cap keeps the newest samples, as many as it allows. */
  lemma LastNIs<T>(samples: seq<T>, limit: int)
    ensures limit <= 0 ==> LastN(samples, limit) == samples
    ensures limit > 0 ==> |LastN(samples, limit)| == if |samples| <= limit then |samples| else limit
    ensures LastN(samples, limit) == samples[|samples| - |LastN(samples, limit)|..]
  {
  }

  /** How a requested number of samples is clamped. */
  lemma KnownLimits(requested: int, most: int)
    ensures ClampLimit(0, 0, 0) == 100 && ClampLimit(0, 50, 1000) == 50 && ClampLimit(500, 100, 0) == 100
    ensures 0 < most < requested ==> ClampLimit(requested, 100, most) == most
    ensures requested <= 0 && most >= 100 ==> ClampLimit(requested, 100, most) == 100
  {
  }
}
