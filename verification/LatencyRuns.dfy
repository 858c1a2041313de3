/**
  Whole runs of the two latency stores: samples interleaved with reads, on one monotone
  clock, for any retention and limit and with any gap per call.
 */
module LatencyRuns {
  import opened LatencyHistory

  /** A recorded sample, or a read at some time. */
  datatype Event<+T> = Record(entry: Entry<T>) | Read(now: int)

  function Time<T>(event: Event<T>): int {
    match event
    case Record(e) => e.sample.at
    case Read(now) => now
  }

  predicate Monotone<T>(events: seq<Event<T>>) {
    forall i, j :: 0 <= i < j < |events| ==> Time(events[i]) <= Time(events[j])
  }

  /** The samples of a run, in order. */
  function Trace<T>(events: seq<Event<T>>): seq<Entry<T>> {
    if |events| == 0 then []
    else
      var before := Trace(events[..|events| - 1]);
      match events[|events| - 1]
      case Record(e) => before + [e]
      case Read(_) => before
  }

  // ---------------------------------------------------------------- the stores after a run

  function ServerAfter<T>(events: seq<Event<T>>, retention: nat, limit: int): seq<Sample<T>> {
    if |events| == 0 then []
    else
      var before := ServerAfter(events[..|events| - 1], retention, limit);
      match events[|events| - 1]
      case Record(e) => ServerRecord(before, e, retention, limit)
      case Read(now) => DropExpired(before, now - retention)
  }

  function OutboundAfter<T>(events: seq<Event<T>>, retention: nat, limit: int): seq<Sample<T>> {
    if |events| == 0 then []
    else
      var before := OutboundAfter(events[..|events| - 1], retention, limit);
      match events[|events| - 1]
      case Record(e) => OutboundAppend(before, e, retention, limit)
      case Read(now) => Fresh(before, now - retention)
  }

  lemma {:induction false} TraceTimes<T>(events: seq<Event<T>>)
    requires Monotone(events)
    ensures Chronological(Trace(events))
    ensures forall k :: 0 <= k < |Trace(events)| ==>
              |events| > 0 && Trace(events)[k].sample.at <= Time(events[|events| - 1])
  {
    if |events| > 0 {
      var before := events[..|events| - 1];
      TraceTimes(before);
      if |before| > 0 {
        assert Time(events[|before| - 1]) <= Time(events[|events| - 1]);
      }
    }
  }

  /** Reading drops exactly what the later clock makes stale. */
  lemma ReadRefinesBatch<T>(trace: seq<Entry<T>>, cutoff: int, later: int, limit: int)
    requires Chronological(trace) && cutoff <= later
    ensures Fresh(Batch(trace, cutoff, limit), later) == Batch(trace, later, limit)
    ensures DropExpired(Batch(trace, cutoff, limit), later) == Batch(trace, later, limit)
  {
    hide Fresh, Coalesced, DropExpired, Chronological, LastN, Sorted;
    CoalescedSorted(trace);
    var kept := Coalesced(trace);
    SortedFresh(kept, cutoff);
    FreshTwice(kept, cutoff, later);
    FreshLastN(Fresh(kept, cutoff), later, limit);
  }

  /**
    After every run, reads included, both stores hold the batch result of the samples
    recorded, cut off at the clock of the last event; so they agree with each other.
   */
  lemma {:induction false} StoresEqualBatch<T>(events: seq<Event<T>>, retention: nat, limit: int)
    requires Monotone(events) && |events| > 0
    ensures var cutoff := Time(events[|events| - 1]) - retention;
      && ServerAfter(events, retention, limit) == Batch(Trace(events), cutoff, limit)
      && OutboundAfter(events, retention, limit) == Batch(Trace(events), cutoff, limit)
  {
    hide ServerRecord, OutboundAppend, DropExpired, Fresh, Batch;
    var before, last := events[..|events| - 1], events[|events| - 1];
    TraceTimes(events);
    TraceTimes(before);
    if |before| == 0 {
      FirstEvent(last, retention, limit);
      assert before == [] && events == [last];
    } else {
      var earlier := Time(before[|before| - 1]) - retention;
      assert Time(events[|before| - 1]) <= Time(last);
      StoresEqualBatch(before, retention, limit);
      match last {
        case Record(e) => RecordRefinesBatch(Trace(before), e, earlier, retention, limit);
        case Read(now) => ReadRefinesBatch(Trace(before), earlier, now - retention, limit);
      }
    }
  }

  lemma FirstEvent<T>(event: Event<T>, retention: nat, limit: int)
    ensures var cutoff := Time(event) - retention;
      && ServerAfter([event], retention, limit) == Batch(Trace([event]), cutoff, limit)
      && OutboundAfter([event], retention, limit) == Batch(Trace([event]), cutoff, limit)
  {
    assert [event][..0] == [];
    assert Trace<T>([]) == [];
    match event
    case Record(e) =>
      assert [] + [e] == [e];
      RecordRefinesBatch([], e, e.sample.at - retention, retention, limit);
    case Read(now) =>
  }

  /** Both stores return the same samples for the same calls. */
  lemma StoresAgree<T>(events: seq<Event<T>>, retention: nat, limit: int)
    requires Monotone(events)
    ensures ServerAfter(events, retention, limit) == OutboundAfter(events, retention, limit)
  {
    if |events| > 0 {
      StoresEqualBatch(events, retention, limit);
    }
  }

  /** Two runs that record the same samples and end at the same time end alike, whatever was read in between. */
  lemma ReadsLeaveNoTrace<T>(one: seq<Event<T>>, two: seq<Event<T>>, retention: nat, limit: int)
    requires Monotone(one) && Monotone(two) && |one| > 0 && |two| > 0
    requires Trace(one) == Trace(two) && Time(one[|one| - 1]) == Time(two[|two| - 1])
    ensures ServerAfter(one, retention, limit) == ServerAfter(two, retention, limit)
    ensures OutboundAfter(one, retention, limit) == OutboundAfter(two, retention, limit)
  {
    StoresEqualBatch(one, retention, limit);
    StoresEqualBatch(two, retention, limit);
  }

  /** The history never exceeds its limit and never holds a sample older than the retention. */
  lemma WithinLimits<T>(events: seq<Event<T>>, retention: nat, limit: int)
    requires Monotone(events) && |events| > 0
    ensures limit > 0 ==> |ServerAfter(events, retention, limit)| <= limit
    ensures forall k :: 0 <= k < |ServerAfter(events, retention, limit)| ==>
              Time(events[|events| - 1]) - retention <= ServerAfter(events, retention, limit)[k].at
  {
    var cutoff := Time(events[|events| - 1]) - retention;
    StoresEqualBatch(events, retention, limit);
    FreshIsFresh(Coalesced(Trace(events)), cutoff);
  }

  lemma {:induction false} FreshIsFresh<T>(samples: seq<Sample<T>>, cutoff: int)
    ensures forall k :: 0 <= k < |Fresh(samples, cutoff)| ==> Fresh(samples, cutoff)[k].at >= cutoff
  {
    if |samples| > 0 {
      FreshIsFresh(samples[1..], cutoff);
    }
  }

  // ---------------------------------------------------------------- many servers in one store

  datatype Keyed<+K, +T> = Keyed(key: K, event: Event<T>)

  function ForKey<K(==), T>(events: seq<Keyed<K, T>>, key: K): seq<Event<T>> {
    if |events| == 0 then []
    else
      var before := ForKey(events[..|events| - 1], key);
      var last := events[|events| - 1];
      if last.key == key then before + [last.event] else before
  }

  function StoreAfter<K(==), T>(events: seq<Keyed<K, T>>, retention: nat, limit: int): map<K, seq<Sample<T>>> {
    if |events| == 0 then map[]
    else
      var before := StoreAfter(events[..|events| - 1], retention, limit);
      var last := events[|events| - 1];
      var series := if last.key in before then before[last.key] else [];
      var next := match last.event
        case Record(e) => ServerRecord(series, e, retention, limit)
        case Read(now) => DropExpired(series, now - retention);
      before[last.key := next]
  }

  /** Each server's series depends on its own events only. */
  lemma {:induction false} KeysAreIndependent<K, T>(events: seq<Keyed<K, T>>, key: K, retention: nat, limit: int)
    ensures var store := StoreAfter(events, retention, limit);
      (if key in store then store[key] else []) == ServerAfter(ForKey(events, key), retention, limit)
  {
    if |events| > 0 {
      var before, last := events[..|events| - 1], events[|events| - 1];
      KeysAreIndependent(before, key, retention, limit);
      if last.key == key {
        var mine := ForKey(events, key);
        assert mine == ForKey(before, key) + [last.event];
        assert mine[..|mine| - 1] == ForKey(before, key);
      }
    }
  }
}
