/**
  Active-time accounting of an outbound: a connection count and timestamps in a runtime
  record that all clones share, against the time actually spent with a connection open.
 */
module ActiveTime {
  import opened Options

  // ---------------------------------------------------------------- one record

  datatype State = State(connCount: int, activeSince: Option<int>, activeDuration: int, lastActive: Option<int>)

  datatype Op = Incr | Decr

  function Start(): State {
    State(0, None, 0, None)
  }

  function AfterIncr(s: State, now: int): State {
    State(s.connCount + 1, if s.connCount == 0 then Some(now) else s.activeSince, s.activeDuration, Some(now))
  }

  function AfterDecr(s: State, now: int): State {
    if s.connCount <= 0 then s
    else
      var closing := s.connCount == 1 && s.activeSince.Some?;
      State(s.connCount - 1,
            if closing then None else s.activeSince,
            if closing then s.activeDuration + (now - s.activeSince.value) else s.activeDuration,
            Some(now))
  }

  function ActiveDuration(s: State, now: int): int {
    if s.connCount > 0 && s.activeSince.Some? then s.activeDuration + (now - s.activeSince.value) else s.activeDuration
  }

  /** The shared record; a zero time is None. */
  class Runtime {
    var connCount: int
    var activeSince: Option<int>
    var activeDuration: int
    var lastActive: Option<int>

    constructor ()
      ensures View() == Start()
    {
      connCount, activeSince, activeDuration, lastActive := 0, None, 0, None;
    }

    function View(): State
      reads this
    {
      State(connCount, activeSince, activeDuration, lastActive)
    }
  }

  /** An outbound as callers hold it: its own configuration, a reference to the runtime record. */
  class ProxyOutbound {
    const name: string
    const runtime: Runtime

    constructor (name: string)
      ensures this.name == name && fresh(runtime) && runtime.View() == Start()
    {
      this.name := name;
      runtime := new Runtime();
    }

    constructor Sharing(name: string, runtime: Runtime)
      ensures this.name == name && this.runtime == runtime
    {
      this.name := name;
      this.runtime := runtime;
    }

    /** A clone is a new object over the same runtime record. */
    method Clone() returns (clone: ProxyOutbound)
      ensures fresh(clone) && clone.name == name && clone.runtime == runtime
    {
      clone := new ProxyOutbound.Sharing(name, runtime);
    }

    method IncrConnCount(now: int)
      modifies runtime
      ensures runtime.View() == AfterIncr(old(runtime.View()), now)
    {
      if runtime.connCount == 0 {
        runtime.activeSince := Some(now);
      }
      runtime.connCount := runtime.connCount + 1;
      runtime.lastActive := Some(now);
    }

    method DecrConnCount(now: int)
      modifies runtime
      ensures runtime.View() == AfterDecr(old(runtime.View()), now)
    {
      if runtime.connCount > 0 {
        runtime.connCount := runtime.connCount - 1;
        runtime.lastActive := Some(now);
        if runtime.connCount == 0 && runtime.activeSince.Some? {
          runtime.activeDuration := runtime.activeDuration + (now - runtime.activeSince.value);
          runtime.activeSince := None;
        }
      }
    }

    method GetActiveDuration(now: int) returns (d: int)
      ensures d == ActiveDuration(runtime.View(), now)
    {
      if runtime.connCount > 0 && runtime.activeSince.Some? {
        return runtime.activeDuration + (now - runtime.activeSince.value);
      }
      return runtime.activeDuration;
    }
  }

  // ---------------------------------------------------------------- runs

  datatype Event = Event(at: int, op: Op)

  function Step(s: State, e: Event): State {
    match e.op
    case Incr => AfterIncr(s, e.at)
    case Decr => AfterDecr(s, e.at)
  }

  function StateAfter(events: seq<Event>): State {
    if |events| == 0 then Start() else Step(StateAfter(events[..|events| - 1]), events[|events| - 1])
  }

  /** Holders that share one record, clones of each other, drive it like one holder: who opens or closes does not matter. */
  method RunThrough(holders: seq<ProxyOutbound>, runtime: Runtime, events: seq<Event>, who: seq<nat>)
    requires forall h :: h in holders ==> h.runtime == runtime
    requires runtime.View() == Start()
    requires |who| == |events| && forall i :: 0 <= i < |who| ==> who[i] < |holders|
    modifies runtime
    ensures runtime.View() == StateAfter(events)
  {
    for i := 0 to |events|
      invariant runtime.View() == StateAfter(events[..i])
    {
      assert events[..i + 1][..i] == events[..i];
      var holder := holders[who[i]];
      assert holder in holders;
      match events[i].op {
        case Incr => holder.IncrConnCount(events[i].at);
        case Decr => holder.DecrConnCount(events[i].at);
      }
    }
    assert events[..|events|] == events;
  }

  predicate Chronological(events: seq<Event>) {
    forall i, j :: 0 <= i < j < |events| ==> events[i].at <= events[j].at
  }

  /** The number of open connections after the events: closing with none open does nothing. */
  function Open(events: seq<Event>): nat {
    if |events| == 0 then 0
    else
      var before := Open(events[..|events| - 1]);
      match events[|events| - 1].op
      case Incr => before + 1
      case Decr => if before > 0 then before - 1 else 0
  }

  /** The number of open connections during the time unit that begins at t: events at t have happened. */
  function OpenAt(events: seq<Event>, t: int): nat {
    if |events| == 0 then 0
    else if events[|events| - 1].at <= t then Open(events)
    else OpenAt(events[..|events| - 1], t)
  }

  /** The time units in [from, until) during which some connection was open, counted one by one. */
  function BusyTime(events: seq<Event>, from: int, until: int): nat
    decreases until - from
  {
    if until <= from then 0 else BusyTime(events, from, until - 1) + if OpenAt(events, until - 1) > 0 then 1 else 0
  }

  lemma {:induction false} BusyConstant(events: seq<Event>, from: int, mid: int, until: int)
    requires from <= mid <= until
    requires forall t :: mid <= t < until ==> (OpenAt(events, t) > 0 <==> Open(events) > 0)
    ensures BusyTime(events, from, until) == BusyTime(events, from, mid) + if Open(events) > 0 then until - mid else 0
    decreases until - mid
  {
    if mid < until {
      BusyConstant(events, from, mid, until - 1);
    }
  }

  /** An event changes nothing before its own time. */
  lemma {:induction false} BusyPast(events: seq<Event>, from: int, until: int)
    requires |events| > 0 && until <= events[|events| - 1].at
    ensures BusyTime(events, from, until) == BusyTime(events[..|events| - 1], from, until)
    decreases until - from
  {
    if from < until {
      BusyPast(events, from, until - 1);
    }
  }

  lemma NothingBefore(from: int, until: int)
    ensures BusyTime([], from, until) == 0
    decreases until - from
  {
    if from < until {
      NothingBefore(from, until - 1);
    }
  }

  /** In every run the count is the number of open connections, and the start time is set exactly while it is positive. */
  lemma {:induction false} CountIsOpen(events: seq<Event>)
    ensures var s := StateAfter(events);
      && s.connCount == Open(events) && s.connCount >= 0
      && (s.activeSince.Some? <==> s.connCount > 0)
  {
    if |events| > 0 {
      CountIsOpen(events[..|events| - 1]);
    }
  }

  lemma {:induction false} DurationSplits(events: seq<Event>, now: int)
    requires Chronological(events) && (|events| > 0 ==> events[|events| - 1].at <= now)
    ensures ActiveDuration(StateAfter(events), now)
         == if |events| == 0 then 0
            else BusyTime(events, events[0].at, now)
  {
    if |events| > 0 {
      var before, last := events[..|events| - 1], events[|events| - 1];
      CountIsOpen(events);
      CountIsOpen(before);
      if |before| == 0 {
        assert BusyTime(events, last.at, last.at) == 0;
      } else {
        assert events[|before| - 1].at <= last.at;
        assert before[0] == events[0];
        DurationSplits(before, last.at);
        BusyPast(events, events[0].at, last.at);
      }
      BusyConstant(events, events[0].at, last.at, now);
    }
  }

  lemma {:induction false} BusyFrom(events: seq<Event>, early: int, start: int, until: int)
    requires early <= start <= until && |events| > 0 && Chronological(events) && start == events[0].at
    ensures BusyTime(events, early, until) == BusyTime(events, start, until)
    decreases until - start
  {
    if start < until {
      BusyFrom(events, early, start, until - 1);
    } else {
      QuietBefore(events, early, start);
    }
  }

  lemma {:induction false} QuietBefore(events: seq<Event>, from: int, until: int)
    requires |events| > 0 && Chronological(events) && until <= events[0].at
    ensures BusyTime(events, from, until) == 0
    decreases until - from
  {
    if from < until {
      QuietBefore(events, from, until - 1);
      NoneOpen(events, until - 1);
    }
  }

  lemma {:induction false} NoneOpen(events: seq<Event>, t: int)
    requires forall i :: 0 <= i < |events| ==> t < events[i].at
    ensures OpenAt(events, t) == 0
  {
    if |events| > 0 {
      NoneOpen(events[..|events| - 1], t);
    }
  }

  /** GetActiveDuration is the total time with a positive count, for every run of opens and closes at nondecreasing times. */
  lemma DurationIsBusyTime(events: seq<Event>, from: int, now: int)
    requires Chronological(events)
    requires |events| > 0 ==> from <= events[0].at && events[|events| - 1].at <= now
    ensures ActiveDuration(StateAfter(events), now) == BusyTime(events, from, now)
  {
    DurationSplits(events, now);
    if |events| == 0 {
      NothingBefore(from, now);
    } else {
      assert |events| > 1 ==> events[0].at <= events[|events| - 1].at;
      BusyFrom(events, from, events[0].at, now);
    }
  }

  /** When the outbound was last used: the last open, or the last close that closed something. */
  function LastUse(events: seq<Event>): Option<int> {
    if |events| == 0 then None
    else
      var before, last := events[..|events| - 1], events[|events| - 1];
      if last.op.Incr? || Open(before) > 0 then Some(last.at) else LastUse(before)
  }

  lemma {:induction false} LastActiveIsLastUse(events: seq<Event>)
    ensures StateAfter(events).lastActive == LastUse(events)
  {
    if |events| > 0 {
      var before := events[..|events| - 1];
      CountIsOpen(before);
      LastActiveIsLastUse(before);
    }
  }
}
