/**
  The session table of the plain UDP proxy: one listener goroutine, one forwarder
  goroutine per session, and a concurrent map they share.  Every atomic map operation
  and every Close is one step, so a run is one interleaving before Stop.
 */
module PlainUdp {
  import opened Options

  /** Sessions are numbered in the order they are created; a session owns one target connection. */
  datatype Session = Session(key: string, forwarder: Forwarder, closes: nat)

  /** Where a session's forwarder stands. */
  datatype Forwarder =
    | Forwarding
    | Leaving           // its loop has ended, about to compare and delete
    | Removed           // it took the entry out, about to close the connection
    | Gone

  /** Where the listener stands between two atomic operations. */
  datatype Listener =
    | Reading
    | Dialling(key: string)                 // Load found no entry for key
    | Storing(key: string)                  // the target connection is open
    | Writing(session: nat)                 // has a session and writes the datagram
    | Dropping(session: nat)                // the write failed for good, about to compare and delete
    | Closing(session: nat)                 // took the entry out, about to close the connection

  datatype Table = Table(clients: map<string, nat>, sessions: seq<Session>, listener: Listener)

  datatype Step =
    | Receive(key: string)                  // a datagram arrives and its key is looked up
    | DialOk
    | DialFails
    | Store                                 // stores the new session and starts its forwarder
    | WriteOk
    | WriteFails
    | ListenerDeletes
    | ListenerCloses
    | ForwarderStops(id: nat)               // read error, idle timeout, failed write or cancellation
    | ForwarderDeletes(id: nat)
    | ForwarderCloses(id: nat)

  predicate Enabled(t: Table, step: Step) {
    match step
    case Receive(_) => t.listener.Reading?
    case DialOk => t.listener.Dialling?
    case DialFails => t.listener.Dialling?
    case Store => t.listener.Storing?
    case WriteOk => t.listener.Writing?
    case WriteFails => t.listener.Writing?
    case ListenerDeletes => t.listener.Dropping? && t.listener.session < |t.sessions|
    case ListenerCloses => t.listener.Closing? && t.listener.session < |t.sessions|
    case ForwarderStops(id) => id < |t.sessions| && t.sessions[id].forwarder.Forwarding?
    case ForwarderDeletes(id) => id < |t.sessions| && t.sessions[id].forwarder.Leaving?
    case ForwarderCloses(id) => id < |t.sessions| && t.sessions[id].forwarder.Removed?
  }

  /** CompareAndDelete: removes the entry only if it still is this session. */
  predicate Matches(t: Table, id: nat)
    requires id < |t.sessions|
  {
    t.sessions[id].key in t.clients && t.clients[t.sessions[id].key] == id
  }

  function Remove(clients: map<string, nat>, key: string): map<string, nat> {
    clients - {key}
  }

  function SetForwarder(sessions: seq<Session>, id: nat, f: Forwarder): seq<Session>
    requires id < |sessions|
  {
    sessions[id := sessions[id].(forwarder := f)]
  }

  function Close(sessions: seq<Session>, id: nat): seq<Session>
    requires id < |sessions|
  {
    sessions[id := sessions[id].(closes := sessions[id].closes + 1)]
  }

  function Apply(t: Table, step: Step): Table
    requires Enabled(t, step)
  {
    match step
    case Receive(key) =>
      t.(listener := if key in t.clients then Writing(t.clients[key]) else Dialling(key))
    case DialOk => t.(listener := Storing(t.listener.key))
    case DialFails => t.(listener := Reading)
    case Store =>
      var id := |t.sessions|;
      t.(clients := t.clients[t.listener.key := id],
         sessions := t.sessions + [Session(t.listener.key, Forwarding, 0)],
         listener := Writing(id))
    case WriteOk => t.(listener := Reading)
    case WriteFails => t.(listener := Dropping(t.listener.session))
    case ListenerDeletes =>
      var id := t.listener.session;
      if Matches(t, id) then t.(clients := Remove(t.clients, t.sessions[id].key), listener := Closing(id))
      else t.(listener := Reading)
    case ListenerCloses => t.(sessions := Close(t.sessions, t.listener.session), listener := Reading)
    case ForwarderStops(id) => t.(sessions := SetForwarder(t.sessions, id, Leaving))
    case ForwarderDeletes(id) =>
      if Matches(t, id) then
        t.(clients := Remove(t.clients, t.sessions[id].key), sessions := SetForwarder(t.sessions, id, Removed))
      else t.(sessions := SetForwarder(t.sessions, id, Gone))
    case ForwarderCloses(id) => t.(sessions := SetForwarder(Close(t.sessions, id), id, Gone))
  }

  predicate IsRun(t: Table, steps: seq<Step>)
    decreases |steps|
  {
    |steps| == 0 || (Enabled(t, steps[0]) && IsRun(Apply(t, steps[0]), steps[1..]))
  }

  function Run(t: Table, steps: seq<Step>): Table
    requires IsRun(t, steps)
    decreases |steps|
  {
    if |steps| == 0 then t else Run(Apply(t, steps[0]), steps[1..])
  }

  function Empty(): Table {
    Table(map[], [], Reading)
  }

  // ---------------------------------------------------------------- one owner per connection

  function One(b: bool): nat {
    if b then 1 else 0
  }

  /** The session is in the table, or someone is about to close it, or it has been closed: exactly one of these, once. */
  predicate Owned(t: Table, id: nat)
    requires id < |t.sessions|
  {
    One(Matches(t, id)) + One(t.sessions[id].forwarder.Removed?) + One(t.listener == Closing(id))
      + t.sessions[id].closes == 1
  }

  ghost predicate TableInv(t: Table) {
    && (forall id :: 0 <= id < |t.sessions| ==> Owned(t, id))
    && (forall key :: key in t.clients ==> t.clients[key] < |t.sessions| && t.sessions[t.clients[key]].key == key)
    && (t.listener.Dialling? ==> t.listener.key !in t.clients)
    && (t.listener.Storing? ==> t.listener.key !in t.clients)
    && (t.listener.Writing? || t.listener.Dropping? || t.listener.Closing? ==> t.listener.session < |t.sessions|)
    && (forall id :: 0 <= id < |t.sessions| && t.sessions[id].forwarder.Gone? ==> !Matches(t, id))
  }

  lemma OwnedAfter(t: Table, step: Step, id: nat)
    requires TableInv(t) && Enabled(t, step) && id < |Apply(t, step).sessions|
    ensures Owned(Apply(t, step), id)
    ensures Apply(t, step).sessions[id].forwarder.Gone? ==> !Matches(Apply(t, step), id)
  {
    if id < |t.sessions| {
      assert Owned(t, id);
    }
  }

  lemma KeysAfter(t: Table, step: Step)
    requires TableInv(t) && Enabled(t, step)
    ensures var after := Apply(t, step);
      && (forall key :: key in after.clients ==>
            after.clients[key] < |after.sessions| && after.sessions[after.clients[key]].key == key)
      && (after.listener.Dialling? ==> after.listener.key !in after.clients)
      && (after.listener.Storing? ==> after.listener.key !in after.clients)
      && (after.listener.Writing? || after.listener.Dropping? || after.listener.Closing? ==>
            after.listener.session < |after.sessions|)
  {
  }

  lemma StepInv(t: Table, step: Step)
    requires TableInv(t) && Enabled(t, step)
    ensures TableInv(Apply(t, step))
  {
    KeysAfter(t, step);
    forall id | 0 <= id < |Apply(t, step).sessions|
      ensures Owned(Apply(t, step), id)
      ensures Apply(t, step).sessions[id].forwarder.Gone? ==> !Matches(Apply(t, step), id)
    {
      OwnedAfter(t, step, id);
    }
    hide Apply, Owned, Matches, Enabled;
  }

  lemma {:induction false} RunInv(t: Table, steps: seq<Step>)
    requires TableInv(t) && IsRun(t, steps)
    ensures TableInv(Run(t, steps))
    decreases |steps|
  {
    if |steps| > 0 {
      StepInv(t, steps[0]);
      RunInv(Apply(t, steps[0]), steps[1..]);
    }
  }

  // ---------------------------------------------------------------- results

  /** In every interleaving every connection is closed at most once, and every session in the table is open. */
  lemma ClosedAtMostOnce(steps: seq<Step>, id: nat)
    requires IsRun(Empty(), steps) && id < |Run(Empty(), steps).sessions|
    ensures var t := Run(Empty(), steps);
      t.sessions[id].closes <= 1 && (Matches(t, id) ==> t.sessions[id].closes == 0)
  {
    RunInv(Empty(), steps);
    assert Owned(Run(Empty(), steps), id);
  }

  /** Nothing leaks: once its forwarder is gone and the listener is idle, a connection has been closed exactly once. */
  lemma ClosedInTheEnd(steps: seq<Step>, id: nat)
    requires IsRun(Empty(), steps) && id < |Run(Empty(), steps).sessions|
    requires Run(Empty(), steps).sessions[id].forwarder.Gone? && Run(Empty(), steps).listener.Reading?
    ensures Run(Empty(), steps).sessions[id].closes == 1
  {
    RunInv(Empty(), steps);
    assert Owned(Run(Empty(), steps), id);
  }

  /** Whatever an old session's goroutines do, the successor under the same address stays in the table and open. */
  lemma SuccessorSurvives(steps: seq<Step>, step: Step, old_: nat, successor: nat)
    requires IsRun(Empty(), steps)
    requires var t := Run(Empty(), steps);
      && old_ < |t.sessions| && successor < |t.sessions| && old_ != successor
      && t.sessions[old_].key == t.sessions[successor].key && Matches(t, successor)
      && Enabled(t, step)
    requires step == ForwarderStops(old_) || step == ForwarderDeletes(old_) || step == ForwarderCloses(old_) ||
      ((step.ListenerDeletes? || step.ListenerCloses?) && Run(Empty(), steps).listener.session == old_)
    ensures var t, after := Run(Empty(), steps), Apply(Run(Empty(), steps), step);
      && Matches(after, successor)
      && after.clients == t.clients
      && after.sessions[successor] == t.sessions[successor]
      && after.sessions[successor].closes == 0
  {
    ClosedAtMostOnce(steps, successor);
  }

  /** A datagram from an address with a live session goes to that session; it never opens a second one. */
  lemma OneSessionPerAddress(steps: seq<Step>, a: nat, b: nat)
    requires IsRun(Empty(), steps)
    requires var t := Run(Empty(), steps);
      a < |t.sessions| && b < |t.sessions| && t.sessions[a].key == t.sessions[b].key && Matches(t, a)
    ensures var t := Run(Empty(), steps);
      Matches(t, b) ==> a == b
    ensures var t := Run(Empty(), steps);
      t.listener.Storing? ==> t.listener.key != t.sessions[a].key
  {
    RunInv(Empty(), steps);
  }

  // ---------------------------------------------------------------- whose session a datagram is written to

  /** A datagram from an address with a session in the table goes to that session, any other one is dialled for. */
  lemma ReceiveFindsSession(steps: seq<Step>, key: string)
    requires IsRun(Empty(), steps) && Enabled(Run(Empty(), steps), Receive(key))
    ensures var t, after := Run(Empty(), steps), Apply(Run(Empty(), steps), Receive(key));
      && after.clients == t.clients && after.sessions == t.sessions
      && (forall id :: 0 <= id < |t.sessions| && t.sessions[id].key == key && Matches(t, id) ==> after.listener == Writing(id))
      && ((forall id :: 0 <= id < |t.sessions| && t.sessions[id].key == key ==> !Matches(t, id)) ==>
            after.listener == Dialling(key))
  {
    RunInv(Empty(), steps);
    var t := Run(Empty(), steps);
    if key in t.clients {
      assert Matches(t, t.clients[key]);
    }
  }

  /** A stored session is new, open, under the dialled address, the one written to, and leaves the others as they were. */
  lemma StoreOpensSession(t: Table)
    requires Enabled(t, Store)
    ensures var after, id := Apply(t, Store), |t.sessions|;
      && |after.sessions| == id + 1 && after.sessions[..id] == t.sessions
      && after.sessions[id] == Session(t.listener.key, Forwarding, 0)
      && Matches(after, id) && after.listener == Writing(id)
      && forall key :: key != t.listener.key ==>
           (key in after.clients <==> key in t.clients) && (key in t.clients ==> after.clients[key] == t.clients[key])
  {
  }

  /** A target that cannot be dialled costs the datagram and nothing else. */
  lemma FailedDialDropsDatagram(t: Table)
    requires Enabled(t, DialFails)
    ensures Apply(t, DialFails) == t.(listener := Reading)
  {
  }

  /** The address of the last datagram received. */
  function LastReceived(steps: seq<Step>): Option<string> {
    if |steps| == 0 then None
    else if steps[|steps| - 1].Receive? then Some(steps[|steps| - 1].key)
    else LastReceived(steps[..|steps| - 1])
  }

  /** What the listener is busy with belongs to the address. */
  predicate BusyFor(t: Table, key: Option<string>) {
    match t.listener
    case Reading => true
    case Dialling(k) => key == Some(k)
    case Storing(k) => key == Some(k)
    case Writing(id) => id < |t.sessions| && key == Some(t.sessions[id].key)
    case Dropping(id) => id < |t.sessions| && key == Some(t.sessions[id].key)
    case Closing(id) => id < |t.sessions| && key == Some(t.sessions[id].key)
  }

  lemma BusyStep(t: Table, step: Step, key: Option<string>)
    requires TableInv(t) && Enabled(t, step) && BusyFor(t, key)
    ensures BusyFor(Apply(t, step), if step.Receive? then Some(step.key) else key)
  {
  }

  lemma {:induction false} RunPrefix(t: Table, steps: seq<Step>)
    requires |steps| > 0 && IsRun(t, steps)
    ensures var init, last := steps[..|steps| - 1], steps[|steps| - 1];
      IsRun(t, init) && Enabled(Run(t, init), last) && Run(t, steps) == Apply(Run(t, init), last)
    decreases |steps|
  {
    if |steps| > 1 {
      var rest := steps[1..];
      RunPrefix(Apply(t, steps[0]), rest);
      assert steps[..|steps| - 1][1..] == rest[..|rest| - 1];
    }
  }

  /** Between a datagram's arrival and the end of its write the listener deals with a session of its own address only. */
  lemma {:induction false} WritesToOwnSession(steps: seq<Step>)
    requires IsRun(Empty(), steps)
    ensures BusyFor(Run(Empty(), steps), LastReceived(steps))
  {
    if |steps| > 0 {
      var init := steps[..|steps| - 1];
      RunPrefix(Empty(), steps);
      WritesToOwnSession(init);
      RunInv(Empty(), init);
      BusyStep(Run(Empty(), init), steps[|steps| - 1], LastReceived(init));
    }
  }
}
