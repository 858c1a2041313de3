/**
  The streaming assembler: a map from split ID to the fragments received so far, updated
  in place by AddFragment and Cleanup.
 */
module FragmentAssembler {
  import opened Options
  import opened Bytes
  import opened RakNetFrame
  import opened Reassembly

  type Groups = map<nat, Group>

  datatype Added = Added(groups: Groups, packet: Option<Data>)

  // ---------------------------------------------------------------- what the operations compute

  function GroupOf(groups: Groups, id: nat): Group {
    if id in groups then groups[id] else map[]
  }

  ghost function Add(groups: Groups, f: Fragment): Added {
    var g := GroupOf(groups, f.splitID)[f.splitIndex := f];
    if |g| % SIZE32 != f.splitCount then Added(groups[f.splitID := g], None)
    else Added(groups - {f.splitID}, Some(Join(g)))
  }

  predicate Stale(g: Group, now: int, timeout: int) {
    exists i :: i in g && now - g[i].received > timeout
  }

  function Sweep(groups: Groups, now: int, timeout: int): Groups {
    map id | id in groups && !Stale(groups[id], now, timeout) :: groups[id]
  }

  class Assembler {
    var fragments: Groups
    const timeout: int

    constructor (timeout: int)
      ensures fragments == map[] && this.timeout == timeout
    {
      this.timeout := timeout;
      fragments := map[];
    }

    method AddFragment(f: Fragment) returns (packet: Data, complete: bool)
      modifies this
      ensures Added(fragments, if complete then Some(packet) else None) == Add(old(fragments), f)
      ensures !complete ==> packet == [] && f.splitID in fragments
                            && f.splitIndex in fragments[f.splitID] && fragments[f.splitID][f.splitIndex] == f
      ensures complete ==> f.splitID !in fragments
    {
      if f.splitID !in fragments {
        fragments := fragments[f.splitID := map[]];
      }
      var group: Group := fragments[f.splitID][f.splitIndex := f];
      fragments := fragments[f.splitID := group];
      assert fragments == old(fragments)[f.splitID := GroupOf(old(fragments), f.splitID)[f.splitIndex := f]];
      if |fragments[f.splitID]| % SIZE32 != f.splitCount {
        return [], false;
      }
      packet := WriteInOrder(fragments[f.splitID]);
      fragments := fragments - {f.splitID};
      assert fragments == old(fragments) - {f.splitID};
      return packet, true;
    }

    method HasStale(g: Group, now: int) returns (stale: bool)
      ensures stale == Stale(g, now, timeout)
    {
      var rest := g.Keys;
      while rest != {}
        invariant rest <= g.Keys
        invariant forall i :: i in g && i !in rest ==> now - g[i].received <= timeout
        decreases |rest|
      {
        var i :| i in rest;
        if now - g[i].received > timeout {
          return true;
        }
        rest := rest - {i};
      }
      return false;
    }

    method Cleanup(now: int)
      modifies this
      ensures fragments == Sweep(old(fragments), now, timeout)
      ensures forall id :: id in fragments <==>
                id in old(fragments) && forall i :: i in old(fragments)[id] ==> now <= old(fragments)[id][i].received + timeout
    {
      var rest := fragments.Keys;
      while rest != {}
        invariant rest <= old(fragments).Keys && rest <= fragments.Keys
        invariant forall id :: id in rest ==> fragments[id] == old(fragments)[id]
        invariant forall id :: id !in rest ==>
                    (id in fragments <==> id in old(fragments) && !Stale(old(fragments)[id], now, timeout))
        invariant forall id :: id in fragments ==> id in old(fragments) && fragments[id] == old(fragments)[id]
        decreases |rest|
      {
        var id :| id in rest;
        var stale := HasStale(fragments[id], now);
        if stale {
          fragments := fragments - {id};
        }
        rest := rest - {id};
      }
    }
  }

  // ---------------------------------------------------------------- streams of chunks

  /** Which message each split ID names. */
  type Messages = map<nat, seq<Data>>

  predicate AllSendable(messages: Messages) {
    forall id :: id in messages ==> Sendable(messages[id])
  }

  predicate Labelled(f: Fragment, messages: Messages) {
    f.splitID in messages && ChunkOf(f, messages[f.splitID])
  }

  /** A stored group holds correctly labelled chunks of one message: at least one and not all of them. */
  ghost predicate Partial(g: Group, id: nat, messages: Messages) {
    && id in messages
    && (forall i :: i in g ==>
          g[i].splitID == id && g[i].splitIndex == i && i < |messages[id]| && ChunkOf(g[i], messages[id]))
    && g.Keys != {} && g.Keys < Range(|messages[id]|)
  }

  ghost predicate GroupsInv(groups: Groups, messages: Messages) {
    forall id :: id in groups ==> Partial(groups[id], id, messages)
  }

  /** The indices of message `id` received since it last completed or was swept. */
  function Held(groups: Groups, id: nat): set<nat> {
    GroupOf(groups, id).Keys
  }

  /**
    AddFragment completes exactly when the last missing index arrives; it then returns the
    whole message and forgets the group.  Otherwise the group gains the index.  Every
    other group is left alone.
   */
  lemma AddCompletesExactly(groups: Groups, f: Fragment, messages: Messages)
    requires AllSendable(messages) && GroupsInv(groups, messages) && Labelled(f, messages)
    ensures var r := Add(groups, f);
      var n := |messages[f.splitID]|;
      && (r.packet.Some? <==> Held(groups, f.splitID) + {f.splitIndex} == Range(n))
      && (r.packet.Some? ==> r.packet.value == Concat(messages[f.splitID]))
      && Held(r.groups, f.splitID) == (if r.packet.Some? then {} else Held(groups, f.splitID) + {f.splitIndex})
      && (forall id :: id != f.splitID ==> GroupOf(r.groups, id) == GroupOf(groups, id))
      && GroupsInv(r.groups, messages)
  {
    var g := GroupOf(groups, f.splitID)[f.splitIndex := f];
    StoredIsLabelled(groups, f, messages);
    AddVerdict(groups, f, messages[f.splitID]);
    AddKeepsInv(groups, f, g, messages);
    OnlyOneGroup(groups, f.splitID, g);
    hide Add, Join, Concat, Labelled, GroupsInv, AllSendable, GroupOf;
  }

  lemma OnlyOneGroup(groups: Groups, id: nat, g: Group)
    ensures GroupOf(groups - {id}, id) == map[] && GroupOf(groups[id := g], id) == g
    ensures forall other :: other != id ==>
              GroupOf(groups - {id}, other) == GroupOf(groups, other) && GroupOf(groups[id := g], other) == GroupOf(groups, other)
  {
  }

  /** The count test passes exactly when the whole index range is stored. */
  lemma CountTest(g: Group, n: nat)
    requires n < SIZE32 && forall i :: i in g ==> i < n
    ensures |g| % SIZE32 == n <==> g.Keys == Range(n)
  {
    FullRange(g.Keys, n);
    assert |g| == |g.Keys|;
  }

  lemma AddVerdict(groups: Groups, f: Fragment, chunks: seq<Data>)
    requires Sendable(chunks) && f.splitCount == |chunks|
    requires var g := GroupOf(groups, f.splitID)[f.splitIndex := f];
      forall i :: i in g ==> i < |chunks| && g[i].data == chunks[i]
    ensures var g := GroupOf(groups, f.splitID)[f.splitIndex := f];
      && (g.Keys == Range(|chunks|) ==> Add(groups, f) == Added(groups - {f.splitID}, Some(Concat(chunks))))
      && (g.Keys != Range(|chunks|) ==> Add(groups, f) == Added(groups[f.splitID := g], None))
  {
    var g: Group := GroupOf(groups, f.splitID)[f.splitIndex := f];
    CountTest(g, |chunks|);
    if |g| % SIZE32 == f.splitCount {
      WholeGroupJoins(g, chunks);
      assert Add(groups, f) == Added(groups - {f.splitID}, Some(Join(g)));
    } else {
      assert Add(groups, f) == Added(groups[f.splitID := g], None);
    }
  }

  lemma AddKeepsInv(groups: Groups, f: Fragment, g: Group, messages: Messages)
    requires GroupsInv(groups, messages) && f.splitID in messages && Sendable(messages[f.splitID])
    requires f.splitIndex in g
    requires forall i :: i in g ==>
      g[i].splitID == f.splitID && g[i].splitIndex == i && i < |messages[f.splitID]| && ChunkOf(g[i], messages[f.splitID])
    ensures GroupsInv(groups - {f.splitID}, messages)
    ensures g.Keys != Range(|messages[f.splitID]|) ==> GroupsInv(groups[f.splitID := g], messages)
  {
    var all := Range(|messages[f.splitID]|);
    assert g.Keys <= all;
    assert g.Keys != {};
    if g.Keys != all {
      assert Partial(g, f.splitID, messages);
    }
  }

  lemma StoredIsLabelled(groups: Groups, f: Fragment, messages: Messages)
    requires AllSendable(messages) && GroupsInv(groups, messages) && Labelled(f, messages)
    ensures var g := GroupOf(groups, f.splitID)[f.splitIndex := f];
      && g.Keys == Held(groups, f.splitID) + {f.splitIndex}
      && forall i :: i in g ==>
           g[i].splitID == f.splitID && g[i].splitIndex == i && i < |messages[f.splitID]| &&
           ChunkOf(g[i], messages[f.splitID])
  {
    var g := GroupOf(groups, f.splitID)[f.splitIndex := f];
    if f.splitID in groups {
      assert Partial(groups[f.splitID], f.splitID, messages);
    }
  }

  /** Cleanup only removes whole groups and keeps the others as they were. */
  lemma SweepKeepsGroups(groups: Groups, now: int, timeout: int, messages: Messages)
    requires GroupsInv(groups, messages)
    ensures var swept := Sweep(groups, now, timeout);
      && (forall id :: id in groups ==>
            Held(swept, id) == if Stale(groups[id], now, timeout) then {} else Held(groups, id))
      && (forall id :: id in swept ==> id in groups && swept[id] == groups[id])
      && GroupsInv(swept, messages)
  {
  }

  // ---------------------------------------------------------------- whole runs

  datatype Event = Arrive(fragment: Fragment) | CleanupAt(now: int)

  ghost function StateAfter(events: seq<Event>, timeout: int): Groups {
    if |events| == 0 then map[]
    else
      var before := StateAfter(events[..|events| - 1], timeout);
      match events[|events| - 1]
      case Arrive(f) => Add(before, f).groups
      case CleanupAt(now) => Sweep(before, now, timeout)
  }

  /** What the k-th event of a run returns to the caller. */
  ghost function Output(events: seq<Event>, k: nat, timeout: int): Option<Data>
    requires k < |events|
  {
    match events[k]
    case Arrive(f) => Add(StateAfter(events[..k], timeout), f).packet
    case CleanupAt(_) => None
  }

  predicate WellLabelled(events: seq<Event>, messages: Messages) {
    forall k :: 0 <= k < |events| && events[k].Arrive? ==> Labelled(events[k].fragment, messages)
  }

  /** After any stream, every stored group is a nonempty proper part of its message. */
  lemma {:induction false} StoredGroupsArePartial(events: seq<Event>, timeout: int, messages: Messages)
    requires AllSendable(messages) && WellLabelled(events, messages)
    ensures GroupsInv(StateAfter(events, timeout), messages)
  {
    if |events| > 0 {
      var before, last := events[..|events| - 1], events[|events| - 1];
      StoredGroupsArePartial(before, timeout, messages);
      match last {
        case Arrive(f) => AddCompletesExactly(StateAfter(before, timeout), f, messages);
        case CleanupAt(now) => SweepKeepsGroups(StateAfter(before, timeout), now, timeout, messages);
      }
    }
  }

  /** Every packet a run returns is the whole message named by the fragment that completed it. */
  lemma OutputsAreMessages(events: seq<Event>, k: nat, timeout: int, messages: Messages)
    requires AllSendable(messages) && WellLabelled(events, messages) && k < |events|
    requires Output(events, k, timeout).Some?
    ensures events[k].Arrive?
    ensures Output(events, k, timeout).value == Concat(messages[events[k].fragment.splitID])
  {
    StoredGroupsArePartial(events[..k], timeout, messages);
    AddCompletesExactly(StateAfter(events[..k], timeout), events[k].fragment, messages);
  }

  predicate Seen(events: seq<Event>, id: nat, i: nat) {
    exists k :: 0 <= k < |events| && events[k].Arrive? &&
      events[k].fragment.splitID == id && events[k].fragment.splitIndex == i
  }

  predicate IsCompletion(events: seq<Event>, k: nat, id: nat)
    requires k < |events|
  {
    events[k].Arrive? && events[k].fragment.splitID == id
  }

  lemma SeenAppend(before: seq<Event>, last: Event, id: nat, i: nat)
    ensures Seen(before + [last], id, i) <==>
              Seen(before, id, i) || (last.Arrive? && last.fragment.splitID == id && last.fragment.splitIndex == i)
  {
    var events := before + [last];
    if last.Arrive? && last.fragment.splitID == id && last.fragment.splitIndex == i {
      assert events[|before|] == last;
    }
    if Seen(before, id, i) {
      var k :| 0 <= k < |before| && before[k].Arrive? &&
        before[k].fragment.splitID == id && before[k].fragment.splitIndex == i;
      assert events[k] == before[k];
    }
  }

  /** Until message `id` completes for the first time, the indices held are those seen so far. */
  lemma {:induction false} HeldIsSeen(events: seq<Event>, timeout: int, messages: Messages, id: nat)
    requires AllSendable(messages) && WellLabelled(events, messages)
    requires forall k :: 0 <= k < |events| ==> events[k].Arrive?
    requires forall k :: 0 <= k < |events| && IsCompletion(events, k, id) ==> Output(events, k, timeout).None?
    ensures forall i: nat :: i in Held(StateAfter(events, timeout), id) <==> Seen(events, id, i)
  {
    if |events| > 0 {
      var before, last := events[..|events| - 1], events[|events| - 1];
      assert events == before + [last];
      forall k | 0 <= k < |before| && IsCompletion(before, k, id)
        ensures Output(before, k, timeout).None?
      {
        assert before[..k] == events[..k];
        assert IsCompletion(events, k, id);
      }
      HeldIsSeen(before, timeout, messages, id);
      StoredGroupsArePartial(before, timeout, messages);
      AddCompletesExactly(StateAfter(before, timeout), last.fragment, messages);
      assert IsCompletion(events, |before|, last.fragment.splitID);
      forall i: nat
        ensures Seen(events, id, i) <==>
                  Seen(before, id, i) || (last.fragment.splitID == id && last.fragment.splitIndex == i)
      {
        SeenAppend(before, last, id, i);
      }
    }
  }

  /** Without cleanups, a message all of whose chunks have arrived, in any order and interleaving, was returned. */
  lemma EveryMessageIsReturned(events: seq<Event>, timeout: int, messages: Messages, id: nat)
    requires AllSendable(messages) && WellLabelled(events, messages) && id in messages
    requires forall k :: 0 <= k < |events| ==> events[k].Arrive?
    requires forall i: nat :: i < |messages[id]| ==> Seen(events, id, i)
    ensures exists k :: 0 <= k < |events| && IsCompletion(events, k, id) &&
              Output(events, k, timeout) == Some(Concat(messages[id]))
  {
    if k :| 0 <= k < |events| && IsCompletion(events, k, id) && Output(events, k, timeout).Some? {
      OutputsAreMessages(events, k, timeout, messages);
    } else {
      HeldIsSeen(events, timeout, messages, id);
      StoredGroupsArePartial(events, timeout, messages);
      var i := MissingIndex(StateAfter(events, timeout), id, messages);
      assert false;
    }
  }

  lemma MissingIndex(groups: Groups, id: nat, messages: Messages) returns (i: nat)
    requires AllSendable(messages) && GroupsInv(groups, messages) && id in messages
    ensures i < |messages[id]| && i !in Held(groups, id)
  {
    if id in groups {
      assert Partial(groups[id], id, messages);
      var all := Range(|messages[id]|);
      assert !(all <= groups[id].Keys);
      i :| i in all && i !in groups[id].Keys;
    } else {
      i := 0;
    }
  }

  // ---------------------------------------------------------------- without the labelling

  /**
    On any fragments at all: a completed packet consists of exactly the indices below the
    announced count if and only if no index, stored or arriving, is at or above it.
   */
  lemma CompletesWholeIff(groups: Groups, f: Fragment)
    requires Add(groups, f).packet.Some? && |GroupOf(groups, f.splitID)| + 1 < SIZE32
    ensures Held(groups, f.splitID) + {f.splitIndex} == Range(f.splitCount) <==>
              f.splitIndex < f.splitCount && forall i :: i in Held(groups, f.splitID) ==> i < f.splitCount
  {
    var g := GroupOf(groups, f.splitID)[f.splitIndex := f];
    CompletedGroup(groups, f);
    hide Add, GroupOf, Join;
    if forall i :: i in g.Keys ==> i < f.splitCount {
      FullRange(g.Keys, f.splitCount);
    }
  }

  /** What completion says about the group: its size is the count, and the packet is its join. */
  lemma CompletedGroup(groups: Groups, f: Fragment)
    requires Add(groups, f).packet.Some? && |GroupOf(groups, f.splitID)| + 1 < SIZE32
    ensures var g := GroupOf(groups, f.splitID)[f.splitIndex := f];
      && g.Keys == Held(groups, f.splitID) + {f.splitIndex} && |g.Keys| == f.splitCount
      && Add(groups, f).packet.value == Join(g)
  {
    hide Join, GroupOf;
    var g: Group := GroupOf(groups, f.splitID);
    var longer: Group := g[f.splitIndex := f];
    assert |longer| % SIZE32 == f.splitCount && Add(groups, f).packet.value == Join(longer);
    hide Add;
    GroupSize(g, f);
    WithinCount(|longer|, f.splitCount);
  }

  lemma WithinCount(size: nat, count: nat)
    requires size < SIZE32 && size % SIZE32 == count
    ensures size == count
  {
  }

  lemma GroupSize(g: Group, f: Fragment)
    ensures g[f.splitIndex := f].Keys == g.Keys + {f.splitIndex}
    ensures |g[f.splitIndex := f]| <= |g| + 1 && |g[f.splitIndex := f]| == |g[f.splitIndex := f].Keys|
  {
    assert g[f.splitIndex := f].Keys == g.Keys + {f.splitIndex};
  }

  /** And then the packet is the message whose chunks those fragments carry. */
  lemma CompletesMessage(groups: Groups, f: Fragment, chunks: seq<Data>)
    requires Add(groups, f).packet.Some? && |GroupOf(groups, f.splitID)| + 1 < SIZE32 && f.splitCount == |chunks|
    requires f.splitIndex < |chunks| && f.data == chunks[f.splitIndex]
    requires var g := GroupOf(groups, f.splitID);
      forall i :: i in g ==> i < |chunks| && g[i].data == chunks[i]
    ensures Add(groups, f).packet == Some(Concat(chunks))
  {
    CompletesWholeIff(groups, f);
    CompletedGroup(groups, f);
    hide Add, GroupOf, Join, Concat;
    WholeGroupJoins(GroupOf(groups, f.splitID)[f.splitIndex := f], chunks);
  }

  /** AddFragment, unlike the batch reassembler, does not reject an index at or above the count. */
  lemma StrayIndexCompletes(a: Data, b: Data)
    ensures var first := Fragment(0, 0, 2, a, 0);
      var stray := Fragment(0, 5, 2, b, 0);
      Add(Add(map[], first).groups, stray) == Added(map[], Some(a + b))
  {
    var first, stray := Fragment(0, 0, 2, a, 0), Fragment(0, 5, 2, b, 0);
    var g: Group := map[0 := first];
    var full: Group := map[0 := first, 5 := stray];
    assert |g| == 1;
    assert Add(map[], first).groups == map[0 := g];
    assert full.Keys == {0, 5};
    assert |full| == 2;
    assert GroupOf(map[0 := g], 0)[5 := stray] == full;
    TwoPartJoin(full, a, b);
  }

  lemma TwoPartJoin(full: Group, a: Data, b: Data)
    requires full.Keys == {0, 5} && full[0].data == a && full[5].data == b
    ensures Join(full) == a + b
  {
    JoinAny(full, 6);
    JoinBelowSkip(full, 1, 5);
    assert JoinBelow(full, 6) == JoinBelow(full, 5) + b;
    assert JoinBelow(full, 1) == JoinBelow(full, 0) + a;
  }
}
