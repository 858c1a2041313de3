/**
  Fragment groups: joining them in index order, and the two reassemblers built on that.
 */
module Reassembly {
  import opened Bytes
  import opened RakNetFrame

  type Group = map<nat, Fragment>

  // ---------------------------------------------------------------- joining a group

  /** The data of the fragments whose index is below n, in index order. */
  ghost function JoinBelow(g: Group, n: nat): Data {
    if n == 0 then [] else JoinBelow(g, n - 1) + if n - 1 in g then g[n - 1].data else []
  }

  /** One above the largest member, or zero. */
  ghost function Bound(keys: set<nat>): (n: nat)
    ensures forall k :: k in keys ==> k < n
  {
    if keys == {} then 0
    else
      var k :| k in keys;
      assert forall j :: j in keys ==> j == k || j in keys - {k};
      var rest := Bound(keys - {k});
      if rest <= k then k + 1 else rest
  }

  /** All of the group's data, in index order. */
  ghost function Join(g: Group): Data {
    JoinBelow(g, Bound(g.Keys))
  }

  lemma {:induction false} JoinBelowBound(g: Group, m: nat, n: nat)
    requires m <= n && forall k :: k in g ==> k < m
    ensures JoinBelow(g, n) == JoinBelow(g, m)
    decreases n
  {
    if m < n {
      JoinBelowBound(g, m, n - 1);
    }
  }

  lemma JoinAny(g: Group, n: nat)
    requires forall k :: k in g ==> k < n
    ensures Join(g) == JoinBelow(g, n)
  {
    var b := Bound(g.Keys);
    if b <= n {
      JoinBelowBound(g, b, n);
    } else {
      JoinBelowBound(g, n, b);
    }
  }

  lemma {:induction false} JoinBelowSkip(g: Group, m: nat, n: nat)
    requires m <= n && forall k :: m <= k < n ==> k !in g
    ensures JoinBelow(g, n) == JoinBelow(g, m)
    decreases n
  {
    if m < n {
      JoinBelowSkip(g, m, n - 1);
    }
  }

  method Smallest(keys: set<nat>) returns (k: nat)
    requires keys != {}
    ensures k in keys && forall j :: j in keys ==> k <= j
  {
    k :| k in keys;
    var rest := keys - {k};
    while rest != {}
      invariant k in keys && rest <= keys
      invariant forall j :: j in keys && j !in rest ==> k <= j
      decreases |rest|
    {
      var j :| j in rest;
      if j < k {
        k := j;
      }
      rest := rest - {j};
    }
  }

  /** The index list after sort.Slice: every key once, in ascending order. */
  method SortedIndices(g: Group) returns (indices: seq<nat>)
    ensures forall k :: k in indices <==> k in g
    ensures forall i, j :: 0 <= i < j < |indices| ==> indices[i] < indices[j]
  {
    var rest := g.Keys;
    indices := [];
    while rest != {}
      invariant rest <= g.Keys
      invariant forall k :: k in g <==> k in rest || k in indices
      invariant forall i, j :: 0 <= i < j < |indices| ==> indices[i] < indices[j]
      invariant forall i, k :: 0 <= i < |indices| && k in rest ==> indices[i] < k
      decreases |rest|
    {
      var k := Smallest(rest);
      rest := rest - {k};
      indices := indices + [k];
    }
  }

  /** Writing the fragments in the order of the sorted index list yields the join. */
  method WriteInOrder(g: Group) returns (packet: Data)
    ensures packet == Join(g)
  {
    var indices := SortedIndices(g);
    packet := [];
    ghost var done := 0;
    for i := 0 to |indices|
      invariant done == if i == 0 then 0 else indices[i - 1] + 1
      invariant packet == JoinBelow(g, done)
    {
      forall k | done <= k < indices[i]
        ensures k !in g
      {
        assert forall j :: 0 <= j < |indices| ==> indices[j] != k;
      }
      JoinBelowSkip(g, done, indices[i]);
      packet := packet + g[indices[i]].data;
      done := indices[i] + 1;
    }
    assert forall k :: k in g ==> exists j :: 0 <= j < |indices| && indices[j] == k;
    JoinAny(g, done);
  }

  // ---------------------------------------------------------------- counting indices

  ghost function Range(n: nat): (r: set<nat>)
    ensures forall k: nat :: k in r <==> k < n
  {
    if n == 0 then {} else Range(n - 1) + {n - 1}
  }

  lemma {:induction false} RangeSize(n: nat)
    ensures |Range(n)| == n
  {
    if n > 0 {
      RangeSize(n - 1);
    }
  }

  /** Pigeonhole: n distinct indices below n are all of them. */
  lemma FullRange(keys: set<nat>, n: nat)
    requires forall k :: k in keys ==> k < n
    ensures |keys| == n <==> keys == Range(n)
    ensures |keys| <= n
  {
    RangeSize(n);
    assert keys <= Range(n);
    assert Range(n) == keys + (Range(n) - keys);
  }

  // ---------------------------------------------------------------- a message in chunks

  /** `chunks` may be sent as a split packet: it has at least one chunk and its count fits the field. */
  predicate Sendable(chunks: seq<Data>) {
    1 <= |chunks| < SIZE32
  }

  /** f is one of the chunks of the message, correctly labelled. */
  predicate ChunkOf(f: Fragment, chunks: seq<Data>) {
    f.splitIndex < |chunks| && f.splitCount == |chunks| && f.data == chunks[f.splitIndex]
  }

  lemma {:induction false} JoinIsConcat(g: Group, chunks: seq<Data>, n: nat)
    requires n <= |chunks|
    requires forall i :: 0 <= i < n ==> i in g && g[i].data == chunks[i]
    ensures JoinBelow(g, n) == Concat(chunks[..n])
  {
    if n > 0 {
      JoinIsConcat(g, chunks, n - 1);
      assert chunks[..n][..n - 1] == chunks[..n - 1];
    }
  }

  lemma WholeGroupJoins(g: Group, chunks: seq<Data>)
    requires g.Keys == Range(|chunks|)
    requires forall i :: i in g ==> i < |chunks| && g[i].data == chunks[i]
    ensures Join(g) == Concat(chunks)
  {
    JoinAny(g, |chunks|);
    JoinIsConcat(g, chunks, |chunks|);
    assert chunks[..|chunks|] == chunks;
  }

  // ---------------------------------------------------------------- the batch reassembler

  datatype BatchError = FragmentMissing | NoValidFragment

  /** The fragments that parse, in packet order. */
  function Parsed(packets: seq<Data>, now: int): (frags: seq<Fragment>)
    ensures forall k :: 0 <= k < |frags| ==> frags[k].splitCount < SIZE32
  {
    if |packets| == 0 then []
    else
      var before := Parsed(packets[..|packets| - 1], now);
      match FragmentOf(packets[|packets| - 1], now)
      case Ok(f) => before + [f]
      case Err(_) => before
  }

  /** The last fragment per index, of one split ID and below one count. */
  function Collected(frags: seq<Fragment>, id: nat, count: nat): Group {
    if |frags| == 0 then map[]
    else
      var before := Collected(frags[..|frags| - 1], id, count);
      var f := frags[|frags| - 1];
      if f.splitID != id || f.splitIndex >= count then before else before[f.splitIndex := f]
  }

  ghost function Reassembled(packets: seq<Data>, now: int): Result<Data, BatchError> {
    var frags := Parsed(packets, now);
    if |packets| == 0 then Err(FragmentMissing)
    else if |frags| == 0 then Err(NoValidFragment)
    else
      var g := Collected(frags, frags[0].splitID, frags[0].splitCount);
      if |g| % SIZE32 != frags[0].splitCount then Err(FragmentMissing) else Ok(Join(g))
  }

  method ReassembleFragments(packets: seq<Data>, now: int) returns (r: Result<Data, BatchError>)
    ensures r == Reassembled(packets, now)
  {
    if |packets| == 0 {
      return Err(FragmentMissing);
    }
    var parsed: seq<Fragment> := [];
    for i := 0 to |packets|
      invariant parsed == Parsed(packets[..i], now)
    {
      var frag := ParseFragment(packets[i], now);
      assert packets[..i + 1][..i] == packets[..i];
      if frag.Ok? {
        parsed := parsed + [frag.value];
      }
    }
    assert packets[..|packets|] == packets;
    if |parsed| == 0 {
      return Err(NoValidFragment);
    }
    var splitID, splitCount := parsed[0].splitID, parsed[0].splitCount;
    var fragmentMap: Group := map[];
    for i := 0 to |parsed|
      invariant fragmentMap == Collected(parsed[..i], splitID, splitCount)
    {
      var frag := parsed[i];
      assert parsed[..i + 1][..i] == parsed[..i];
      if frag.splitID != splitID {
        continue;
      }
      if frag.splitIndex >= splitCount {
        continue;
      }
      fragmentMap := fragmentMap[frag.splitIndex := frag];
    }
    assert parsed[..|parsed|] == parsed;
    if |fragmentMap| % SIZE32 != splitCount {
      return Err(FragmentMissing);
    }
    var packet := WriteInOrder(fragmentMap);
    return Ok(packet);
  }

  // ---------------------------------------------------------------- batch results

  predicate Present(frags: seq<Fragment>, id: nat, index: nat) {
    exists k :: 0 <= k < |frags| && frags[k].splitID == id && frags[k].splitIndex == index
  }

  lemma {:induction false} CollectedKeys(frags: seq<Fragment>, id: nat, count: nat)
    ensures forall i: nat :: i in Collected(frags, id, count) <==> i < count && Present(frags, id, i)
    ensures forall i :: i in Collected(frags, id, count) ==>
              Collected(frags, id, count)[i] in frags && Collected(frags, id, count)[i].splitID == id &&
              Collected(frags, id, count)[i].splitIndex == i
  {
    if |frags| > 0 {
      var before, f := frags[..|frags| - 1], frags[|frags| - 1];
      CollectedKeys(before, id, count);
      assert frags == before + [f];
      forall i: nat
        ensures Present(frags, id, i) <==> Present(before, id, i) || (f.splitID == id && f.splitIndex == i)
      {
        if f.splitID == id && f.splitIndex == i {
          assert frags[|frags| - 1] == f;
        }
        if Present(before, id, i) {
          var k :| 0 <= k < |before| && before[k].splitID == id && before[k].splitIndex == i;
          assert frags[k] == before[k];
        }
      }
    }
  }

  /** The collected group has one entry per index below the count exactly when every index occurs. */
  lemma CollectedFull(frags: seq<Fragment>, id: nat, count: nat)
    requires count < SIZE32
    ensures |Collected(frags, id, count)| % SIZE32 == count <==> forall i: nat :: i < count ==> Present(frags, id, i)
    ensures |Collected(frags, id, count)| % SIZE32 == count ==> Collected(frags, id, count).Keys == Range(count)
  {
    var g := Collected(frags, id, count);
    CollectedKeys(frags, id, count);
    hide Collected, Present, Range;
    assert g.Keys <= Range(count);
    FullRange(g.Keys, count);
    assert |g| == |g.Keys|;
    assert (forall i: nat :: i < count ==> Present(frags, id, i)) <==> Range(count) <= g.Keys;
  }

  /**
    On any packets at all, reassembly succeeds exactly when every index below the first
    parsed fragment's count occurs under its split ID.
   */
  lemma SucceedsIffAllPresent(packets: seq<Data>, now: int)
    requires |Parsed(packets, now)| > 0
    ensures var frags := Parsed(packets, now);
      Reassembled(packets, now).Ok? <==>
        forall i: nat :: i < frags[0].splitCount ==> Present(frags, frags[0].splitID, i)
    ensures Reassembled(packets, now).Err? ==> Reassembled(packets, now).error == FragmentMissing
  {
    var frags := Parsed(packets, now);
    hide Parsed, Collected, Present, Join;
    CollectedFull(frags, frags[0].splitID, frags[0].splitCount);
    SomePacket(packets, now);
  }

  lemma SomePacket(packets: seq<Data>, now: int)
    requires |Parsed(packets, now)| > 0
    ensures |packets| > 0
  {
  }

  /** A packet that may occur while message `id` is collected: a chunk frame, a rejected packet or a foreign one. */
  ghost predicate Admissible(packet: Data, id: nat, chunks: seq<Data>, now: int) {
    IsChunkFrame(packet, id, chunks) || FragmentOf(packet, now).Err? || FragmentOf(packet, now).value.splitID != id
  }

  /** A frame of some chunk, at any reliability and with any bytes after it. */
  ghost predicate IsChunkFrame(packet: Data, id: nat, chunks: seq<Data>) {
    exists h: Header, i: nat, trailing: Data ::
      && h.Valid() && i < |chunks| < SIZE32 && id < SIZE16 && |chunks[i]| <= MAX_PAYLOAD
      && packet == SplitFrame(h, id, i, |chunks|, chunks[i]) + trailing
  }

  lemma ChunkFrameParses(packet: Data, id: nat, chunks: seq<Data>, now: int)
    requires IsChunkFrame(packet, id, chunks)
    ensures FragmentOf(packet, now).Ok?
    ensures FragmentOf(packet, now).value.splitID == id && ChunkOf(FragmentOf(packet, now).value, chunks)
  {
    var h: Header, i: nat, trailing: Data :|
      && h.Valid() && i < |chunks| < SIZE32 && id < SIZE16 && |chunks[i]| <= MAX_PAYLOAD
      && packet == SplitFrame(h, id, i, |chunks|, chunks[i]) + trailing;
    SplitRoundTrip(h, id, i, |chunks|, chunks[i], trailing, now);
  }

  lemma {:induction false} ParsedAdmissible(packets: seq<Data>, id: nat, chunks: seq<Data>, now: int)
    requires forall k :: 0 <= k < |packets| ==> Admissible(packets[k], id, chunks, now)
    ensures forall k :: 0 <= k < |Parsed(packets, now)| ==>
              Parsed(packets, now)[k].splitID == id ==> ChunkOf(Parsed(packets, now)[k], chunks)
    ensures forall i: nat :: Present(Parsed(packets, now), id, i) <==>
              exists k :: 0 <= k < |packets| && FragmentOf(packets[k], now).Ok? &&
                FragmentOf(packets[k], now).value.splitID == id && FragmentOf(packets[k], now).value.splitIndex == i
  {
    if |packets| > 0 {
      var before, last := packets[..|packets| - 1], packets[|packets| - 1];
      ParsedAdmissible(before, id, chunks, now);
      var frags := Parsed(packets, now);
      if FragmentOf(last, now).Ok? {
        var f := FragmentOf(last, now).value;
        assert frags == Parsed(before, now) + [f];
        if f.splitID == id {
          ChunkFrameParses(last, id, chunks, now);
        }
        PresentAppend(Parsed(before, now), f, id);
      }
      assert packets == before + [last];
    }
  }

  lemma PresentAppend(before: seq<Fragment>, f: Fragment, id: nat)
    ensures forall i: nat :: Present(before + [f], id, i) <==>
              Present(before, id, i) || (f.splitID == id && f.splitIndex == i)
  {
    var frags := before + [f];
    forall i: nat
      ensures Present(frags, id, i) <==> Present(before, id, i) || (f.splitID == id && f.splitIndex == i)
    {
      if f.splitID == id && f.splitIndex == i {
        assert frags[|before|] == f;
      }
      if Present(before, id, i) {
        var k :| 0 <= k < |before| && before[k].splitID == id && before[k].splitIndex == i;
        assert frags[k] == before[k];
      }
    }
  }

  /** Chunk i arrived in some packet. */
  ghost predicate Arrived(packets: seq<Data>, id: nat, i: nat, now: int) {
    exists k :: 0 <= k < |packets| && FragmentOf(packets[k], now).Ok? &&
      FragmentOf(packets[k], now).value.splitID == id && FragmentOf(packets[k], now).value.splitIndex == i
  }

  lemma {:induction false} FirstParsed(packets: seq<Data>, k: nat, now: int)
    requires k < |packets| && FragmentOf(packets[k], now).Ok?
    requires forall j :: 0 <= j < k ==> FragmentOf(packets[j], now).Err?
    ensures |Parsed(packets, now)| > 0 && Parsed(packets, now)[0] == FragmentOf(packets[k], now).value
    decreases |packets|
  {
    var before := packets[..|packets| - 1];
    if k < |before| {
      FirstParsed(before, k, now);
    } else {
      NoneParsed(before, now);
    }
  }

  lemma {:induction false} NoneParsed(packets: seq<Data>, now: int)
    requires forall j :: 0 <= j < |packets| ==> FragmentOf(packets[j], now).Err?
    ensures Parsed(packets, now) == []
  {
    if |packets| > 0 {
      NoneParsed(packets[..|packets| - 1], now);
    }
  }

  /**
    Chunks framed at any reliability, in any order and with repeats, with rejected packets
    anywhere and foreign split IDs anywhere but first: the result is the payload when
    every chunk arrived and ErrFragmentMissing otherwise, never another packet.  Packet
    `first` is the first that is not rejected.
   */
  lemma BatchReassembly(packets: seq<Data>, id: nat, chunks: seq<Data>, first: nat, now: int)
    requires Sendable(chunks) && first < |packets| && IsChunkFrame(packets[first], id, chunks)
    requires forall k :: 0 <= k < first ==> FragmentOf(packets[k], now).Err?
    requires forall k :: first < k < |packets| ==> Admissible(packets[k], id, chunks, now)
    ensures Reassembled(packets, now) ==
      if forall i: nat :: i < |chunks| ==> Arrived(packets, id, i, now) then Ok(Concat(chunks))
      else Err(FragmentMissing)
  {
    hide IsChunkFrame, FragmentOf, Reassembled, Arrived, Parsed, Concat;
    ChunkFrameParses(packets[first], id, chunks, now);
    FirstParsed(packets, first, now);
    forall k | 0 <= k < |packets|
      ensures Admissible(packets[k], id, chunks, now)
    {
    }
    hide Admissible, ChunkOf, Sendable;
    ParsedReassembly(packets, id, chunks, now);
  }

  lemma ParsedReassembly(packets: seq<Data>, id: nat, chunks: seq<Data>, now: int)
    requires Sendable(chunks) && |Parsed(packets, now)| > 0 && Parsed(packets, now)[0].splitID == id
    requires forall k :: 0 <= k < |packets| ==> Admissible(packets[k], id, chunks, now)
    ensures Reassembled(packets, now) ==
      if forall i: nat :: i < |chunks| ==> Arrived(packets, id, i, now) then Ok(Concat(chunks))
      else Err(FragmentMissing)
  {
    var frags := Parsed(packets, now);
    ParsedAdmissible(packets, id, chunks, now);
    SomePacket(packets, now);
    assert ChunkOf(frags[0], chunks);
    CollectedFull(frags, id, |chunks|);
    assert forall i: nat :: Present(frags, id, i) <==> Arrived(packets, id, i, now);
    hide Parsed, FragmentOf, Present, Arrived, Admissible;
    if |Collected(frags, id, |chunks|)| % SIZE32 == |chunks| {
      CollectedJoins(frags, id, chunks);
    }
  }

  /** When every packet is rejected there is nothing to assemble; without packets a fragment is missing. */
  lemma NothingParses(packets: seq<Data>, now: int)
    requires |packets| > 0 && forall k :: 0 <= k < |packets| ==> FragmentOf(packets[k], now).Err?
    ensures Reassembled(packets, now) == Err(NoValidFragment) && Reassembled([], now) == Err(FragmentMissing)
  {
    NoneParsed(packets, now);
  }

  lemma CollectedJoins(frags: seq<Fragment>, id: nat, chunks: seq<Data>)
    requires forall k :: 0 <= k < |frags| ==> frags[k].splitID == id ==> ChunkOf(frags[k], chunks)
    requires Collected(frags, id, |chunks|).Keys == Range(|chunks|)
    ensures Join(Collected(frags, id, |chunks|)) == Concat(chunks)
  {
    var g := Collected(frags, id, |chunks|);
    CollectedKeys(frags, id, |chunks|);
    forall i | i in g
      ensures g[i].data == chunks[i]
    {
      var k :| 0 <= k < |frags| && frags[k] == g[i];
    }
    WholeGroupJoins(g, chunks);
  }

  /** A first fragment announcing zero parts makes the batch reassembler return an empty packet. */
  lemma ZeroCountIsEmptyPacket(packets: seq<Data>, now: int)
    requires |Parsed(packets, now)| > 0 && Parsed(packets, now)[0].splitCount == 0
    ensures Reassembled(packets, now) == Ok([])
  {
    var frags := Parsed(packets, now);
    CollectedKeys(frags, frags[0].splitID, 0);
    var g := Collected(frags, frags[0].splitID, 0);
    assert g == map[];
    JoinAny(g, 0);
    assert |packets| > 0;
  }

  /** Of several fragments with the same index the last one is used. */
  lemma {:induction false} LastFragmentWins(frags: seq<Fragment>, id: nat, count: nat, k: nat)
    requires k < |frags| && frags[k].splitID == id && frags[k].splitIndex < count
    requires forall j :: k < j < |frags| ==> !(frags[j].splitID == id && frags[j].splitIndex == frags[k].splitIndex)
    ensures frags[k].splitIndex in Collected(frags, id, count) && Collected(frags, id, count)[frags[k].splitIndex] == frags[k]
  {
    if k < |frags| - 1 {
      LastFragmentWins(frags[..|frags| - 1], id, count, k);
    }
  }
}
