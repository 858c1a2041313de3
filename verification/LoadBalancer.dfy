/** Node selection: round-robin state per group key, and the minimum searches. */
module LoadBalancer {
  import opened Options
  import opened DivMod

  datatype Node = Node(name: string, tcpLatencyMs: int, httpLatencyMs: int, udpLatencyMs: int, connCount: int)

  datatype Strategy = LeastLatency | RoundRobin | Random | LeastConnections

  datatype SortBy = UDP | TCP | HTTP

  function Latency(node: Node, sortBy: SortBy): int {
    match sortBy
    case TCP => node.tcpLatencyMs
    case HTTP => node.httpLatencyMs
    case UDP => node.udpLatencyMs
  }

  /** The position round-robin picks from a stored index: a stale index starts over. */
  function Pick(index: nat, n: nat): (p: nat)
    requires n > 0
    ensures p < n
  {
    if index >= n then 0 else index
  }

  function IndexOf(indices: map<string, nat>, key: string): nat {
    if key in indices then indices[key] else 0
  }

  /** k is the first node with the smallest measured latency. */
  predicate IsFastest(nodes: seq<Node>, sortBy: SortBy, k: nat) {
    && k < |nodes|
    && Latency(nodes[k], sortBy) > 0
    && (forall j :: 0 <= j < k && Latency(nodes[j], sortBy) > 0 ==>
          Latency(nodes[j], sortBy) > Latency(nodes[k], sortBy))
    && (forall j :: k < j < |nodes| && Latency(nodes[j], sortBy) > 0 ==>
          Latency(nodes[j], sortBy) >= Latency(nodes[k], sortBy))
  }

  predicate IsLeastLoaded(nodes: seq<Node>, k: nat) {
    && k < |nodes|
    && (forall j :: 0 <= j < k ==> nodes[j].connCount > nodes[k].connCount)
    && (forall j :: k < j < |nodes| ==> nodes[j].connCount >= nodes[k].connCount)
  }

  method SelectLeastLatency(nodes: seq<Node>, sortBy: SortBy) returns (k: nat)
    requires |nodes| > 0
    ensures IsFastest(nodes, sortBy, k) ||
            (k == 0 && forall j :: 0 <= j < |nodes| ==> Latency(nodes[j], sortBy) <= 0)
  {
    var selected: Option<nat> := None;
    var minLatency := -1;
    for i := 0 to |nodes|
      invariant selected.None? ==> minLatency == -1 && forall j :: 0 <= j < i ==> Latency(nodes[j], sortBy) <= 0
      invariant selected.Some? ==>
                  selected.value < i && minLatency == Latency(nodes[selected.value], sortBy) &&
                  IsFastest(nodes[..i], sortBy, selected.value)
    {
      var latency := Latency(nodes[i], sortBy);
      if latency <= 0 {
        continue;
      }
      if minLatency < 0 || latency < minLatency {
        minLatency := latency;
        selected := Some(i);
      }
    }
    assert nodes[..|nodes|] == nodes;
    if selected.None? {
      return 0;
    }
    return selected.value;
  }

  /** Connection counts are never negative, so -1 marks "nothing selected yet". */
  method SelectLeastConnections(nodes: seq<Node>) returns (k: nat)
    requires |nodes| > 0 && forall j :: 0 <= j < |nodes| ==> nodes[j].connCount >= 0
    ensures IsLeastLoaded(nodes, k)
  {
    var minConns := -1;
    k := 0;
    for i := 0 to |nodes|
      invariant if i == 0 then minConns == -1
                else k < i && minConns == nodes[k].connCount && IsLeastLoaded(nodes[..i], k)
    {
      if minConns < 0 || nodes[i].connCount < minConns {
        minConns := nodes[i].connCount;
        k := i;
      }
    }
    assert nodes[..|nodes|] == nodes;
  }

  lemma FastestIsMinimal(nodes: seq<Node>, sortBy: SortBy, k: nat)
    requires k < |nodes|
    requires IsFastest(nodes, sortBy, k) || forall j :: 0 <= j < |nodes| ==> Latency(nodes[j], sortBy) <= 0
    ensures forall j :: 0 <= j < |nodes| && Latency(nodes[j], sortBy) > 0 ==>
              0 < Latency(nodes[k], sortBy) <= Latency(nodes[j], sortBy)
  {
  }

  class Balancer {
    var roundRobinIndex: map<string, nat>

    constructor ()
      ensures roundRobinIndex == map[]
    {
      roundRobinIndex := map[];
    }

    method SelectRoundRobin(nodes: seq<Node>, groupKey: string) returns (selected: Node)
      requires |nodes| > 0
      modifies this
      ensures var p := Pick(IndexOf(old(roundRobinIndex), groupKey), |nodes|);
        && selected == nodes[p]
        && roundRobinIndex == old(roundRobinIndex)[groupKey := (p + 1) % |nodes|]
    {
      var index := IndexOf(roundRobinIndex, groupKey);
      if index >= |nodes| {
        index := 0;
      }
      selected := nodes[index];
      roundRobinIndex := roundRobinIndex[groupKey := (index + 1) % |nodes|];
    }

    /** `draw` is the random number below the node count that selectRandom would obtain. */
    method Select(nodes: seq<Node>, strategy: Strategy, sortBy: SortBy, groupKey: string, draw: nat)
      returns (selected: Option<Node>)
      requires |nodes| > 0 ==> draw < |nodes|
      requires forall j :: 0 <= j < |nodes| ==> nodes[j].connCount >= 0
      modifies this
      ensures selected.None? <==> |nodes| == 0
      ensures selected.Some? ==> selected.value in nodes
      ensures |nodes| >= 2 && strategy.RoundRobin? ==>
        var p := Pick(IndexOf(old(roundRobinIndex), groupKey), |nodes|);
        selected == Some(nodes[p]) && roundRobinIndex == old(roundRobinIndex)[groupKey := (p + 1) % |nodes|]
      ensures |nodes| < 2 || !strategy.RoundRobin? ==> roundRobinIndex == old(roundRobinIndex)
      ensures |nodes| >= 2 && strategy.LeastLatency? ==>
                exists k: nat :: k < |nodes| && selected == Some(nodes[k]) &&
                  (IsFastest(nodes, sortBy, k) ||
                   (k == 0 && forall j :: 0 <= j < |nodes| ==> Latency(nodes[j], sortBy) <= 0))
      ensures |nodes| >= 2 && strategy.LeastConnections? ==>
                exists k: nat :: IsLeastLoaded(nodes, k) && selected == Some(nodes[k])
      ensures |nodes| >= 2 && strategy.Random? ==> selected == Some(nodes[draw])
      ensures |nodes| == 1 ==> selected == Some(nodes[0])
      ensures |nodes| >= 2 && strategy.LeastLatency? ==>
                && (sortBy == TCP ==> forall j :: 0 <= j < |nodes| && nodes[j].tcpLatencyMs > 0 ==>
                      0 < selected.value.tcpLatencyMs <= nodes[j].tcpLatencyMs)
                && (sortBy == HTTP ==> forall j :: 0 <= j < |nodes| && nodes[j].httpLatencyMs > 0 ==>
                      0 < selected.value.httpLatencyMs <= nodes[j].httpLatencyMs)
                && (sortBy == UDP ==> forall j :: 0 <= j < |nodes| && nodes[j].udpLatencyMs > 0 ==>
                      0 < selected.value.udpLatencyMs <= nodes[j].udpLatencyMs)
    {
      if |nodes| == 0 {
        return None;
      }
      if |nodes| == 1 {
        return Some(nodes[0]);
      }
      match strategy
      case RoundRobin =>
        var node := SelectRoundRobin(nodes, groupKey);
        return Some(node);
      case Random =>
        return Some(nodes[draw]);
      case LeastConnections =>
        var k := SelectLeastConnections(nodes);
        return Some(nodes[k]);
      case LeastLatency =>
        var k := SelectLeastLatency(nodes, sortBy);
        FastestIsMinimal(nodes, sortBy, k);
        return Some(nodes[k]);
    }

    method ResetRoundRobin(groupKey: string)
      modifies this
      ensures roundRobinIndex == old(roundRobinIndex) - {groupKey}
    {
      roundRobinIndex := roundRobinIndex - {groupKey};
    }
  }

  // ---------------------------------------------------------------- runs

  /** A round-robin selection among n nodes, or a reset. */
  datatype Event = Selects(key: string, n: nat) | Resets(key: string)

  function Next(indices: map<string, nat>, event: Event): map<string, nat> {
    match event
    case Selects(key, n) => if n < 2 then indices else indices[key := (Pick(IndexOf(indices, key), n) + 1) % n]
    case Resets(key) => indices - {key}
  }

  /** The positions picked for one key, in order. */
  function Picks(indices: map<string, nat>, events: seq<Event>, key: string): seq<nat>
    decreases |events|
  {
    if |events| == 0 then []
    else
      var rest := Picks(Next(indices, events[0]), events[1..], key);
      match events[0]
      case Selects(k, n) => if k == key && n >= 2 then [Pick(IndexOf(indices, key), n)] + rest else rest
      case Resets(_) => rest
  }

  /** The run selects for `key` always among n nodes and never resets it; other keys do anything. */
  predicate SteadyFor(events: seq<Event>, key: string, n: nat) {
    forall i :: 0 <= i < |events| && events[i].key == key ==> events[i] == Selects(key, n)
  }

  lemma ModNext(a: nat, i: nat, n: nat)
    requires n > 0 && a < n
    ensures (((a + 1) % n) + i) % n == (a + (i + 1)) % n
  {
    var whole, part := if a + 1 == n then 1 else 0, if a + 1 == n then 0 else a + 1;
    ModUnique(a + 1, n, whole, part);
    ModShift(part + i, whole, n);
    assert whole * n + (part + i) == a + (i + 1);
  }

  /** The i-th pick is the start position plus i, modulo n: also from a stale index, whatever other keys do. */
  lemma {:induction false} RoundRobinCycles(indices: map<string, nat>, events: seq<Event>, key: string, n: nat, i: nat)
    requires n >= 2 && SteadyFor(events, key, n) && i < |Picks(indices, events, key)|
    ensures Picks(indices, events, key)[i] == ((if key in indices && indices[key] < n then indices[key] else 0) + i) % n
    decreases |events|
  {
    var next := Next(indices, events[0]);
    var start := Pick(IndexOf(indices, key), n);
    if events[0].key == key {
      assert events[0] == Selects(key, n);
      if i == 0 {
        ModUnique(start, n, 0, start);
      } else {
        NextPick(indices, key, n);
        RoundRobinCycles(next, events[1..], key, n, i - 1);
        ModNext(start, i - 1, n);
      }
    } else {
      assert IndexOf(next, key) == IndexOf(indices, key);
      RoundRobinCycles(next, events[1..], key, n, i);
    }
  }

  lemma NextPick(indices: map<string, nat>, key: string, n: nat)
    requires n >= 2
    ensures Pick(IndexOf(Next(indices, Selects(key, n)), key), n) == (Pick(IndexOf(indices, key), n) + 1) % n
  {
  }

  function Count(picks: seq<nat>, p: nat): nat {
    if |picks| == 0 then 0 else Count(picks[..|picks| - 1], p) + if picks[|picks| - 1] == p then 1 else 0
  }

  /** How many of m picks starting from position a hit p, at distance d from a. */
  lemma {:induction false} CountCycle(picks: seq<nat>, a: nat, p: nat, n: nat)
    requires n > 0 && a < n && p < n
    requires forall i :: 0 <= i < |picks| ==> picks[i] == (a + i) % n
    ensures var d := if p >= a then p - a else p + n - a;
      Count(picks, p) == (|picks| + n - 1 - d) / n
  {
    var d := if p >= a then p - a else p + n - a;
    if |picks| == 0 {
      ModUnique(n - 1 - d, n, 0, n - 1 - d);
    } else {
      var m := |picks| - 1;
      CountCycle(picks[..m], a, p, n);
      HitStep(a, p, d, m, n, m + n - 1 - d);
      assert |picks| + n - 1 - d == (m + n - 1 - d) + 1;
    }
  }

  lemma Hit(a: nat, p: nat, d: nat, m: nat, q: nat, n: nat)
    requires n > 0 && a < n && p < n && d == if p >= a then p - a else p + n - a
    requires m + n - 1 - d == q * n + (n - 1)
    ensures (a + m) % n == p
  {
    if a + d == p {
      assert a + m == q * n + p;
      ModUnique(a + m, n, q, p);
    } else {
      assert a + m == (q + 1) * n + p;
      ModUnique(a + m, n, q + 1, p);
    }
  }

  lemma HitStep(a: nat, p: nat, d: nat, m: nat, n: nat, x: nat)
    requires n > 0 && a < n && p < n && d == if p >= a then p - a else p + n - a
    requires x == m + n - 1 - d
    ensures (x + 1) / n == x / n + if (a + m) % n == p then 1 else 0
  {
    DivSplit(x, n);
    NextQuotient(x, n);
    HitAt(a, p, d, m, x / n, x % n, n);
  }

  lemma HitAt(a: nat, p: nat, d: nat, m: nat, q: nat, r: nat, n: nat)
    requires n > 0 && a < n && p < n && d == if p >= a then p - a else p + n - a
    requires m + n - 1 - d == q * n + r && r < n
    ensures (a + m) % n == p <==> r == n - 1
  {
    if r == n - 1 {
      Hit(a, p, d, m, q, n);
    } else {
      NoHit(a, p, d, m, q, r, n);
    }
  }

  lemma NoHit(a: nat, p: nat, d: nat, m: nat, q: nat, r: nat, n: nat)
    requires n > 0 && a < n && p < n && d == if p >= a then p - a else p + n - a
    requires m + n - 1 - d == q * n + r && r < n - 1
    ensures (a + m) % n != p
  {
    var t := p + r + 1;
    if a + d == p {
      assert a + m + n == q * n + t;
    } else {
      assert a + m == q * n + t;
    }
    ModAdd(a + m, n);
    if t < n {
      if a + d == p {
        ModUnique(a + m + n, n, q, t);
      } else {
        ModUnique(a + m, n, q, t);
      }
    } else {
      if a + d == p {
        assert a + m + n == (q + 1) * n + (t - n);
        ModUnique(a + m + n, n, q + 1, t - n);
      } else {
        assert a + m == (q + 1) * n + (t - n);
        ModUnique(a + m, n, q + 1, t - n);
      }
    }
  }

  /** Over any window of a run the picks of any two positions differ by at most one. */
  lemma RoundRobinIsFair(indices: map<string, nat>, events: seq<Event>, key: string, n: nat,
                         from: nat, to: nat, p: nat, q: nat)
    requires n >= 2 && SteadyFor(events, key, n) && p < n && q < n
    requires from <= to <= |Picks(indices, events, key)|
    ensures var window := Picks(indices, events, key)[from..to];
      Count(window, p) <= Count(window, q) + 1 && Count(window, q) <= Count(window, p) + 1
  {
    var window := Picks(indices, events, key)[from..to];
    var a := WindowStart(indices, events, key, n, from, to);
    CountCycle(window, a, p, n);
    CountCycle(window, a, q, n);
    hide Picks, SteadyFor, Count, Pick;
    Spread(|window|, if p >= a then p - a else p + n - a, if q >= a then q - a else q + n - a, n);
  }

  /** A window of the picks is itself a cycle, from some start. */
  lemma WindowStart(indices: map<string, nat>, events: seq<Event>, key: string, n: nat, from: nat, to: nat)
    returns (a: nat)
    requires n >= 2 && SteadyFor(events, key, n) && from <= to <= |Picks(indices, events, key)|
    ensures a < n && forall i :: 0 <= i < to - from ==> Picks(indices, events, key)[from..to][i] == (a + i) % n
  {
    var picks := Picks(indices, events, key);
    var start := Pick(IndexOf(indices, key), n);
    a := (start + from) % n;
    forall i | 0 <= i < to - from
      ensures picks[from..to][i] == (a + i) % n
    {
      RoundRobinCycles(indices, events, key, n, from + i);
      ModShiftSum(start, from, i, n);
    }
  }

  lemma Spread(m: nat, dp: nat, dq: nat, n: nat)
    requires n > 0 && dp < n && dq < n
    ensures (m + n - 1 - dp) / n <= (m + n - 1 - dq) / n + 1
    ensures (m + n - 1 - dq) / n <= (m + n - 1 - dp) / n + 1
  {
    if dp <= dq {
      DivClose(m + n - 1 - dq, m + n - 1 - dp, n);
    } else {
      DivClose(m + n - 1 - dp, m + n - 1 - dq, n);
    }
  }

  /** Selections and resets of other keys leave the picks of this key as they are. */
  lemma {:induction false} KeysDoNotInterfere(one: map<string, nat>, two: map<string, nat>, events: seq<Event>, key: string)
    requires IndexOf(one, key) == IndexOf(two, key)
    ensures Picks(one, events, key) == Picks(two, OnlyKey(events, key), key)
    decreases |events|
  {
    if |events| > 0 {
      var rest := OnlyKey(events[1..], key);
      if events[0].key == key {
        assert OnlyKey(events, key)[0] == events[0] && OnlyKey(events, key)[1..] == rest;
        KeysDoNotInterfere(Next(one, events[0]), Next(two, events[0]), events[1..], key);
      } else {
        assert OnlyKey(events, key) == rest;
        KeysDoNotInterfere(Next(one, events[0]), two, events[1..], key);
      }
    }
  }

  function OnlyKey(events: seq<Event>, key: string): seq<Event> {
    if |events| == 0 then []
    else (if events[0].key == key then [events[0]] else []) + OnlyKey(events[1..], key)
  }
}
