/**
  The failover loops: pick a node, try it, exclude it when it fails.  The selector is
  only known through its contract; whether a node can be dialled is fixed for one call.
 */
module Failover {
  import opened Options
  import opened Sets

  /** The selector's answer to the k-th call with the given exclusions. */
  type Selector = (nat, seq<string>) -> Option<string>

  function Names(s: seq<string>): set<string> {
    set n | n in s
  }

  /** It returns a candidate that is not excluded, or an error only when none is left. */
  ghost predicate Obeys(select: Selector, candidates: set<string>) {
    forall k: nat, exclude: seq<string> ::
      match select(k, exclude)
      case Some(n) => n in candidates && n !in exclude
      case None => candidates <= Names(exclude)
  }

  datatype Outcome = Outcome(connected: Option<string>, excluded: seq<string>)

  /** The loop without an attempt bound. */
  function Unbounded(select: Selector, ghost candidates: set<string>, canDial: string -> bool, exclude: seq<string>): Outcome
    requires Obeys(select, candidates)
    decreases |candidates - Names(exclude)|
  {
    match select(|exclude|, exclude)
    case None => Outcome(None, exclude)
    case Some(n) =>
      if canDial(n) then Outcome(Some(n), exclude)
      else
        Shrinks(candidates, exclude, n);
        Unbounded(select, candidates, canDial, exclude + [n])
  }

  /** How the loop ends, and whether a cancelled context ended it. */
  datatype Ending = Ending(outcome: Outcome, cancelled: bool)

  /** The same loop asking after every failure whether the context is cancelled: after the k-th one, `cancelled(k)`. */
  function UntilCancelled(select: Selector, ghost candidates: set<string>, canDial: string -> bool, cancelled: nat -> bool,
                          exclude: seq<string>): Ending
    requires Obeys(select, candidates)
    decreases |candidates - Names(exclude)|
  {
    match select(|exclude|, exclude)
    case None => Ending(Outcome(None, exclude), false)
    case Some(n) =>
      if canDial(n) then Ending(Outcome(Some(n), exclude), false)
      else if cancelled(|exclude| + 1) then Ending(Outcome(None, exclude + [n]), true)
      else
        Shrinks(candidates, exclude, n);
        UntilCancelled(select, candidates, canDial, cancelled, exclude + [n])
  }

  /** The loop that gives up after `attempts` dials. */
  function Bounded(select: Selector, canDial: string -> bool, attempts: nat, exclude: seq<string>): Outcome
    decreases attempts - |exclude|
  {
    if |exclude| >= attempts then Outcome(None, exclude)
    else
      match select(|exclude|, exclude)
      case None => Outcome(None, exclude)
      case Some(n) =>
        if canDial(n) then Outcome(Some(n), exclude) else Bounded(select, canDial, attempts, exclude + [n])
  }

  lemma Shrinks(candidates: set<string>, exclude: seq<string>, n: string)
    requires n in candidates && n !in exclude
    ensures candidates - Names(exclude + [n]) < candidates - Names(exclude)
    ensures |candidates - Names(exclude + [n])| < |candidates - Names(exclude)|
  {
    var before, after := candidates - Names(exclude), candidates - Names(exclude + [n]);
    assert n in before && n !in after;
    assert after <= before;
    Smaller(after, before);
  }

  // ---------------------------------------------------------------- the loops

  const DirectNodeName: string := "direct"

  class ProxyDialer {
    var excludedNodes: seq<string>
    var selectedNode: string

    constructor ()
      ensures excludedNodes == [] && selectedNode == ""
    {
      excludedNodes, selectedNode := [], "";
    }

    method ResetFailover()
      modifies this
      ensures excludedNodes == [] && selectedNode == ""
    {
      excludedNodes, selectedNode := [], "";
    }

    /** dialWithLoadBalancing; `canDial` covers plain and proxied dials alike. A cancellation leaves the selected node. */
    method DialWithLoadBalancing(select: Selector, ghost candidates: set<string>, canDial: string -> bool, cancelled: nat -> bool)
      returns (connected: Option<string>, stopped: bool)
      requires Obeys(select, candidates)
      modifies this
      ensures Ending(Outcome(connected, excludedNodes), stopped) == UntilCancelled(select, candidates, canDial, cancelled, [])
      ensures selectedNode == if connected.Some? then connected.value else if stopped then old(selectedNode) else ""
    {
      excludedNodes := [];
      var excluded: seq<string> := [];
      while true
        invariant excludedNodes == excluded && selectedNode == old(selectedNode)
        invariant UntilCancelled(select, candidates, canDial, cancelled, excluded)
               == UntilCancelled(select, candidates, canDial, cancelled, [])
        decreases |candidates - Names(excluded)|
      {
        var selected := select(|excluded|, excluded);
        if selected.None? {
          selectedNode := "";
          return None, false;
        }
        var node := selected.value;
        Shrinks(candidates, excluded, node);
        if node == DirectNodeName {
          if canDial(DirectNodeName) {
            selectedNode := DirectNodeName;
            return Some(DirectNodeName), false;
          }
          excluded := excluded + [DirectNodeName];
          excludedNodes := excluded;
          if cancelled(|excluded|) {
            return None, true;
          }
          continue;
        }
        if !canDial(node) {
          excluded := excluded + [node];
          excludedNodes := excluded;
          if cancelled(|excluded|) {
            return None, true;
          }
          continue;
        }
        selectedNode := node;
        return Some(node), false;
      }
    }
  }

  /** dialOutbound of the proxy ports and of the plain TCP proxy: at most `attempts` rounds. */
  method DialOutbound(select: Selector, canDial: string -> bool, attempts: nat)
    returns (connected: Option<string>, exclude: seq<string>)
    ensures Outcome(connected, exclude) == Bounded(select, canDial, attempts, [])
  {
    exclude := [];
    for i := 0 to attempts
      invariant |exclude| == i
      invariant Bounded(select, canDial, attempts, exclude) == Bounded(select, canDial, attempts, [])
    {
      var selected := select(|exclude|, exclude);
      if selected.None? {
        return None, exclude;
      }
      if selected.value == DirectNodeName {
        if canDial(DirectNodeName) {
          return Some(DirectNodeName), exclude;
        }
        exclude := exclude + [DirectNodeName];
        continue;
      }
      if !canDial(selected.value) {
        exclude := exclude + [selected.value];
        continue;
      }
      return selected, exclude;
    }
    return None, exclude;
  }

  /**
    How a proxy port or server is configured to select its outbounds; `members` are the
    outbounds of the group. The group without a name is the one of the ungrouped outbounds.
   */
  datatype Selection = Single(node: string) | NodeList(nodes: seq<string>) | Group(name: string, members: seq<string>)

  /** proxySelectionAttemptLimit: the members of the unnamed group are never counted. */
  function AttemptLimit(selection: Selection): (attempts: nat)
    ensures attempts >= 1
  {
    match selection
    case NodeList(nodes) => if |nodes| > 0 then |nodes| else 1
    case Group(name, members) => if |name| > 0 && |members| > 0 then |members| else 1
    case Single(_) => 1
  }

  // ---------------------------------------------------------------- results

  predicate Distinct(s: seq<string>) {
    forall i, j :: 0 <= i < j < |s| ==> s[i] != s[j]
  }

  /** What an outcome says, for either loop. */
  ghost predicate Sound(o: Outcome, candidates: set<string>, canDial: string -> bool) {
    && Distinct(o.excluded)
    && (forall n :: n in o.excluded ==> n in candidates && !canDial(n))
    && (o.connected.Some? ==>
          o.connected.value in candidates && o.connected.value !in o.excluded && canDial(o.connected.value))
  }

  /** The unbounded loop ends, tries no candidate twice, and connects exactly when some candidate can be dialled. */
  lemma {:induction false} UnboundedConnectsIff(select: Selector, candidates: set<string>, canDial: string -> bool,
                                                exclude: seq<string>)
    requires Obeys(select, candidates) && Sound(Outcome(None, exclude), candidates, canDial)
    ensures var o := Unbounded(select, candidates, canDial, exclude);
      && Sound(o, candidates, canDial)
      && (o.connected.Some? <==> exists n :: n in candidates && canDial(n))
      && |o.excluded| <= |candidates|
    decreases |candidates - Names(exclude)|
  {
    match select(|exclude|, exclude)
    case None =>
      DistinctSize(exclude, candidates);
      assert forall n :: n in candidates ==> n in exclude;
    case Some(n) =>
      DistinctSize(exclude, candidates);
      if !canDial(n) {
        Shrinks(candidates, exclude, n);
        UnboundedConnectsIff(select, candidates, canDial, exclude + [n]);
      }
  }

  lemma {:induction false} DistinctSize(s: seq<string>, candidates: set<string>)
    requires Distinct(s) && forall n :: n in s ==> n in candidates
    ensures |s| <= |candidates|
    ensures |s| == |candidates| ==> candidates == Names(s)
  {
    DistinctNames(s);
    assert Names(s) <= candidates;
    assert candidates == Names(s) + (candidates - Names(s));
  }

  lemma {:induction false} DistinctNames(s: seq<string>)
    requires Distinct(s)
    ensures |Names(s)| == |s|
  {
    if |s| > 0 {
      var before, last := s[..|s| - 1], s[|s| - 1];
      DistinctNames(before);
      assert Names(s) == Names(before) + {last};
      assert last !in before;
    }
  }

  /**
    The bounded loop connects exactly when the unbounded one does within the bound, and
    then to the same node after the same failures.
   */
  lemma {:induction false} BoundedConnectsIff(select: Selector, candidates: set<string>, canDial: string -> bool,
                                              attempts: nat, exclude: seq<string>)
    requires Obeys(select, candidates)
    ensures var free, capped := Unbounded(select, candidates, canDial, exclude), Bounded(select, canDial, attempts, exclude);
      && |free.excluded| >= |exclude|
      && (capped.connected.Some? <==> free.connected.Some? && |free.excluded| < attempts)
      && (|free.excluded| < attempts ==> capped == free)
    decreases |candidates - Names(exclude)|
  {
    match select(|exclude|, exclude)
    case None =>
    case Some(n) =>
      if !canDial(n) {
        Shrinks(candidates, exclude, n);
        BoundedConnectsIff(select, candidates, canDial, attempts, exclude + [n]);
      }
  }

  /** When the bound covers the candidates both loops give the same verdict. */
  lemma SameVerdict(select: Selector, candidates: set<string>, canDial: string -> bool, attempts: nat)
    requires Obeys(select, candidates) && |candidates| <= attempts
    ensures Bounded(select, canDial, attempts, []).connected == Unbounded(select, candidates, canDial, []).connected
    ensures Bounded(select, canDial, attempts, []).connected.Some? <==> exists n :: n in candidates && canDial(n)
  {
    UnboundedConnectsIff(select, candidates, canDial, []);
    BoundedConnectsIff(select, candidates, canDial, attempts, []);
    var free := Unbounded(select, candidates, canDial, []);
    if free.connected.Some? {
      var n := free.connected.value;
      assert Distinct(free.excluded + [n]);
      DistinctSize(free.excluded + [n], candidates);
    }
  }

  /** A bound cuts the loop off without a repeated or a diallable exclusion. */
  lemma {:induction false} BoundedIsSound(select: Selector, candidates: set<string>, canDial: string -> bool,
                                          attempts: nat, exclude: seq<string>)
    requires Obeys(select, candidates) && Sound(Outcome(None, exclude), candidates, canDial) && |exclude| <= attempts
    ensures Sound(Bounded(select, canDial, attempts, exclude), candidates, canDial)
    ensures |Bounded(select, canDial, attempts, exclude).excluded| <= attempts
    decreases attempts - |exclude|
  {
    if |exclude| < attempts {
      match select(|exclude|, exclude)
      case None =>
      case Some(n) =>
        if !canDial(n) {
          BoundedIsSound(select, candidates, canDial, attempts, exclude + [n]);
        }
    }
  }

  /** A cancellation only ends the loop earlier, after a part of the same failures and without a connection. */
  lemma {:induction false} CancelOnlyStopsEarly(select: Selector, candidates: set<string>, canDial: string -> bool,
                                                cancelled: nat -> bool, exclude: seq<string>)
    requires Obeys(select, candidates)
    ensures var cut, free := UntilCancelled(select, candidates, canDial, cancelled, exclude),
                             Unbounded(select, candidates, canDial, exclude);
      && exclude <= free.excluded
      && (!cut.cancelled ==> cut.outcome == free)
      && (cut.cancelled ==> cut.outcome.connected.None? && cut.outcome.excluded <= free.excluded
                            && cancelled(|cut.outcome.excluded|))
    decreases |candidates - Names(exclude)|
  {
    match select(|exclude|, exclude)
    case None =>
    case Some(n) =>
      if !canDial(n) {
        Shrinks(candidates, exclude, n);
        CancelOnlyStopsEarly(select, candidates, canDial, cancelled, exclude + [n]);
      }
  }

  /** It ends the loop at the first failure after which the context is cancelled; without one it never does. */
  lemma {:induction false} StopsAtFirstCancel(select: Selector, candidates: set<string>, canDial: string -> bool,
                                              cancelled: nat -> bool, exclude: seq<string>)
    requires Obeys(select, candidates)
    ensures var cut := UntilCancelled(select, candidates, canDial, cancelled, exclude);
      var failures := |cut.outcome.excluded|;
      && failures >= |exclude|
      && (forall k :: |exclude| < k < failures ==> !cancelled(k))
      && (cut.cancelled <==> failures > |exclude| && cancelled(failures))
    decreases |candidates - Names(exclude)|
  {
    match select(|exclude|, exclude)
    case None =>
    case Some(n) =>
      if !canDial(n) && !cancelled(|exclude| + 1) {
        Shrinks(candidates, exclude, n);
        StopsAtFirstCancel(select, candidates, canDial, cancelled, exclude + [n]);
      }
  }

  // ---------------------------------------------------------------- is the attempt limit enough?

  /** The outbounds a selection names. */
  function Listed(selection: Selection): seq<string> {
    match selection
    case Single(node) => [node]
    case NodeList(nodes) => nodes
    case Group(_, members) => members
  }

  /** What the selector may offer: named outbounds, and the node pinned for the server. */
  predicate Offered(selection: Selection, pinned: Option<string>, candidates: set<string>) {
    candidates <= Names(Listed(selection)) + if pinned.Some? then {pinned.value} else {}
  }

  /**
    The limit is too small: several ungrouped outbounds, or a pinned node comes on top of
    named outbounds that are all distinct and all offered.
   */
  predicate Uncovered(selection: Selection, candidates: set<string>) {
    if selection.Group? && |selection.name| == 0 then |candidates| > 1
    else |Listed(selection)| > 0 && Distinct(Listed(selection)) && Names(Listed(selection)) < candidates
  }

  lemma LimitCoversIff(selection: Selection, pinned: Option<string>, candidates: set<string>)
    requires Offered(selection, pinned, candidates)
    ensures |candidates| <= AttemptLimit(selection) <==> !Uncovered(selection, candidates)
  {
    var listed := Listed(selection);
    var names, pin := Names(listed), if pinned.Some? then {pinned.value} else {};
    if |listed| == 0 {
      SubsetSize(candidates, pin);
    } else if !(selection.Group? && |selection.name| == 0) {
      NamesSize(listed);
      if Uncovered(selection, candidates) {
        DistinctNames(listed);
        Smaller(names, candidates);
      } else if candidates <= names {
        SubsetSize(candidates, names);
      } else if names <= candidates {
        assert names < candidates;
        RepeatedNames(listed);
        SubsetSize(candidates, names + pin);
      } else {
        var m :| m in names && m !in candidates;
        SubsetSize(candidates, (names - {m}) + pin);
        assert names == (names - {m}) + {m};
      }
    }
  }

  lemma {:induction false} RepeatedNames(s: seq<string>)
    requires !Distinct(s)
    ensures |Names(s)| < |s|
  {
    var before, last := s[..|s| - 1], s[|s| - 1];
    assert Names(s) == Names(before) + {last};
    if Distinct(before) {
      assert last in before;
      assert Names(s) == Names(before);
      NamesSize(before);
    } else {
      RepeatedNames(before);
    }
  }

  /** The nodes the selector offers one after the other while none of them can be dialled. */
  ghost function Tour(select: Selector, candidates: set<string>, exclude: seq<string>): seq<string>
    requires Obeys(select, candidates)
    decreases |candidates - Names(exclude)|
  {
    match select(|exclude|, exclude)
    case None => exclude
    case Some(n) =>
      Shrinks(candidates, exclude, n);
      Tour(select, candidates, exclude + [n])
  }

  /** They are all the candidates, each once. */
  lemma {:induction false} TourIsWhole(select: Selector, candidates: set<string>, exclude: seq<string>)
    requires Obeys(select, candidates) && Distinct(exclude) && Names(exclude) <= candidates
    ensures var tour := Tour(select, candidates, exclude);
      Distinct(tour) && Names(tour) == candidates && |tour| == |candidates|
    decreases |candidates - Names(exclude)|
  {
    match select(|exclude|, exclude)
    case None =>
      DistinctNames(exclude);
    case Some(n) =>
      Shrinks(candidates, exclude, n);
      assert Names(exclude + [n]) == Names(exclude) + {n};
      TourIsWhole(select, candidates, exclude + [n]);
  }

  lemma {:induction false} TourSteps(select: Selector, candidates: set<string>, exclude: seq<string>)
    requires Obeys(select, candidates)
    ensures var tour := Tour(select, candidates, exclude);
      exclude <= tour && forall k :: |exclude| <= k < |tour| ==> select(k, tour[..k]) == Some(tour[k])
    decreases |candidates - Names(exclude)|
  {
    match select(|exclude|, exclude)
    case None =>
    case Some(n) =>
      Shrinks(candidates, exclude, n);
      TourSteps(select, candidates, exclude + [n]);
      var tour := Tour(select, candidates, exclude);
      assert exclude + [n] <= tour;
      forall k | |exclude| <= k < |tour|
        ensures select(k, tour[..k]) == Some(tour[k])
      {
        if k == |exclude| {
          assert tour[..k] == exclude && tour[k] == n;
        }
      }
  }

  /** If only the last node of the tour can be dialled, the loop gets there after all the others have failed. */
  lemma {:induction false} LastOfTour(select: Selector, candidates: set<string>, canDial: string -> bool, tour: seq<string>, k: nat)
    requires Obeys(select, candidates) && Distinct(tour) && k < |tour|
    requires forall n :: canDial(n) <==> n == tour[|tour| - 1]
    requires forall i :: 0 <= i < |tour| ==> select(i, tour[..i]) == Some(tour[i])
    ensures Unbounded(select, candidates, canDial, tour[..k]) == Outcome(Some(tour[|tour| - 1]), tour[..|tour| - 1])
    decreases |tour| - k
  {
    assert select(|tour[..k]|, tour[..k]) == Some(tour[k]);
    if k < |tour| - 1 {
      assert tour[..k] + [tour[k]] == tour[..k + 1];
      LastOfTour(select, candidates, canDial, tour, k + 1);
    }
  }

  /** Some dial outcome makes the loops differ when the bound is smaller than the number of candidates. */
  lemma BoundTooSmall(select: Selector, candidates: set<string>, attempts: nat) returns (canDial: string -> bool)
    requires Obeys(select, candidates) && attempts < |candidates|
    ensures Bounded(select, canDial, attempts, []).connected.None?
    ensures Unbounded(select, candidates, canDial, []).connected.Some?
  {
    assert Names([]) == {};
    TourIsWhole(select, candidates, []);
    TourSteps(select, candidates, []);
    var tour := Tour(select, candidates, []);
    canDial := n => n == tour[|tour| - 1];
    assert tour[..0] == [];
    LastOfTour(select, candidates, canDial, tour, 0);
    BoundedConnectsIff(select, candidates, canDial, attempts, []);
  }

  /** Whatever the selector, the bounded loop agrees with the unbounded one for every dial outcome iff the bound covers the candidates. */
  lemma AgreesIffCovered(select: Selector, candidates: set<string>, attempts: nat)
    requires Obeys(select, candidates)
    ensures AlwaysAgree(select, candidates, attempts) <==> |candidates| <= attempts
  {
    if |candidates| <= attempts {
      forall canDial: string -> bool
        ensures Bounded(select, canDial, attempts, []).connected == Unbounded(select, candidates, canDial, []).connected
      {
        SameVerdict(select, candidates, canDial, attempts);
      }
    } else {
      var canDial := BoundTooSmall(select, candidates, attempts);
    }
  }

  ghost predicate AlwaysAgree(select: Selector, candidates: set<string>, attempts: nat)
    requires Obeys(select, candidates)
  {
    forall canDial: string -> bool ::
      Bounded(select, canDial, attempts, []).connected == Unbounded(select, candidates, canDial, []).connected
  }

  /** So with the attempt limit of the selection, exactly when the limit is not too small. */
  lemma LoopsAgreeIff(selection: Selection, pinned: Option<string>, select: Selector, candidates: set<string>)
    requires Obeys(select, candidates) && Offered(selection, pinned, candidates)
    ensures AlwaysAgree(select, candidates, AttemptLimit(selection)) <==> !Uncovered(selection, candidates)
  {
    LimitCoversIff(selection, pinned, candidates);
    AgreesIffCovered(select, candidates, AttemptLimit(selection));
  }

  function FirstLeft(nodes: seq<string>, exclude: seq<string>): Option<string> {
    if |nodes| == 0 then None
    else if nodes[0] !in exclude then Some(nodes[0])
    else FirstLeft(nodes[1..], exclude)
  }

  /** Two ungrouped outbounds, the first of which cannot be dialled: the bounded loop gives up, the unbounded one connects. */
  lemma UngroupedGivesUp(select: Selector, canDial: string -> bool, a: string, b: string)
    requires a != b && canDial(b) && !canDial(a)
    requires forall k: nat, exclude: seq<string> :: select(k, exclude) == FirstLeft([a, b], exclude)
    ensures Obeys(select, {a, b})
    ensures Bounded(select, canDial, AttemptLimit(Group("", [a, b])), []).connected == None
    ensures Unbounded(select, {a, b}, canDial, []).connected == Some(b)
  {
    forall exclude: seq<string>
      ensures FirstLeft([a, b], exclude) == if a !in exclude then Some(a) else if b !in exclude then Some(b) else None
    {
      FirstOfTwo(a, b, exclude);
    }
    hide FirstLeft;
    assert Obeys(select, {a, b});
    assert [] + [a] == [a];
    Shrinks({a, b}, [], a);
    assert Unbounded(select, {a, b}, canDial, [a]) == Outcome(Some(b), [a]);
    assert |[a]| >= 1;
  }

  lemma FirstOfTwo(a: string, b: string, exclude: seq<string>)
    ensures FirstLeft([a, b], exclude) == if a !in exclude then Some(a) else if b !in exclude then Some(b) else None
  {
    assert [a, b][1..] == [b] && [b][1..] == [];
    assert FirstLeft([b], exclude) == if b !in exclude then Some(b) else None;
  }

  lemma {:induction false} NamesSize(s: seq<string>)
    ensures |Names(s)| <= |s|
  {
    if |s| > 0 {
      var before, last := s[..|s| - 1], s[|s| - 1];
      NamesSize(before);
      assert Names(s) == Names(before) + {last};
    }
  }
}
