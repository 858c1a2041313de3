/**
  The outbound configuration manager: entries under their names, grouped by the
  subscription they came from, and what its operations promise together.
 */
module OutboundModel {
  import opened Options

  /** `carried` stands for the fields that are stored and compared only by the protocol's own checks. */
  datatype Config = Config(name: string, kind: string, server: string, port: int, subscription: string, carried: int)

  /** A stored entry: its configuration and the identity of its runtime record, which clones share. */
  datatype Outbound = Outbound(config: Config, runtime: nat)

  type Outbounds = map<string, Outbound>

  /** The checks every protocol has in common, then the protocol's own. */
  predicate Validates(protocol: Config -> bool, c: Config) {
    |c.name| > 0 && |c.kind| > 0 && |c.server| > 0 && 0 < c.port <= 65535 && protocol(c)
  }

  // ---------------------------------------------------------------- lists of entries

  predicate DistinctNames(p: seq<Outbound>) {
    forall i, j :: 0 <= i < j < |p| ==> p[i].config.name != p[j].config.name
  }

  predicate AllValidate(protocol: Config -> bool, p: seq<Outbound>) {
    forall i :: 0 <= i < |p| ==> Validates(protocol, p[i].config)
  }

  function ByName(p: seq<Outbound>): Outbounds
    requires DistinctNames(p)
  {
    map i | 0 <= i < |p| :: p[i].config.name := p[i]
  }

  function Values(p: seq<Option<Outbound>>): seq<Outbound>
    requires forall i :: 0 <= i < |p| ==> p[i].Some?
  {
    seq(|p|, i requires 0 <= i < |p| => p[i].value)
  }

  /** The entries that do not belong to the subscription. */
  function Others(m: Outbounds, id: string): Outbounds {
    map k | k in m && m[k].config.subscription != id :: m[k]
  }

  predicate Belong(p: seq<Outbound>, id: string) {
    forall i :: 0 <= i < |p| ==> p[i].config.subscription == id
  }

  /** The names are taken by no entry of the map. */
  predicate NamesFree(m: Outbounds, p: seq<Outbound>) {
    forall i :: 0 <= i < |p| ==> p[i].config.name !in m
  }

  function Merged(m: Outbounds, id: string, p: seq<Outbound>): Outbounds
    requires DistinctNames(p)
  {
    Others(m, id) + ByName(p)
  }

  // ---------------------------------------------------------------- operations

  datatype File = Missing | Unreadable | Unparsable | Entries(given: seq<Option<Outbound>>)

  function AfterLoad(protocol: Config -> bool, file: File): Option<Outbounds> {
    match file
    case Missing => Some(map[])
    case Unreadable => None
    case Unparsable => None
    case Entries(given) => if Passes(protocol, given) then Some(ByName(Values(given))) else None
  }

  /** No entry is missing, every entry is valid and no name occurs twice. */
  predicate Passes(protocol: Config -> bool, given: seq<Option<Outbound>>) {
    && (forall i :: 0 <= i < |given| ==> given[i].Some?)
    && AllValidate(protocol, Values(given)) && DistinctNames(Values(given))
  }

  /** The file has a null element and everything before it passes: validating it dereferences nil. */
  predicate Crashes(protocol: Config -> bool, file: File) {
    file.Entries? && exists k :: 0 <= k < |file.given| && file.given[k].None? && Passes(protocol, file.given[..k])
  }

  function AfterReplace(protocol: Config -> bool, m: Outbounds, id: string, given: seq<Option<Outbound>>): Option<Outbounds> {
    if |id| == 0 || exists i :: 0 <= i < |given| && given[i].None? then None
    else
      var p := Values(given);
      if Belong(p, id) && AllValidate(protocol, p) && DistinctNames(p) && NamesFree(Others(m, id), p)
      then Some(Merged(m, id, p))
      else None
  }

  function AfterAdd(protocol: Config -> bool, m: Outbounds, o: Outbound): Option<Outbounds> {
    if Validates(protocol, o.config) && o.config.name !in m then Some(m[o.config.name := o]) else None
  }

  /** Renaming does not ask whether the new name is taken. */
  function AfterUpdate(protocol: Config -> bool, m: Outbounds, name: string, o: Outbound): Option<Outbounds> {
    if Validates(protocol, o.config) && name in m then Some((m - {name})[o.config.name := o]) else None
  }

  function AfterDelete(m: Outbounds, name: string): Option<Outbounds> {
    if name in m then Some(m - {name}) else None
  }

  datatype Op =
    | LoadFrom(file: File)
    | Replace(id: string, given: seq<Option<Outbound>>)
    | Add(o: Outbound)
    | Update(name: string, o: Outbound)
    | Delete(name: string)

  function After(protocol: Config -> bool, m: Outbounds, op: Op): Option<Outbounds> {
    match op
    case LoadFrom(file) => AfterLoad(protocol, file)
    case Replace(id, given) => AfterReplace(protocol, m, id, given)
    case Add(o) => AfterAdd(protocol, m, o)
    case Update(name, o) => AfterUpdate(protocol, m, name, o)
    case Delete(name) => AfterDelete(m, name)
  }

  function RunOps(protocol: Config -> bool, ops: seq<Op>): Outbounds {
    if |ops| == 0 then map[]
    else
      var before := RunOps(protocol, ops[..|ops| - 1]);
      Kept(before, After(protocol, before, ops[|ops| - 1]))
  }

  // ---------------------------------------------------------------- the invariant

  /** Every entry is stored under its own name and would pass validation. */
  predicate Keyed(protocol: Config -> bool, m: Outbounds) {
    forall k :: k in m ==> m[k].config.name == k && Validates(protocol, m[k].config)
  }

  lemma StepKeyed(protocol: Config -> bool, m: Outbounds, op: Op)
    requires Keyed(protocol, m)
    ensures Keyed(protocol, Kept(m, After(protocol, m, op)))
  {
  }

  lemma {:induction false} RunKeyed(protocol: Config -> bool, ops: seq<Op>)
    ensures Keyed(protocol, RunOps(protocol, ops))
  {
    if |ops| > 0 {
      RunKeyed(protocol, ops[..|ops| - 1]);
      StepKeyed(protocol, RunOps(protocol, ops[..|ops| - 1]), ops[|ops| - 1]);
    }
  }

  // ---------------------------------------------------------------- replacing a subscription

  /** A map with the old entries of every other subscription, and of this one exactly the given list. */
  predicate Replaced(m: Outbounds, id: string, p: seq<Outbound>, after: Outbounds) {
    && (forall k :: k in after ==> after[k].config.name == k)
    && (forall k :: k in m && m[k].config.subscription != id ==> k in after && after[k] == m[k])
    && (forall k :: k in after && after[k].config.subscription != id ==> k in m && m[k] == after[k])
    && (forall i :: 0 <= i < |p| ==> p[i].config.name in after && after[p[i].config.name] == p[i])
    && (forall k :: k in after && after[k].config.subscription == id ==> exists i :: 0 <= i < |p| && after[k] == p[i])
  }

  /** An accepted replacement does that, and it is the only map that does. */
  lemma ReplaceIsExact(protocol: Config -> bool, m: Outbounds, id: string, given: seq<Option<Outbound>>)
    requires Keyed(protocol, m) && AfterReplace(protocol, m, id, given).Some?
    ensures forall after :: Replaced(m, id, Values(given), after) <==> after == AfterReplace(protocol, m, id, given).value
  {
    var p, done := Values(given), AfterReplace(protocol, m, id, given).value;
    ReplaceDone(protocol, m, id, given);
    forall after | Replaced(m, id, p, after)
      ensures after == done
    {
      ReplacedOnce(m, id, p, after, done);
    }
  }

  lemma ReplaceDone(protocol: Config -> bool, m: Outbounds, id: string, given: seq<Option<Outbound>>)
    requires Keyed(protocol, m) && AfterReplace(protocol, m, id, given).Some?
    ensures Replaced(m, id, Values(given), AfterReplace(protocol, m, id, given).value)
  {
    MergedReplaces(m, id, Values(given));
  }

  lemma MergedReplaces(m: Outbounds, id: string, p: seq<Outbound>)
    requires forall k :: k in m ==> m[k].config.name == k
    requires Belong(p, id) && DistinctNames(p) && NamesFree(Others(m, id), p)
    ensures Replaced(m, id, p, Merged(m, id, p))
  {
    ByNameIsOwn(p, id);
    OwnIsApart(Others(m, id), p);
    hide ByName, DistinctNames, Belong, NamesFree;
    UnionReplaces(m, id, p, Others(m, id), ByName(p));
  }

  lemma OwnIsApart(rest: Outbounds, p: seq<Outbound>)
    requires DistinctNames(p) && NamesFree(rest, p)
    ensures rest.Keys !! ByName(p).Keys
  {
  }

  lemma UnionReplaces(m: Outbounds, id: string, p: seq<Outbound>, rest: Outbounds, own: Outbounds)
    requires forall k :: k in m ==> m[k].config.name == k
    requires forall k :: k in rest <==> k in m && m[k].config.subscription != id
    requires forall k :: k in rest ==> rest[k] == m[k]
    requires rest.Keys !! own.Keys
    requires forall k :: k in own ==> own[k].config.name == k && own[k].config.subscription == id
    requires forall k :: k in own ==> exists i :: 0 <= i < |p| && own[k] == p[i]
    requires forall i :: 0 <= i < |p| ==> p[i].config.name in own && own[p[i].config.name] == p[i]
    ensures Replaced(m, id, p, rest + own)
  {
    var after := rest + own;
    assert forall k :: k in own ==> k in after && after[k] == own[k];
    assert forall k :: k in rest ==> k in after && after[k] == rest[k];
    assert forall k :: k in after ==> k in own || k in rest;
  }

  lemma ByNameIsOwn(p: seq<Outbound>, id: string)
    requires Belong(p, id) && DistinctNames(p)
    ensures forall k :: k in ByName(p) ==> ByName(p)[k].config.name == k && ByName(p)[k].config.subscription == id
    ensures forall k :: k in ByName(p) ==> exists i :: 0 <= i < |p| && ByName(p)[k] == p[i]
    ensures forall i :: 0 <= i < |p| ==> p[i].config.name in ByName(p) && ByName(p)[p[i].config.name] == p[i]
  {
  }

  lemma ReplacedOnce(m: Outbounds, id: string, p: seq<Outbound>, after: Outbounds, done: Outbounds)
    requires Replaced(m, id, p, after) && Replaced(m, id, p, done)
    ensures after == done
  {
    ReplacedWithin(m, id, p, after, done);
    ReplacedWithin(m, id, p, done, after);
  }

  lemma ReplacedWithin(m: Outbounds, id: string, p: seq<Outbound>, after: Outbounds, done: Outbounds)
    requires Replaced(m, id, p, after) && Replaced(m, id, p, done)
    ensures forall k :: k in after ==> k in done && done[k] == after[k]
  {
    forall k | k in after
      ensures k in done && done[k] == after[k]
    {
      if after[k].config.subscription == id {
        var i :| 0 <= i < |p| && after[k] == p[i];
        assert p[i].config.name == k;
      }
    }
  }

  /** A list that passes its own checks is refused exactly when no such map exists: a name is taken elsewhere. */
  lemma AcceptedIffPossible(protocol: Config -> bool, m: Outbounds, id: string, given: seq<Option<Outbound>>)
    requires Keyed(protocol, m) && |id| > 0 && forall i :: 0 <= i < |given| ==> given[i].Some?
    requires Belong(Values(given), id) && AllValidate(protocol, Values(given)) && DistinctNames(Values(given))
    ensures AfterReplace(protocol, m, id, given).Some? <==> exists after :: Replaced(m, id, Values(given), after)
  {
    var p := Values(given);
    if AfterReplace(protocol, m, id, given).Some? {
      ReplaceDone(protocol, m, id, given);
    }
    if after :| Replaced(m, id, p, after) {
      assert NamesFree(Others(m, id), p);
    }
  }

  /** Replacing the same subscription twice is the same as replacing it with the last list only. */
  lemma LastReplaceWins(protocol: Config -> bool, m: Outbounds, id: string, first: seq<Option<Outbound>>, second: seq<Option<Outbound>>)
    requires AfterReplace(protocol, m, id, first).Some?
    ensures AfterReplace(protocol, AfterReplace(protocol, m, id, first).value, id, second) == AfterReplace(protocol, m, id, second)
  {
    hide Validates;
    assert Others(AfterReplace(protocol, m, id, first).value, id) == Others(m, id);
  }

  lemma OthersOfMerged(m: Outbounds, a: string, p: seq<Outbound>, b: string)
    requires a != b && Belong(p, a) && DistinctNames(p)
    ensures Others(Merged(m, a, p), b) == Others(Others(m, a), b) + ByName(p)
  {
  }

  lemma OthersSwap(m: Outbounds, a: string, b: string)
    ensures Others(Others(m, a), b) == Others(Others(m, b), a)
  {
  }

  lemma ApartFrom(all: Outbounds, rest: Outbounds, p: seq<Outbound>, q: seq<Outbound>)
    requires DistinctNames(p) && DistinctNames(q) && all == rest + ByName(p) && NamesFree(all, q)
    ensures ByName(p).Keys !! ByName(q).Keys
  {
  }

  lemma UnionsSwap(rest: Outbounds, A: Outbounds, B: Outbounds)
    requires A.Keys !! B.Keys
    ensures (rest + A) + B == (rest + B) + A
  {
  }

  lemma MergesCommute(m: Outbounds, a: string, p: seq<Outbound>, b: string, q: seq<Outbound>)
    requires a != b && Belong(p, a) && Belong(q, b) && DistinctNames(p) && DistinctNames(q)
    requires NamesFree(Others(Merged(m, a, p), b), q)
    ensures Merged(Merged(m, a, p), b, q) == Merged(Merged(m, b, q), a, p)
  {
    OthersOfMerged(m, a, p, b);
    OthersOfMerged(m, b, q, a);
    OthersSwap(m, a, b);
    var A, B, rest := ByName(p), ByName(q), Others(Others(m, a), b);
    hide Others, ByName, NamesFree, Belong, DistinctNames;
    ApartFrom(Others(Merged(m, a, p), b), rest, p, q);
    UnionsSwap(rest, A, B);
  }

  /** Refreshing two subscriptions gives the same map in either order, when both orders are accepted. */
  lemma ReplacesCommute(protocol: Config -> bool, m: Outbounds, a: string, forA: seq<Option<Outbound>>, b: string, forB: seq<Option<Outbound>>)
    requires a != b
    requires AfterReplace(protocol, m, a, forA).Some? && AfterReplace(protocol, m, b, forB).Some?
    requires AfterReplace(protocol, AfterReplace(protocol, m, a, forA).value, b, forB).Some?
    requires AfterReplace(protocol, AfterReplace(protocol, m, b, forB).value, a, forA).Some?
    ensures AfterReplace(protocol, AfterReplace(protocol, m, a, forA).value, b, forB)
         == AfterReplace(protocol, AfterReplace(protocol, m, b, forB).value, a, forA)
  {
    hide Validates, Merged, Others;
    MergesCommute(m, a, Values(forA), b, Values(forB));
  }

  /** A list of every entry of the subscription, each once, as GetBySubscriptionID returns it. */
  predicate Lists(m: Outbounds, id: string, p: seq<Outbound>) {
    && DistinctNames(p)
    && (forall i :: 0 <= i < |p| ==> p[i].config.name in m && m[p[i].config.name] == p[i] && p[i].config.subscription == id)
    && forall k :: k in m && m[k].config.subscription == id ==> exists i :: 0 <= i < |p| && p[i] == m[k]
  }

  /** Giving a subscription the entries it already has is accepted and changes nothing. */
  lemma ReplaceWithOwnIsIdentity(protocol: Config -> bool, m: Outbounds, id: string, given: seq<Option<Outbound>>)
    requires Keyed(protocol, m) && |id| > 0 && forall i :: 0 <= i < |given| ==> given[i].Some?
    requires Lists(m, id, Values(given))
    ensures AfterReplace(protocol, m, id, given) == Some(m)
  {
    hide Validates;
    var p := Values(given);
    assert NamesFree(Others(m, id), p);
    assert Others(m, id) + ByName(p) == m;
  }

  // ---------------------------------------------------------------- saving, and renaming

  /** A saved and reparsed file: every configuration once, whatever runtime records its entries now have. */
  predicate Writes(m: Outbounds, p: seq<Outbound>) {
    && DistinctNames(p)
    && (forall i :: 0 <= i < |p| ==> p[i].config.name in m && m[p[i].config.name].config == p[i].config)
    && forall k :: k in m ==> exists i :: 0 <= i < |p| && p[i].config.name == k
  }

  /** In every reachable state a saved file is accepted back and has the same configuration under every name. */
  lemma LoadAfterSave(protocol: Config -> bool, ops: seq<Op>, given: seq<Option<Outbound>>)
    requires (forall i :: 0 <= i < |given| ==> given[i].Some?) && Writes(RunOps(protocol, ops), Values(given))
    ensures var m, back := RunOps(protocol, ops), AfterLoad(protocol, Entries(given));
      back.Some? && back.value.Keys == m.Keys && forall k :: k in m ==> back.value[k].config == m[k].config
  {
    RunKeyed(protocol, ops);
    hide Validates;
  }

  /** An update keeps the number of entries exactly when the new name is its own or was free. */
  lemma UpdateKeepsCountIff(protocol: Config -> bool, m: Outbounds, name: string, o: Outbound)
    requires AfterUpdate(protocol, m, name, o).Some?
    ensures |AfterUpdate(protocol, m, name, o).value| == |m| <==> (o.config.name == name || o.config.name !in m)
    ensures |AfterUpdate(protocol, m, name, o).value| == |m| || |AfterUpdate(protocol, m, name, o).value| == |m| - 1
  {
    var after := AfterUpdate(protocol, m, name, o).value;
    assert after.Keys == m.Keys - {name} + {o.config.name};
    if o.config.name in m {
      assert after.Keys == m.Keys - (if o.config.name == name then {} else {name});
    }
    assert |m.Keys - {name}| == |m.Keys| - 1;
    assert |after| == |after.Keys| && |m| == |m.Keys|;
  }

  // ---------------------------------------------------------------- operations, seen by a caller

  /** Exactly when an outbound is added. */
  lemma AddedIff(protocol: Config -> bool, m: Outbounds, o: Outbound)
    ensures AfterAdd(protocol, m, o).Some? <==>
              && o.config.name != "" && o.config.kind != "" && o.config.server != ""
              && 1 <= o.config.port <= 65535 && protocol(o.config) && o.config.name !in m
    ensures AfterAdd(protocol, m, o).Some? ==> AfterAdd(protocol, m, o).value == m[o.config.name := o]
  {
    assert o.config.name == "" <==> |o.config.name| == 0;
    assert o.config.kind == "" <==> |o.config.kind| == 0;
    assert o.config.server == "" <==> |o.config.server| == 0;
  }

  /** Exactly when an outbound is replaced, and by what. */
  lemma UpdatedIff(protocol: Config -> bool, m: Outbounds, name: string, o: Outbound)
    ensures AfterUpdate(protocol, m, name, o).Some? <==> name in m && AfterAdd(protocol, map[], o).Some?
    ensures AfterUpdate(protocol, m, name, o).Some? ==>
              var after := AfterUpdate(protocol, m, name, o).value;
              && o.config.name in after && after[o.config.name] == o
              && (name != o.config.name ==> name !in after)
              && forall k :: k != name && k != o.config.name ==> (k in after <==> k in m) && (k in m ==> after[k] == m[k])
  {
  }

  /** A subscription is replaced only by entries that exist, carry its identifier, could be added on their own, and do not repeat a name. */
  lemma ReplaceAccepts(protocol: Config -> bool, m: Outbounds, id: string, given: seq<Option<Outbound>>)
    requires AfterReplace(protocol, m, id, given).Some?
    ensures id != ""
    ensures forall i :: 0 <= i < |given| ==>
              && given[i].Some? && given[i].value.config.subscription == id && AfterAdd(protocol, map[], given[i].value).Some?
    ensures forall i, j :: 0 <= i < j < |given| ==> given[i].value.config.name != given[j].value.config.name
  {
    var p := Values(given);
    assert forall i :: 0 <= i < |given| ==> p[i] == given[i].value;
  }

  /** A missing file is an empty one, an unreadable file changes nothing, and only stored names are deleted. */
  lemma EdgeCases(protocol: Config -> bool, m: Outbounds, name: string)
    ensures AfterLoad(protocol, Missing) == Some(map[])
    ensures AfterLoad(protocol, Unreadable) == None && AfterLoad(protocol, Unparsable) == None
    ensures AfterDelete(m, name).Some? <==> name in m
    ensures name in m ==>
              var after := AfterDelete(m, name).value;
              forall k :: (k in after <==> k in m && k != name) && (k in after ==> after[k] == m[k])
  {
  }
}
