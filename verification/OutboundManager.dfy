/** The outbound configuration manager as it runs: loops over maps, each proved against OutboundModel. */
module OutboundManager {
  import opened Options
  import opened OutboundModel

  datatype LoadResult = Loaded | NotLoaded | Panics

  /** The names that occur in the list. */
  function Names(p: seq<Outbound>): set<string> {
    set i | 0 <= i < |p| :: p[i].config.name
  }

  lemma NameOneMore(p: seq<Outbound>, o: Outbound)
    requires DistinctNames(p) && o.config.name !in Names(p)
    ensures DistinctNames(p + [o]) && Names(p + [o]) == Names(p) + {o.config.name}
    ensures ByName(p + [o]) == ByName(p)[o.config.name := o]
  {
    NamesOneMore(p, o);
    var q := p + [o];
    ByNameIs(p);
    ByNameIs(q);
    hide ByName, DistinctNames;
    assert q[|p|] == o;
    forall k | k in Names(p)
      ensures k in ByName(p) && k in ByName(q) && ByName(q)[k] == ByName(p)[k]
    {
      var i :| 0 <= i < |p| && p[i].config.name == k;
      assert q[i] == p[i];
    }
    MapOneMore(ByName(p), ByName(q), o.config.name, o);
  }

  lemma NamesOneMore(p: seq<Outbound>, o: Outbound)
    requires DistinctNames(p) && o.config.name !in Names(p)
    ensures DistinctNames(p + [o]) && Names(p + [o]) == Names(p) + {o.config.name}
  {
    var q := p + [o];
    assert q[|p|] == o && forall i :: 0 <= i < |p| ==> q[i] == p[i] && p[i].config.name in Names(p);
    forall k | k in Names(p)
      ensures k in Names(q)
    {
      var i :| 0 <= i < |p| && p[i].config.name == k;
      assert q[i].config.name == k;
    }
  }

  lemma MapOneMore<K, V>(m: map<K, V>, longer: map<K, V>, k: K, v: V)
    requires longer.Keys == m.Keys + {k} && longer[k] == v && k !in m
    requires forall l :: l in m ==> longer[l] == m[l]
    ensures longer == m[k := v]
  {
  }

  lemma ByNameIs(p: seq<Outbound>)
    requires DistinctNames(p)
    ensures ByName(p).Keys == Names(p)
    ensures forall i :: 0 <= i < |p| ==> p[i].config.name in ByName(p) && ByName(p)[p[i].config.name] == p[i]
  {
    assert forall k :: k in Names(p) <==> k in ByName(p);
  }

  lemma Nothing(others: Outbounds, p: seq<Outbound>)
    ensures p[..0] == [] && DistinctNames([]) && ByName([]) == map[] && NamesFree(others, [])
  {
  }

  lemma PrefixStep(others: Outbounds, p: seq<Outbound>, i: nat)
    requires i < |p| && DistinctNames(p) && DistinctNames(p[..i])
    ensures DistinctNames(p[..i + 1]) && ByName(p[..i + 1]) == ByName(p[..i])[p[i].config.name := p[i]]
    ensures p[i].config.name !in ByName(p[..i])
    ensures NamesFree(others, p[..i + 1]) <==> NamesFree(others, p[..i]) && p[i].config.name !in others
    ensures NamesFree(others, p) ==> p[i].config.name !in others
  {
    assert p[..i + 1] == p[..i] + [p[i]];
    NameOneMore(p[..i], p[i]);
  }

  class ProxyOutboundConfigManager {
    const protocol: Config -> bool
    var outbounds: Outbounds

    constructor (protocol: Config -> bool)
      ensures this.protocol == protocol && outbounds == map[]
    {
      this.protocol := protocol;
      outbounds := map[];
    }

    /** A file that makes the validation loop dereference nil ends the call without changing the entries. */
    method Load(file: File) returns (r: LoadResult)
      modifies this
      ensures r.Loaded? <==> AfterLoad(protocol, file).Some?
      ensures r.Panics? <==> Crashes(protocol, file)
      ensures outbounds == Kept(old(outbounds), AfterLoad(protocol, file))
    {
      match file {
        case Missing =>
          outbounds := map[];
          return Loaded;
        case Unreadable =>
          return NotLoaded;
        case Unparsable =>
          return NotLoaded;
        case Entries(given) =>
          r := CheckAll(given);
          if !r.Loaded? {
            NoCrashAfterPass(given);
            return;
          }
          NoCrashAfterPass(given);
          var p := Values(given);
          var loaded: Outbounds := map[];
          for i := 0 to |p|
            invariant DistinctNames(p[..i]) && loaded == ByName(p[..i])
          {
            PrefixStep(map[], p, i);
            loaded := loaded[p[i].config.name := p[i]];
          }
          assert p[..|p|] == p;
          outbounds := loaded;
      }
    }

    lemma NoCrashAfterPass(given: seq<Option<Outbound>>)
      ensures Passes(protocol, given) ==> !Crashes(protocol, Entries(given))
    {
    }

    /** The validation loop: every entry valid, no name twice, and no check on whether there is an entry at all. */
    method CheckAll(given: seq<Option<Outbound>>) returns (r: LoadResult)
      ensures r.Loaded? <==> Passes(protocol, given)
      ensures r.Panics? <==> Crashes(protocol, Entries(given))
    {
      hide Validates, AllValidate, DistinctNames;
      NothingPasses(given);
      ghost var p: seq<Outbound> := [];
      var seenNames: set<string> := {};
      for i := 0 to |given|
        invariant Passes(protocol, given[..i]) && p == Values(given[..i]) && seenNames == Names(p)
      {
        if given[i].None? {
          MissingEntry(given, i);
          return Panics;
        }
        var entry := given[i].value;
        OneMorePasses(given, i);
        if !Validates(protocol, entry.config) || entry.config.name in seenNames {
          PassesPrefix(given, i + 1);
          return NotLoaded;
        }
        NamesOneMore(p, entry);
        seenNames := seenNames + {entry.config.name};
        p := p + [entry];
      }
      assert given[..|given|] == given;
      NoCrashAfterPass(given);
      return Loaded;
    }

    lemma NothingPasses(given: seq<Option<Outbound>>)
      ensures Passes(protocol, given[..0]) && Values(given[..0]) == [] && Names([]) == {}
    {
    }

    lemma MissingEntry(given: seq<Option<Outbound>>, i: nat)
      requires i < |given| && given[i].None? && Passes(protocol, given[..i])
      ensures !Passes(protocol, given) && Crashes(protocol, Entries(given))
    {
    }

    lemma OneMorePasses(given: seq<Option<Outbound>>, i: nat)
      requires i < |given| && Passes(protocol, given[..i]) && given[i].Some?
      ensures var p, entry := Values(given[..i]), given[i].value;
        && DistinctNames(p)
        && (Passes(protocol, given[..i + 1]) <==> Validates(protocol, entry.config) && entry.config.name !in Names(p))
        && (Passes(protocol, given[..i + 1]) ==> Values(given[..i + 1]) == p + [entry])
    {
      hide Validates;
      var p, entry := Values(given[..i]), given[i].value;
      var q := Values(given[..i + 1]);
      assert q == p + [entry];
      if entry.config.name !in Names(p) {
        NamesOneMore(p, entry);
      } else {
        var j :| 0 <= j < |p| && p[j].config.name == entry.config.name;
        assert q[j] == p[j] && q[|p|] == entry;
      }
      assert AllValidate(protocol, q) <==> Validates(protocol, entry.config) by {
        assert forall j :: 0 <= j < |p| ==> q[j] == p[j];
        assert q[|p|] == entry;
      }
    }

    /** Once the loop has stopped at an entry no later element is reached. */
    lemma PassesPrefix(given: seq<Option<Outbound>>, n: nat)
      requires n <= |given| && !Passes(protocol, given[..n]) && forall j :: 0 <= j < n ==> given[j].Some?
      ensures !Passes(protocol, given) && !Crashes(protocol, Entries(given))
    {
      LongerFails(given, n);
      forall k | 0 <= k < |given| && given[k].None?
        ensures !Passes(protocol, given[..k])
      {
        assert given[..k][..n] == given[..n];
        LongerFails(given[..k], n);
      }
    }

    lemma LongerFails(given: seq<Option<Outbound>>, n: nat)
      requires n <= |given| && !Passes(protocol, given[..n])
      ensures !Passes(protocol, given)
    {
      hide Validates;
      if Passes(protocol, given) {
        var p, q := Values(given), Values(given[..n]);
        assert forall j :: 0 <= j < n ==> q[j] == p[j];
        assert false;
      }
    }

    /** The first loop of a replacement: no nil, the right subscription, every entry valid, no name twice. */
    method PrepareReplacement(id: string, given: seq<Option<Outbound>>) returns (prepared: Option<seq<Outbound>>)
      ensures prepared.Some? <==> ((forall i :: 0 <= i < |given| ==> given[i].Some?)
                                   && Belong(Values(given), id) && AllValidate(protocol, Values(given)) && DistinctNames(Values(given)))
      ensures prepared.Some? ==> prepared.value == Values(given)
    {
      hide Validates;
      var p: seq<Outbound>, seenNames: set<string> := [], {};
      for i := 0 to |given|
        invariant |p| == i && forall j :: 0 <= j < i ==> given[j].Some? && given[j].value == p[j]
        invariant Belong(p, id) && AllValidate(protocol, p) && DistinctNames(p) && seenNames == Names(p)
      {
        if given[i].None? {
          return None;
        }
        var clone := given[i].value;
        if clone.config.subscription != id || !Validates(protocol, clone.config) || clone.config.name in seenNames {
          if forall j :: 0 <= j < |given| ==> given[j].Some? {
            Stopped(given, id, p, i);
          }
          return None;
        }
        NameOneMore(p, clone);
        seenNames := seenNames + {clone.config.name};
        p := p + [clone];
      }
      assert p == Values(given);
      return Some(p);
    }

    lemma Stopped(given: seq<Option<Outbound>>, id: string, p: seq<Outbound>, i: nat)
      requires |p| == i < |given| && (forall j :: 0 <= j < i ==> given[j].Some? && given[j].value == p[j]) && given[i].Some?
      requires given[i].value.config.subscription != id || !Validates(protocol, given[i].value.config) || given[i].value.config.name in Names(p)
      requires forall j :: 0 <= j < |given| ==> given[j].Some?
      ensures !(Belong(Values(given), id) && AllValidate(protocol, Values(given)) && DistinctNames(Values(given)))
    {
      hide Validates;
      var q := Values(given);
      assert q[i] == given[i].value;
      if given[i].value.config.name in Names(p) {
        var j :| 0 <= j < i && p[j].config.name == q[i].config.name;
        assert q[j] == p[j];
      }
    }

    method ReplaceSubscriptionOutbounds(id: string, given: seq<Option<Outbound>>, saves: bool) returns (outcome: SaveOutcome)
      modifies this
      ensures outcome == OutcomeOf(AfterReplace(protocol, old(outbounds), id, given), saves)
      ensures outbounds == Kept(old(outbounds), AfterReplace(protocol, old(outbounds), id, given))
    {
      hide Validates, Belong, DistinctNames, AllValidate;
      if |id| == 0 {
        return Refused;
      }
      var prepared := PrepareReplacement(id, given);
      if prepared.None? {
        return Refused;
      }
      var kept := KeepOthers(id);
      var next := AddPrepared(kept, prepared.value);
      if next.None? {
        return Refused;
      }
      outbounds := next.value;
      return if saves then Saved else SaveFailed;
    }

    method KeepOthers(id: string) returns (next: Outbounds)
      ensures next == Others(outbounds, id)
    {
      next := map[];
      var names := outbounds.Keys;
      while names != {}
        invariant names <= outbounds.Keys
        invariant forall k :: k in next <==> k in outbounds && k !in names && outbounds[k].config.subscription != id
        invariant forall k :: k in next ==> next[k] == outbounds[k]
        decreases |names|
      {
        var name :| name in names;
        names := names - {name};
        if outbounds[name].config.subscription != id {
          next := next[name := outbounds[name]];
        }
      }
    }

    /** The last loop of a replacement: refuse a name another subscription has. */
    method AddPrepared(others: Outbounds, p: seq<Outbound>) returns (next: Option<Outbounds>)
      requires DistinctNames(p)
      ensures next == if NamesFree(others, p) then Some(others + ByName(p)) else None
    {
      hide DistinctNames, ByName, NamesFree;
      Nothing(others, p);
      var m := others;
      for i := 0 to |p|
        invariant DistinctNames(p[..i]) && m == others + ByName(p[..i])
        invariant NamesFree(others, p[..i])
      {
        PrefixStep(others, p, i);
        if p[i].config.name in m {
          return None;
        }
        m := m[p[i].config.name := p[i]];
      }
      assert p[..|p|] == p;
      return Some(m);
    }

    method AddOutbound(config: Outbound, saves: bool) returns (outcome: SaveOutcome)
      modifies this
      ensures outcome == OutcomeOf(AfterAdd(protocol, old(outbounds), config), saves)
      ensures outbounds == Kept(old(outbounds), AfterAdd(protocol, old(outbounds), config))
    {
      if !Validates(protocol, config.config) || config.config.name in outbounds {
        return Refused;
      }
      outbounds := outbounds[config.config.name := config];
      return if saves then Saved else SaveFailed;
    }

    method UpdateOutbound(name: string, config: Outbound, saves: bool) returns (outcome: SaveOutcome)
      modifies this
      ensures outcome == OutcomeOf(AfterUpdate(protocol, old(outbounds), name, config), saves)
      ensures outbounds == Kept(old(outbounds), AfterUpdate(protocol, old(outbounds), name, config))
    {
      if !Validates(protocol, config.config) || name !in outbounds {
        return Refused;
      }
      if name != config.config.name {
        outbounds := outbounds - {name};
      }
      outbounds := outbounds[config.config.name := config];
      assert outbounds == (old(outbounds) - {name})[config.config.name := config];
      return if saves then Saved else SaveFailed;
    }

    method DeleteOutbound(name: string, saves: bool) returns (outcome: SaveOutcome)
      modifies this
      ensures outcome == OutcomeOf(AfterDelete(old(outbounds), name), saves)
      ensures outbounds == Kept(old(outbounds), AfterDelete(old(outbounds), name))
    {
      if name !in outbounds {
        return Refused;
      }
      outbounds := outbounds - {name};
      return if saves then Saved else SaveFailed;
    }
  }
}
