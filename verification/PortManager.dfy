/** The proxy-port configuration manager as it runs: loops over maps, each proved against PortModel. */
module PortManager {
  import opened Options
  import opened PortModel
  import PortTheorems

  predicate AddressFree(t: Text, ports: Ports, cfg: Config, except: string) {
    forall k :: k in ports && k != except ==> Addr(t, ports[k]) != Addr(t, cfg)
  }

  predicate DistinctIDs(p: seq<Config>) {
    forall i, j :: 0 <= i < j < |p| ==> p[i].id != p[j].id
  }

  predicate DistinctAddrs(t: Text, p: seq<Config>) {
    forall i, j :: 0 <= i < j < |p| ==> Addr(t, p[i]) != Addr(t, p[j])
  }

  /** The addresses claimed by a list, each with the identifier that claimed it last. */
  function Staged(t: Text, p: seq<Config>): map<string, string> {
    if |p| == 0 then map[] else Staged(t, p[..|p| - 1])[Addr(t, p[|p| - 1]) := p[|p| - 1].id]
  }

  lemma {:induction false} StagedAre(t: Text, p: seq<Config>)
    ensures forall j :: 0 <= j < |p| ==> Addr(t, p[j]) in Staged(t, p)
    ensures forall a :: a in Staged(t, p) ==> exists j :: 0 <= j < |p| && Addr(t, p[j]) == a && Staged(t, p)[a] == p[j].id
  {
    hide Addr;
    if |p| > 0 {
      var q, c := p[..|p| - 1], p[|p| - 1];
      StagedAre(t, q);
      forall a | a in Staged(t, p)
        ensures exists j :: 0 <= j < |p| && Addr(t, p[j]) == a && Staged(t, p)[a] == p[j].id
      {
        if a == Addr(t, c) {
          assert Addr(t, p[|p| - 1]) == a && Staged(t, p)[a] == c.id;
        } else {
          var j :| 0 <= j < |q| && Addr(t, q[j]) == a && Staged(t, q)[a] == q[j].id;
          assert p[j] == q[j];
        }
      }
    }
  }

  lemma NothingStaged(t: Text, p: seq<Config>)
    ensures Staged(t, p[..0]) == map[] && DistinctAddrs(t, p[..0])
  {
  }

  /** One more address is distinct from the others exactly when it is not staged. */
  lemma StageAddr(t: Text, q: seq<Config>, c: Config)
    ensures DistinctAddrs(t, q + [c]) <==> DistinctAddrs(t, q) && Addr(t, c) !in Staged(t, q)
  {
    hide Addr;
    StagedAre(t, q);
    var longer := q + [c];
    assert longer[|q|] == c && forall j :: 0 <= j < |q| ==> longer[j] == q[j];
    hide Staged;
  }

  /** The check of one more entry against the staged addresses. */
  lemma StageOne(t: Text, p: seq<Config>, i: nat)
    requires i < |p| && DistinctIDs(p)
    ensures var staged, a := Staged(t, p[..i]), Addr(t, p[i]);
      && (a in staged ==> staged[a] != p[i].id)
      && (DistinctAddrs(t, p[..i + 1]) <==> DistinctAddrs(t, p[..i]) && a !in staged)
      && Staged(t, p[..i + 1]) == staged[a := p[i].id]
  {
    hide Addr;
    hide DistinctAddrs;
    var q := p[..i];
    assert p[..i + 1] == q + [p[i]] && (q + [p[i]])[..i] == q;
    StagedAre(t, q);
    StageAddr(t, q, p[i]);
  }

  lemma DistinctPrefix(t: Text, p: seq<Config>, n: nat)
    requires n <= |p| && DistinctIDs(p)
    ensures Distinct(t, p) ==> DistinctAddrs(t, p[..n])
    ensures n == |p| ==> (Distinct(t, p) <==> DistinctAddrs(t, p[..n]))
  {
    hide Addr;
  }

  lemma ListedPrefix(t: Text, cfgs: seq<Option<Config>>, n: nat)
    requires n <= |cfgs| && Listed(t, cfgs).Some?
    ensures Listed(t, cfgs[..n]).Some? && Listed(t, cfgs[..n]).value <= Listed(t, cfgs).value
    decreases |cfgs|
  {
    hide Validate, Addr;
    if n == |cfgs| {
      assert cfgs[..n] == cfgs;
    } else {
      var init := cfgs[..|cfgs| - 1];
      var p, q := Prepare(t, cfgs, true).value, Prepare(t, init, true).value;
      assert q <= p;
      assert Distinct(t, q);
      ListedPrefix(t, init, n);
      assert init[..n] == cfgs[..n];
    }
  }

  lemma {:induction false} PreparedPrefix(t: Text, cfgs: seq<Option<Config>>, n: nat)
    requires n <= |cfgs| && Prepare(t, cfgs, false).Some?
    ensures Prepare(t, cfgs[..n], false).Some? && Prepare(t, cfgs[..n], false).value <= Prepare(t, cfgs, false).value
    decreases |cfgs|
  {
    hide Validate;
    if n == |cfgs| {
      assert cfgs[..n] == cfgs;
    } else {
      PreparedPrefix(t, cfgs[..|cfgs| - 1], n);
      assert cfgs[..|cfgs| - 1][..n] == cfgs[..n];
    }
  }

  /** One more element of a prepared list. */
  lemma PrepareStep(t: Text, cfgs: seq<Option<Config>>, skipNil: bool, i: nat)
    requires i < |cfgs|
    ensures Prepare(t, cfgs[..i + 1], skipNil)
         == var before, last := Prepare(t, cfgs[..i], skipNil), cfgs[i];
            if before.None? then None
            else if last.None? then (if skipNil then before else None)
            else if Validate(t, last.value).None? then None
            else Some(before.value + [Validate(t, last.value).value])
  {
    assert cfgs[..i + 1][..i] == cfgs[..i];
  }

  function IDs(p: seq<Config>): set<string> {
    set j | 0 <= j < |p| :: p[j].id
  }

  function Addrs(t: Text, p: seq<Config>): set<string> {
    set j | 0 <= j < |p| :: Addr(t, p[j])
  }

  lemma NoAddrs(t: Text)
    ensures Addrs(t, []) == {}
  {
  }

  lemma OneMoreAddr(t: Text, p: seq<Config>, c: Config)
    ensures Addrs(t, p + [c]) == Addrs(t, p) + {Addr(t, c)}
  {
    hide Addr;
    var q := p + [c];
    assert q[|p|] == c && forall j :: 0 <= j < |p| ==> q[j] == p[j];
    forall a | a in Addrs(t, p) + {Addr(t, c)}
      ensures a in Addrs(t, q)
    {
      if a in Addrs(t, p) {
        var j :| 0 <= j < |p| && Addr(t, p[j]) == a;
        assert Addr(t, q[j]) == a;
      }
    }
  }

  lemma OneMoreID(p: seq<Config>, c: Config)
    ensures IDs(p + [c]) == IDs(p) + {c.id}
  {
    var q := p + [c];
    assert q[|p|] == c && forall j :: 0 <= j < |p| ==> q[j] == p[j];
    forall id | id in IDs(p) + {c.id}
      ensures id in IDs(q)
    {
      if id in IDs(p) {
        var j :| 0 <= j < |p| && p[j].id == id;
        assert q[j].id == id;
      }
    }
  }

  /** The stored entries outside `ids` are written, each once, and no other. */
  predicate WritesAllBut(ports: Ports, ids: set<string>, cfgs: seq<Option<Config>>) {
    && (forall i :: 0 <= i < |cfgs| ==> cfgs[i].Some? && cfgs[i].value.id in ports && cfgs[i].value == ports[cfgs[i].value.id])
    && (forall i :: 0 <= i < |cfgs| ==> cfgs[i].value.id !in ids)
    && (forall i, j :: 0 <= i < j < |cfgs| ==> cfgs[i].value.id != cfgs[j].value.id)
    && forall k :: k in ports && k !in ids ==> exists i :: 0 <= i < |cfgs| && cfgs[i].value.id == k
  }

  lemma WriteOne(ports: Ports, ids: set<string>, cfgs: seq<Option<Config>>, id: string)
    requires Keyed(ports) && WritesAllBut(ports, ids, cfgs) && id in ids && id in ports
    ensures WritesAllBut(ports, ids - {id}, cfgs + [Some(ports[id])])
  {
    var longer := cfgs + [Some(ports[id])];
    assert longer[|cfgs|].value.id == id;
    forall k | k in ports && k !in ids - {id}
      ensures exists i :: 0 <= i < |longer| && longer[i].value.id == k
    {
      if k != id {
        var i :| 0 <= i < |cfgs| && cfgs[i].value.id == k;
        assert longer[i].value.id == k;
      }
    }
  }

  /** A caller's own entry: validation rewrites it in place, and the manager stores copies of it. */
  class ProxyPortConfig {
    var value: Config

    constructor (value: Config)
      ensures this.value == value
    {
      this.value := value;
    }

    /** The defaults are filled in even when the entry is then refused. */
    method Validate(t: Text) returns (ok: bool)
      modifies this
      ensures value == ApplyDefaults(t, old(value))
      ensures ok == PortModel.Validate(t, old(value)).Some?
      ensures ok ==> value == PortModel.Validate(t, old(value)).value
    {
      value := ApplyDefaults(t, value);
      return Acceptable(t, value);
    }
  }

  function Given(cfg: ProxyPortConfig?): Option<Config>
    reads cfg
  {
    if cfg == null then None else Some(cfg.value)
  }

  class ProxyPortConfigManager {
    const text: Text
    var ports: Ports

    ghost predicate Valid()
      reads this
    {
      Consistent(text, ports)
    }

    constructor (text: Text)
      ensures this.text == text && ports == map[] && Valid()
    {
      this.text := text;
      ports := map[];
    }

    method Load(file: File) returns (ok: bool)
      modifies this
      ensures ok == AfterLoad(text, file).Some? && ports == Kept(old(ports), AfterLoad(text, file))
      ensures old(Valid()) ==> Valid()
    {
      ghost var was := ports;
      ok := false;
      match file {
        case Missing =>
          ports, ok := map[], true;
        case Unreadable =>
        case Unparsable =>
        case Entries(cfgs) =>
          var loaded := LoadEntries(cfgs);
          if loaded.Some? {
            ports, ok := loaded.value, true;
          }
      }
      if Consistent(text, was) {
        StepConsistent(text, was, LoadFrom(file));
      }
    }

    /** The loop over a file's entries, filling the new map and the addresses seen. */
    method LoadEntries(cfgs: seq<Option<Config>>) returns (loaded: Option<Ports>)
      ensures loaded == AfterLoad(text, Entries(cfgs))
    {
      hide Validate, Addr, Addrs;
      NoAddrs(text);
      var newPorts: Ports, seenAddrs: set<string> := map[], {};
      ghost var p: seq<Config> := [];
      for i := 0 to |cfgs|
        invariant Listed(text, cfgs[..i]) == Some(p)
        invariant newPorts == ByID(p)
        invariant seenAddrs == Addrs(text, p)
      {
        PrepareStep(text, cfgs, true, i);
        if cfgs[i].None? {
          continue;
        }
        var valid := Validate(text, cfgs[i].value);
        if valid.None? || valid.value.id in newPorts || Addr(text, valid.value) in seenAddrs {
          Rejected(cfgs, i, p);
          return None;
        }
        seenAddrs := seenAddrs + {Addr(text, valid.value)};
        newPorts := newPorts[valid.value.id := valid.value];
        Extended(p, valid.value);
        OneMoreAddr(text, p, valid.value);
        p := p + [valid.value];
      }
      assert cfgs[..|cfgs|] == cfgs;
      return Some(newPorts);
    }

    lemma Extended(p: seq<Config>, c: Config)
      requires Distinct(text, p) && c.id !in ByID(p) && Addr(text, c) !in Addrs(text, p)
      ensures Distinct(text, p + [c]) && ByID(p + [c]) == ByID(p)[c.id := c]
    {
      hide Addr;
      assert (p + [c])[..|p|] == p;
      forall j | 0 <= j < |p|
        ensures p[j].id != c.id
      {
        ByIDHolds(text, p, j);
      }
    }

    lemma Rejected(cfgs: seq<Option<Config>>, i: nat, p: seq<Config>)
      requires i < |cfgs| && Listed(text, cfgs[..i]) == Some(p) && cfgs[i].Some?
      requires Validate(text, cfgs[i].value).Some? ==>
                 (Validate(text, cfgs[i].value).value.id in ByID(p)
                  || Addr(text, Validate(text, cfgs[i].value).value) in Addrs(text, p))
      ensures Listed(text, cfgs).None?
    {
      hide Validate, Addr;
      PrepareStep(text, cfgs, true, i);
      if Validate(text, cfgs[i].value).Some? {
        var c := Validate(text, cfgs[i].value).value;
        NotDistinct(p, c);
        assert Listed(text, cfgs[..i + 1]).None?;
      }
      if Listed(text, cfgs).Some? {
        ListedPrefix(text, cfgs, i + 1);
        assert false;
      }
    }

    lemma NotDistinct(p: seq<Config>, c: Config)
      requires c.id in ByID(p) || Addr(text, c) in Addrs(text, p)
      ensures !Distinct(text, p + [c])
    {
      hide Addr;
      var q := p + [c];
      assert q[|p|] == c;
      if c.id in ByID(p) {
        ByIDKnown(p, c.id);
        var j :| 0 <= j < |p| && p[j].id == c.id;
        assert q[j].id == q[|p|].id;
      } else {
        var j :| 0 <= j < |p| && Addr(text, p[j]) == Addr(text, c);
        assert q[j] == p[j];
      }
    }

    /** The uniqueness check: `existing` is the entry being replaced, empty when there is none. */
    method EnsurePortUnique(cfg: Config, existing: string, staged: map<string, string>) returns (ok: bool)
      requires |cfg.id| > 0
      ensures ok <==> (
                && (cfg.id in ports ==> |existing| > 0 && cfg.id == existing)
                && AddressFree(text, ports, cfg, existing)
                && (Addr(text, cfg) in staged ==> staged[Addr(text, cfg)] == cfg.id))
    {
      hide Addr;
      if cfg.id in ports && (|existing| == 0 || cfg.id != existing) {
        return false;
      }
      var ids := ports.Keys;
      while ids != {}
        invariant ids <= ports.Keys
        invariant forall k :: k in ports && k !in ids && k != existing ==> Addr(text, ports[k]) != Addr(text, cfg)
        decreases |ids|
      {
        var id :| id in ids;
        ids := ids - {id};
        if id != existing && Addr(text, ports[id]) == Addr(text, cfg) {
          return false;
        }
      }
      return Addr(text, cfg) in staged ==> staged[Addr(text, cfg)] == cfg.id;
    }

    method AddPort(cfg: ProxyPortConfig?, saves: bool) returns (outcome: SaveOutcome)
      requires Valid()
      modifies this, cfg
      ensures outcome == OutcomeOf(AfterAdd(text, old(ports), old(Given(cfg))), saves)
      ensures ports == Kept(old(ports), AfterAdd(text, old(ports), old(Given(cfg)))) && Valid()
      ensures cfg != null ==> cfg.value == ApplyDefaults(text, old(cfg.value))
    {
      hide Addr, ApplyDefaults, Acceptable, Separate;
      StepConsistent(text, ports, Add(Given(cfg)));
      if cfg == null {
        return Refused;
      }
      ghost var given := cfg.value;
      var valid := cfg.Validate(text);
      if !valid {
        return Refused;
      }
      var c := cfg.value;
      assert IsValidated(text, c) by { assert Validate(text, given) == Some(c); }
      ValidatedHasID(text, c);
      var ok := EnsurePortUnique(c, "", map[]);
      assert ok <==> Clear(text, ports, c);
      if !ok {
        return Refused;
      }
      ports := ports[c.id := c];
      return if saves then Saved else SaveFailed;
    }

    method UpdatePort(id: string, cfg: ProxyPortConfig?, saves: bool) returns (outcome: SaveOutcome)
      requires Valid()
      modifies this, cfg
      ensures outcome == OutcomeOf(AfterUpdate(text, old(ports), id, old(Given(cfg))), saves)
      ensures ports == Kept(old(ports), AfterUpdate(text, old(ports), id, old(Given(cfg)))) && Valid()
      ensures cfg != null ==> cfg.value == ApplyDefaults(text, old(cfg.value))
    {
      hide Addr, ApplyDefaults, Acceptable, Separate;
      StepConsistent(text, ports, Update(id, Given(cfg)));
      if cfg == null {
        return Refused;
      }
      ghost var given := cfg.value;
      var valid := cfg.Validate(text);
      if !valid || id !in ports {
        return Refused;
      }
      var c := cfg.value;
      assert IsValidated(text, c) by { assert Validate(text, given) == Some(c); }
      ValidatedHasID(text, c);
      var ok := EnsurePortUnique(c, id, map[]);
      assert ok <==> Clear(text, ports - {id}, c);
      if !ok {
        return Refused;
      }
      ghost var was := ports;
      if id != c.id {
        ports := ports - {id};
      }
      ports := ports[c.id := c];
      assert ports == (was - {id})[c.id := c];
      return if saves then Saved else SaveFailed;
    }

    method DeletePort(id: string, saves: bool) returns (outcome: SaveOutcome)
      requires Valid()
      modifies this
      ensures outcome == OutcomeOf(AfterDelete(old(ports), id), saves)
      ensures ports == Kept(old(ports), AfterDelete(old(ports), id)) && Valid()
    {
      hide Addr, ApplyDefaults, Acceptable, Separate;
      StepConsistent(text, ports, Delete(id));
      if id !in ports {
        return Refused;
      }
      ports := ports - {id};
      return if saves then Saved else SaveFailed;
    }

    /** The first loop of AddPorts: validate copies and refuse a repeated identifier. */
    method PrepareBatch(cfgs: seq<Option<Config>>) returns (prepared: Option<seq<Config>>)
      ensures prepared.Some? ==> prepared == Prepare(text, cfgs, false)
      ensures prepared.Some? ==> DistinctIDs(prepared.value)
      ensures prepared.None? ==> Prepare(text, cfgs, false).None? || !Distinct(text, Prepare(text, cfgs, false).value)
    {
      hide Validate, Addr;
      var p: seq<Config>, seenIDs: set<string> := [], {};
      for i := 0 to |cfgs|
        invariant Prepare(text, cfgs[..i], false) == Some(p)
        invariant seenIDs == IDs(p)
        invariant forall j, k :: 0 <= j < k < |p| ==> p[j].id != p[k].id
      {
        PrepareStep(text, cfgs, false, i);
        var valid := if cfgs[i].Some? then Validate(text, cfgs[i].value) else None;
        if valid.None? || valid.value.id in seenIDs {
          if Prepare(text, cfgs, false).Some? {
            PreparedPrefix(text, cfgs, i + 1);
            ghost var q := Prepare(text, cfgs, false).value;
            assert p + [valid.value] <= q;
            ghost var j :| 0 <= j < |p| && p[j].id == valid.value.id;
            assert q[j].id == q[|p|].id;
          }
          return None;
        }
        seenIDs := seenIDs + {valid.value.id};
        assert IDs(p + [valid.value]) == IDs(p) + {valid.value.id} by { OneMoreID(p, valid.value); }
        p := p + [valid.value];
      }
      assert cfgs[..|cfgs|] == cfgs;
      return Some(p);
    }

    /** The second loop: every entry against the stored ports and the addresses staged before it. */
    method EnsureBatchUnique(p: seq<Config>) returns (ok: bool)
      requires Valid()
      requires forall i :: 0 <= i < |p| ==> |p[i].id| > 0
      requires DistinctIDs(p)
      ensures ok <==> Fits(text, ports, p)
    {
      hide Addr, DistinctAddrs, Staged;
      var staged: map<string, string> := map[];
      NothingStaged(text, p);
      for i := 0 to |p|
        invariant staged == Staged(text, p[..i]) && DistinctAddrs(text, p[..i])
        invariant forall j :: 0 <= j < i ==> Clear(text, ports, p[j])
      {
        StageOne(text, p, i);
        var unique := EnsurePortUnique(p[i], "", staged);
        assert Clear(text, ports, p[i]) <==> p[i].id !in ports && AddressFree(text, ports, p[i], "");
        if !unique {
          DistinctPrefix(text, p, i + 1);
          return false;
        }
        staged := staged[Addr(text, p[i]) := p[i].id];
      }
      assert p[..|p|] == p;
      DistinctPrefix(text, p, |p|);
      return true;
    }

    /** The third loop: every entry under its identifier. */
    method StoreBatch(p: seq<Config>)
      modifies this
      ensures ports == old(ports) + ByID(p)
    {
      for i := 0 to |p|
        invariant ports == old(ports) + ByID(p[..i])
      {
        assert p[..i + 1][..i] == p[..i];
        ports := ports[p[i].id := p[i]];
      }
      assert p[..|p|] == p;
    }

    /** AddPorts copies its entries before validating them, so the caller's objects stay as they are. */
    method AddPorts(cfgs: seq<Option<Config>>, saves: bool) returns (outcome: SaveOutcome)
      requires Valid()
      modifies this
      ensures outcome == OutcomeOf(AfterAddAll(text, old(ports), cfgs), saves)
      ensures ports == Kept(old(ports), AfterAddAll(text, old(ports), cfgs)) && Valid()
    {
      hide Addr, ApplyDefaults, Acceptable, Separate, Distinct, Clear;
      StepConsistent(text, ports, AddAll(cfgs));
      if |cfgs| == 0 {
        return Refused;
      }
      var prepared := PrepareBatch(cfgs);
      if prepared.None? {
        return Refused;
      }
      PreparedHaveIDs(text, cfgs, false);
      var ok := EnsureBatchUnique(prepared.value);
      if !ok {
        return Refused;
      }
      StoreBatch(prepared.value);
      return if saves then Saved else SaveFailed;
    }

    /** The file a save writes: each stored entry once, in the order the map is walked. */
    method Save() returns (cfgs: seq<Option<Config>>)
      requires Valid()
      ensures PortTheorems.Writes(ports, cfgs)
    {
      hide Separate;
      cfgs := [];
      var ids := ports.Keys;
      while ids != {}
        invariant ids <= ports.Keys && WritesAllBut(ports, ids, cfgs)
        decreases |ids|
      {
        var id :| id in ids;
        WriteOne(ports, ids, cfgs, id);
        cfgs := cfgs + [Some(ports[id])];
        ids := ids - {id};
      }
    }
  }
}
