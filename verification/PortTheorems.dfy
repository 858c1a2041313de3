/** What the proxy-port manager's operations promise together. */
module PortTheorems {
  import opened Options
  import opened PortModel

  // ---------------------------------------------------------------- a batch is its entries, one by one

  /** AddPort for each entry in turn, giving up at the first refusal. */
  function AddEach(t: Text, ports: Ports, cfgs: seq<Option<Config>>): Option<Ports> {
    if |cfgs| == 0 then Some(ports)
    else
      var before := AddEach(t, ports, cfgs[..|cfgs| - 1]);
      if before.None? then None else AfterAdd(t, before.value, cfgs[|cfgs| - 1])
  }

  lemma FitsSplit(t: Text, ports: Ports, p: seq<Config>, c: Config)
    requires Fits(t, ports, p + [c])
    ensures Fits(t, ports, p) && Clear(t, ports + ByID(p), c)
  {
    hide Addr;
    var q := p + [c];
    assert q[|p|] == c && forall i :: 0 <= i < |p| ==> q[i] == p[i];
    forall k | k in ByID(p)
      ensures k != c.id && Addr(t, ByID(p)[k]) != Addr(t, c)
    {
      ByIDKnown(p, k);
    }
  }

  lemma FitsJoin(t: Text, ports: Ports, p: seq<Config>, c: Config)
    requires Fits(t, ports, p) && Clear(t, ports + ByID(p), c)
    ensures Fits(t, ports, p + [c])
  {
    hide Addr;
    var all := ports + ByID(p);
    forall i | 0 <= i < |p|
      ensures p[i].id != c.id && Addr(t, p[i]) != Addr(t, c)
    {
      ByIDHolds(t, p, i);
      assert p[i].id in all && all[p[i].id] == p[i];
    }
    forall k | k in ports
      ensures Addr(t, ports[k]) != Addr(t, c)
    {
      if k in ByID(p) {
        ByIDKnown(p, k);
      }
      assert all[k] == ports[k];
    }
  }

  lemma FitsOneMore(t: Text, ports: Ports, p: seq<Config>, c: Config)
    ensures Fits(t, ports, p + [c]) <==> Fits(t, ports, p) && Clear(t, ports + ByID(p), c)
  {
    if Fits(t, ports, p + [c]) {
      FitsSplit(t, ports, p, c);
    } else if Fits(t, ports, p) && Clear(t, ports + ByID(p), c) {
      FitsJoin(t, ports, p, c);
    }
  }

  lemma {:induction false} EachFits(t: Text, ports: Ports, cfgs: seq<Option<Config>>)
    ensures AddEach(t, ports, cfgs)
         == var p := Prepare(t, cfgs, false);
            if p.Some? && Fits(t, ports, p.value) then Some(ports + ByID(p.value)) else None
  {
    hide Validate, Fits, Clear;
    if |cfgs| == 0 {
      assert Fits(t, ports, []) by { NothingFits(t, ports); }
      assert ports + map[] == ports;
    } else {
      var init, last := cfgs[..|cfgs| - 1], cfgs[|cfgs| - 1];
      EachFits(t, ports, init);
      if Prepare(t, cfgs, false).Some? {
        var p, c := Prepare(t, init, false).value, Validate(t, last.value).value;
        FitsOneMore(t, ports, p, c);
        assert (p + [c])[..|p|] == p;
        assert (ports + ByID(p))[c.id := c] == ports + ByID(p + [c]);
      }
    }
  }

  lemma NothingFits(t: Text, ports: Ports)
    ensures Fits(t, ports, [])
  {
  }

  /** AddPorts accepts a list exactly when AddPort would accept its entries one after another, with the same result. */
  lemma BatchIsSequence(t: Text, ports: Ports, cfgs: seq<Option<Config>>)
    requires |cfgs| > 0
    ensures AfterAddAll(t, ports, cfgs) == AddEach(t, ports, cfgs)
  {
    EachFits(t, ports, cfgs);
  }

  lemma {:induction false} PreparedEach(t: Text, cfgs: seq<Option<Config>>)
    requires Prepare(t, cfgs, false).Some?
    ensures |Prepare(t, cfgs, false).value| == |cfgs|
    ensures forall i :: 0 <= i < |cfgs| ==> cfgs[i].Some? && Validate(t, cfgs[i].value) == Some(Prepare(t, cfgs, false).value[i])
  {
    hide Validate;
    if |cfgs| > 0 {
      PreparedEach(t, cfgs[..|cfgs| - 1]);
    }
  }

  /** The entry was not there before and is there now. */
  predicate StoredNew(t: Text, ports: Ports, after: Ports, cfg: Option<Config>) {
    cfg.Some?
    && var v := Validate(t, cfg.value);
    v.Some? && v.value.id !in ports && v.value.id in after && after[v.value.id] == v.value
  }

  /** An accepted batch is stored whole, each entry under its own identifier, and nothing else changes. */
  lemma BatchIsWhole(t: Text, ports: Ports, cfgs: seq<Option<Config>>)
    requires AfterAddAll(t, ports, cfgs).Some?
    ensures var after := AfterAddAll(t, ports, cfgs).value;
      && (forall i :: 0 <= i < |cfgs| ==> StoredNew(t, ports, after, cfgs[i]))
      && (forall k :: k in ports ==> k in after && after[k] == ports[k])
      && |after| == |ports| + |cfgs|
  {
    var p := Prepare(t, cfgs, false).value;
    PreparedEach(t, cfgs);
    forall i | 0 <= i < |cfgs|
      ensures p[i].id !in ports && p[i].id in ByID(p) && ByID(p)[p[i].id] == p[i]
    {
      ByIDHolds(t, p, i);
    }
    forall k | k in ports
      ensures k !in ByID(p)
    {
      if k in ByID(p) {
        ByIDKnown(p, k);
      }
    }
    ByIDSize(t, p);
    assert (ports + ByID(p)).Keys == ports.Keys + ByID(p).Keys;
    assert |ports.Keys + ByID(p).Keys| == |ports.Keys| + |ByID(p).Keys|;
  }

  lemma {:induction false} ByIDSize(t: Text, p: seq<Config>)
    requires Distinct(t, p)
    ensures |ByID(p)| == |p|
  {
    if |p| > 0 {
      var q, c := p[..|p| - 1], p[|p| - 1];
      ByIDSize(t, q);
      assert c.id !in ByID(q) by {
        if c.id in ByID(q) {
          ByIDKnown(q, c.id);
        }
      }
      assert ByID(p).Keys == ByID(q).Keys + {c.id};
    }
  }

  // ---------------------------------------------------------------- saving and loading

  /** A file that lists every stored entry once, in some order. */
  predicate Writes(ports: Ports, cfgs: seq<Option<Config>>) {
    && (forall i :: 0 <= i < |cfgs| ==> cfgs[i].Some? && cfgs[i].value.id in ports && cfgs[i].value == ports[cfgs[i].value.id])
    && (forall i, j :: 0 <= i < j < |cfgs| ==> cfgs[i].value.id != cfgs[j].value.id)
    && forall k :: k in ports ==> exists i :: 0 <= i < |cfgs| && cfgs[i].value.id == k
  }

  lemma {:induction false} PreparedAgain(t: Text, cfgs: seq<Option<Config>>)
    requires forall i :: 0 <= i < |cfgs| ==> cfgs[i].Some? && Settled(t, cfgs[i].value)
    ensures Prepare(t, cfgs, true).Some? && |Prepare(t, cfgs, true).value| == |cfgs|
    ensures forall i :: 0 <= i < |cfgs| ==> Prepare(t, cfgs, true).value[i] == Revalidated(cfgs[i].value)
  {
    hide Validate, Settled, Revalidated;
    if |cfgs| > 0 {
      PreparedAgain(t, cfgs[..|cfgs| - 1]);
      SecondValidation(t, cfgs[|cfgs| - 1].value);
    }
  }

  function AllRevalidated(ports: Ports): Ports {
    map k | k in ports :: Revalidated(ports[k])
  }

  lemma RevalidatedKeeps(t: Text, c: Config)
    ensures Revalidated(c).id == c.id && Addr(t, Revalidated(c)) == Addr(t, c)
  {
  }

  lemma WrittenDistinct(t: Text, ports: Ports, cfgs: seq<Option<Config>>, p: seq<Config>)
    requires Separate(t, ports) && Writes(ports, cfgs)
    requires |p| == |cfgs| && forall i :: 0 <= i < |p| ==> p[i] == Revalidated(cfgs[i].value)
    ensures Distinct(t, p)
  {
    hide Revalidated, Addr;
    forall i, j | 0 <= i < j < |p|
      ensures p[i].id != p[j].id && Addr(t, p[i]) != Addr(t, p[j])
    {
      RevalidatedKeeps(t, cfgs[i].value);
      RevalidatedKeeps(t, cfgs[j].value);
    }
  }

  /** What comes back from a saved file: every entry, validated once more. */
  lemma LoadAfterSave(t: Text, ports: Ports, cfgs: seq<Option<Config>>)
    requires Consistent(t, ports) && AllSettled(t, ports) && Writes(ports, cfgs)
    ensures AfterLoad(t, Entries(cfgs)) == Some(AllRevalidated(ports))
  {
    hide Settled, Validate, Revalidated, Addr;
    PreparedAgain(t, cfgs);
    var p := Prepare(t, cfgs, true).value;
    WrittenDistinct(t, ports, cfgs, p);
    WrittenByID(t, ports, cfgs, p);
  }

  lemma WrittenByID(t: Text, ports: Ports, cfgs: seq<Option<Config>>, p: seq<Config>)
    requires Writes(ports, cfgs) && Distinct(t, p)
    requires |p| == |cfgs| && forall i :: 0 <= i < |p| ==> p[i] == Revalidated(cfgs[i].value)
    ensures ByID(p) == AllRevalidated(ports)
  {
    hide Revalidated, Addr, Distinct;
    forall k | k in ports
      ensures k in ByID(p) && ByID(p)[k] == Revalidated(ports[k])
    {
      var i :| 0 <= i < |cfgs| && cfgs[i].value.id == k;
      RevalidatedKeeps(t, cfgs[i].value);
      ByIDHolds(t, p, i);
    }
    forall k | k in ByID(p)
      ensures k in ports
    {
      ByIDKnown(p, k);
      var i :| 0 <= i < |p| && p[i].id == k;
      RevalidatedKeeps(t, cfgs[i].value);
    }
  }

  /**
    Saving and reloading gives back the same ports exactly when no entry has a zero
    candidate count; such entries are the ones that were given a negative count.
   */
  lemma ReloadIsIdentityIff(t: Text, ops: seq<Op>, cfgs: seq<Option<Config>>)
    requires Sane(t) && Writes(RunOps(t, ops), cfgs)
    ensures AfterLoad(t, Entries(cfgs)) == Some(RunOps(t, ops))
       <==> forall k :: k in RunOps(t, ops) ==> RunOps(t, ops)[k].topCandidates != 0
  {
    var ports := RunOps(t, ops);
    RunConsistent(t, ops);
    RunSettled(t, ops);
    LoadAfterSave(t, ports, cfgs);
    RevalidatedSameIff(ports);
    hide *;
  }

  lemma RevalidatedSameIff(ports: Ports)
    ensures AllRevalidated(ports) == ports <==> forall k :: k in ports ==> ports[k].topCandidates != 0
  {
    var again := AllRevalidated(ports);
    assert forall k :: k in ports ==> (again[k] == ports[k] <==> ports[k].topCandidates != 0);
    assert again.Keys == ports.Keys;
    if forall k :: k in ports ==> again[k] == ports[k] {
      assert again == ports;
    }
  }

  // ---------------------------------------------------------------- undoing

  /** Deleting what was just added, under the identifier it got, restores the ports. */
  lemma DeleteUndoesAdd(t: Text, ports: Ports, cfg: Config)
    requires AfterAdd(t, ports, Some(cfg)).Some?
    ensures AfterDelete(AfterAdd(t, ports, Some(cfg)).value, Validate(t, cfg).value.id) == Some(ports)
  {
    var id := Validate(t, cfg).value.id;
    assert AfterAdd(t, ports, Some(cfg)).value - {id} == ports;
  }

  /** An accepted update, renaming or not, can always be taken back by updating to the old entry. */
  lemma UpdateUndoesUpdate(t: Text, ports: Ports, id: string, cfg: Config)
    requires Consistent(t, ports) && AllSettled(t, ports)
    requires AfterUpdate(t, ports, id, Some(cfg)).Some?
    ensures var after := AfterUpdate(t, ports, id, Some(cfg)).value;
      AfterUpdate(t, after, Validate(t, cfg).value.id, Some(ports[id])) == Some(ports[id := Revalidated(ports[id])])
  {
    hide Settled, ApplyDefaults, Acceptable, Canonical;
    var v, was := Validate(t, cfg).value, ports[id];
    var after := AfterUpdate(t, ports, id, Some(cfg)).value;
    SecondValidation(t, was);
    assert after - {v.id} == ports - {id};
    var r := Revalidated(was);
    assert Addr(t, r) == Addr(t, was) && r.id == id;
    assert Clear(t, ports - {id}, r);
    assert (ports - {id})[id := r] == ports[id := r];
  }
}
