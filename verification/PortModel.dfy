/**
  The proxy-port configuration manager: entries under their identifiers, no two of them
  listening on the same address, changed by loading, adding, updating and deleting.
 */
module PortModel {
  import opened Options

  /** What the manager asks of strings without looking inside them. */
  datatype Text = Text(
    lower: string -> string,
    trim: string -> string,
    listenable: string -> bool,
    clock: string -> bool,
    network: string -> bool)

  /** One entry; `carried` stands for the fields that are stored and never inspected. */
  datatype Config = Config(
    id: string, name: string, listenAddr: string, kind: string, allowList: seq<string>,
    intervalMinutes: int, topCandidates: int,
    fullScanMode: string, fullScanTime: string, fullScanHours: int, carried: int)

  type Ports = map<string, Config>

  // ---------------------------------------------------------------- one entry

  function Canonical(t: Text, s: string): string {
    t.lower(t.trim(s))
  }

  function ApplyDefaults(t: Text, c: Config): Config {
    var kind := Canonical(t, c.kind);
    c.(kind := if kind == "sock" then "socks4" else kind,
       allowList := if |c.allowList| == 0 then ["0.0.0.0/0"] else c.allowList,
       id := if |c.id| == 0 && |c.name| > 0 then c.name else c.id,
       fullScanMode := Canonical(t, c.fullScanMode),
       intervalMinutes := if c.intervalMinutes <= 0 then 10 else c.intervalMinutes,
       topCandidates := if c.topCandidates == 0 then 10 else if c.topCandidates < 0 then 0 else c.topCandidates,
       fullScanTime := if |t.trim(c.fullScanTime)| == 0 then "04:00" else c.fullScanTime,
       fullScanHours := if c.fullScanHours <= 0 then 24 else c.fullScanHours)
  }

  predicate Acceptable(t: Text, c: Config) {
    && |c.id| > 0 && |c.name| > 0 && |c.listenAddr| > 0
    && t.listenable(c.listenAddr)
    && (c.kind == "http" || c.kind == "socks5" || c.kind == "socks4" || c.kind == "mixed")
    && c.intervalMinutes >= 1 && c.topCandidates >= 0
    && (|c.fullScanMode| == 0 || (c.fullScanMode == "daily" && t.clock(c.fullScanTime)) || (c.fullScanMode == "interval" && c.fullScanHours >= 1))
    && forall i :: 0 <= i < |c.allowList| ==> t.network(c.allowList[i])
  }

  function Validate(t: Text, c: Config): Option<Config> {
    var d := ApplyDefaults(t, c);
    if Acceptable(t, d) then Some(d) else None
  }

  /** Facts about lower-casing and trimming that reading an entry twice relies on. */
  ghost predicate Sane(t: Text) {
    && (forall s :: Canonical(t, Canonical(t, s)) == Canonical(t, s))
    && Canonical(t, "socks4") == "socks4"
    && |t.trim("04:00")| > 0
  }

  /** An entry that validation has been through. */
  predicate Settled(t: Text, c: Config) {
    && Acceptable(t, c)
    && Canonical(t, c.kind) == c.kind && Canonical(t, c.fullScanMode) == c.fullScanMode
    && |c.allowList| > 0 && |t.trim(c.fullScanTime)| > 0 && c.fullScanHours > 0
  }

  /** What a second validation makes of a settled entry: a zero candidate count turns into ten. */
  function Revalidated(c: Config): Config {
    if c.topCandidates == 0 then c.(topCandidates := 10) else c
  }

  lemma ValidateSettles(t: Text, c: Config)
    requires Sane(t) && Validate(t, c).Some?
    ensures Settled(t, Validate(t, c).value)
  {
    assert Canonical(t, Canonical(t, c.kind)) == Canonical(t, c.kind);
    assert Canonical(t, Canonical(t, c.fullScanMode)) == Canonical(t, c.fullScanMode);
  }

  /** A settled entry is accepted again, and comes out the same exactly when its candidate count is not zero. */
  lemma SecondValidation(t: Text, c: Config)
    requires Settled(t, c)
    ensures Validate(t, c) == Some(Revalidated(c))
    ensures Validate(t, c) == Some(c) <==> c.topCandidates != 0
  {
    assert c.kind != "sock";
    assert ApplyDefaults(t, c) == Revalidated(c);
  }

  /** The inputs that end up with a zero count are the negative ones. */
  lemma ZeroComesFromNegative(t: Text, c: Config)
    requires Validate(t, c).Some?
    ensures Validate(t, c).value.topCandidates == 0 <==> c.topCandidates < 0
  {
  }

  // ---------------------------------------------------------------- lists of entries

  function Addr(t: Text, c: Config): string {
    Canonical(t, c.listenAddr)
  }

  /** The validated entries of a list; reading a file skips nil entries, adding refuses them. */
  function Prepare(t: Text, cfgs: seq<Option<Config>>, skipNil: bool): Option<seq<Config>> {
    if |cfgs| == 0 then Some([])
    else
      var before := Prepare(t, cfgs[..|cfgs| - 1], skipNil);
      var last := cfgs[|cfgs| - 1];
      if before.None? then None
      else if last.None? then (if skipNil then before else None)
      else if Validate(t, last.value).None? then None
      else Some(before.value + [Validate(t, last.value).value])
  }

  predicate Distinct(t: Text, p: seq<Config>) {
    forall i, j :: 0 <= i < j < |p| ==> p[i].id != p[j].id && Addr(t, p[i]) != Addr(t, p[j])
  }

  function ByID(p: seq<Config>): Ports {
    if |p| == 0 then map[] else ByID(p[..|p| - 1])[p[|p| - 1].id := p[|p| - 1]]
  }

  /** The list a file holds, if the whole of it is acceptable. */
  function Listed(t: Text, cfgs: seq<Option<Config>>): Option<seq<Config>> {
    var p := Prepare(t, cfgs, true);
    if p.Some? && Distinct(t, p.value) then p else None
  }

  /** Nothing stored has the entry's identifier or its address. */
  predicate Clear(t: Text, ports: Ports, c: Config) {
    c.id !in ports && forall k :: k in ports ==> Addr(t, ports[k]) != Addr(t, c)
  }

  predicate Fits(t: Text, ports: Ports, p: seq<Config>) {
    Distinct(t, p) && forall i :: 0 <= i < |p| ==> Clear(t, ports, p[i])
  }

  // ---------------------------------------------------------------- operations

  datatype File = Missing | Unreadable | Unparsable | Entries(cfgs: seq<Option<Config>>)

  function AfterLoad(t: Text, file: File): Option<Ports> {
    match file
    case Missing => Some(map[])
    case Unreadable => None
    case Unparsable => None
    case Entries(cfgs) =>
      var p := Listed(t, cfgs);
      if p.Some? then Some(ByID(p.value)) else None
  }

  function AfterAdd(t: Text, ports: Ports, cfg: Option<Config>): Option<Ports> {
    if cfg.None? then None
    else
      var v := Validate(t, cfg.value);
      if v.Some? && Clear(t, ports, v.value) then Some(ports[v.value.id := v.value]) else None
  }

  function AfterAddAll(t: Text, ports: Ports, cfgs: seq<Option<Config>>): Option<Ports> {
    var p := Prepare(t, cfgs, false);
    if |cfgs| > 0 && p.Some? && Fits(t, ports, p.value) then Some(ports + ByID(p.value)) else None
  }

  /** An entry may take the place of `id`: its identifier is free or stays, its address is free otherwise. */
  function AfterUpdate(t: Text, ports: Ports, id: string, cfg: Option<Config>): Option<Ports> {
    if cfg.None? || id !in ports then None
    else
      var v := Validate(t, cfg.value);
      if v.Some? && Clear(t, ports - {id}, v.value) then Some((ports - {id})[v.value.id := v.value]) else None
  }

  function AfterDelete(ports: Ports, id: string): Option<Ports> {
    if id in ports then Some(ports - {id}) else None
  }

  datatype Op =
    | LoadFrom(file: File)
    | Add(cfg: Option<Config>)
    | AddAll(cfgs: seq<Option<Config>>)
    | Update(id: string, cfg: Option<Config>)
    | Delete(id: string)

  function After(t: Text, ports: Ports, op: Op): Option<Ports> {
    match op
    case LoadFrom(file) => AfterLoad(t, file)
    case Add(cfg) => AfterAdd(t, ports, cfg)
    case AddAll(cfgs) => AfterAddAll(t, ports, cfgs)
    case Update(id, cfg) => AfterUpdate(t, ports, id, cfg)
    case Delete(id) => AfterDelete(ports, id)
  }

  function RunOps(t: Text, ops: seq<Op>): Ports {
    if |ops| == 0 then map[]
    else
      var before := RunOps(t, ops[..|ops| - 1]);
      Kept(before, After(t, before, ops[|ops| - 1]))
  }

  // ---------------------------------------------------------------- the invariant

  predicate Keyed(ports: Ports) {
    forall k :: k in ports ==> ports[k].id == k && |k| > 0
  }

  predicate Separate(t: Text, ports: Ports) {
    forall k, l :: k in ports && l in ports && k != l ==> Addr(t, ports[k]) != Addr(t, ports[l])
  }

  predicate Consistent(t: Text, ports: Ports) {
    Keyed(ports) && Separate(t, ports)
  }

  predicate AllSettled(t: Text, ports: Ports) {
    forall k :: k in ports ==> Settled(t, ports[k])
  }

  lemma ByIDKnown(p: seq<Config>, k: string)
    requires k in ByID(p)
    ensures exists i :: 0 <= i < |p| && p[i].id == k && ByID(p)[k] == p[i]
  {
    if p[|p| - 1].id != k {
      ByIDKnown(p[..|p| - 1], k);
    }
  }

  lemma {:induction false} ByIDHolds(t: Text, p: seq<Config>, i: nat)
    requires Distinct(t, p) && i < |p|
    ensures p[i].id in ByID(p) && ByID(p)[p[i].id] == p[i]
  {
    if i < |p| - 1 {
      ByIDHolds(t, p[..|p| - 1], i);
    }
  }

  /** The entry came out of validation. */
  ghost predicate IsValidated(t: Text, c: Config) {
    exists raw :: Validate(t, raw) == Some(c)
  }

  lemma {:induction false} PreparedAre(t: Text, cfgs: seq<Option<Config>>, skipNil: bool)
    requires Prepare(t, cfgs, skipNil).Some?
    ensures forall i :: 0 <= i < |Prepare(t, cfgs, skipNil).value| ==> IsValidated(t, Prepare(t, cfgs, skipNil).value[i])
  {
    hide Validate;
    if |cfgs| > 0 {
      var init, last := cfgs[..|cfgs| - 1], cfgs[|cfgs| - 1];
      PreparedAre(t, init, skipNil);
      if last.Some? {
        assert IsValidated(t, Validate(t, last.value).value);
      }
    }
  }

  lemma ValidatedHasID(t: Text, c: Config)
    requires IsValidated(t, c)
    ensures |c.id| > 0
  {
  }

  lemma PreparedHaveIDs(t: Text, cfgs: seq<Option<Config>>, skipNil: bool)
    requires Prepare(t, cfgs, skipNil).Some?
    ensures forall i :: 0 <= i < |Prepare(t, cfgs, skipNil).value| ==> |Prepare(t, cfgs, skipNil).value[i].id| > 0
  {
    PreparedAre(t, cfgs, skipNil);
    var p := Prepare(t, cfgs, skipNil).value;
    forall i | 0 <= i < |p|
      ensures |p[i].id| > 0
    {
      ValidatedHasID(t, p[i]);
    }
  }

  lemma ListConsistent(t: Text, p: seq<Config>)
    requires Distinct(t, p) && forall i :: 0 <= i < |p| ==> |p[i].id| > 0
    ensures Consistent(t, ByID(p))
  {
    forall k | k in ByID(p)
      ensures ByID(p)[k].id == k && |k| > 0
    {
      ByIDKnown(p, k);
    }
    forall k, l | k in ByID(p) && l in ByID(p) && k != l
      ensures Addr(t, ByID(p)[k]) != Addr(t, ByID(p)[l])
    {
      ByIDKnown(p, k);
      ByIDKnown(p, l);
    }
  }

  lemma BatchConsistent(t: Text, ports: Ports, p: seq<Config>)
    requires Consistent(t, ports) && Fits(t, ports, p) && forall i :: 0 <= i < |p| ==> |p[i].id| > 0
    ensures Consistent(t, ports + ByID(p))
  {
    var all := ports + ByID(p);
    ListConsistent(t, p);
    forall k, l | k in ports && l in ByID(p)
      ensures k != l && Addr(t, ports[k]) != Addr(t, ByID(p)[l])
    {
      ByIDKnown(p, l);
    }
    forall k, l | k in all && l in all && k != l
      ensures Addr(t, all[k]) != Addr(t, all[l])
    {
      if k in ByID(p) && l !in ByID(p) {
        assert Addr(t, ports[l]) != Addr(t, ByID(p)[k]);
      }
    }
  }

  lemma InsertConsistent(t: Text, ports: Ports, c: Config)
    requires Consistent(t, ports) && Clear(t, ports, c) && |c.id| > 0
    ensures Consistent(t, ports[c.id := c])
  {
  }

  lemma StepConsistent(t: Text, ports: Ports, op: Op)
    requires Consistent(t, ports)
    ensures Consistent(t, Kept(ports, After(t, ports, op)))
  {
    hide ApplyDefaults;
    match op
    case LoadFrom(file) =>
      if file.Entries? && Listed(t, file.cfgs).Some? {
        PreparedHaveIDs(t, file.cfgs, true);
        ListConsistent(t, Listed(t, file.cfgs).value);
      }
    case AddAll(cfgs) =>
      if AfterAddAll(t, ports, cfgs).Some? {
        PreparedHaveIDs(t, cfgs, false);
        BatchConsistent(t, ports, Prepare(t, cfgs, false).value);
      }
    case Add(cfg) =>
      if AfterAdd(t, ports, cfg).Some? {
        InsertConsistent(t, ports, Validate(t, cfg.value).value);
      }
    case Update(id, cfg) =>
      if AfterUpdate(t, ports, id, cfg).Some? {
        InsertConsistent(t, ports - {id}, Validate(t, cfg.value).value);
      }
    case Delete(_) =>
  }

  /** Keys are identifiers and addresses are pairwise distinct in every reachable state. */
  lemma {:induction false} RunConsistent(t: Text, ops: seq<Op>)
    ensures Consistent(t, RunOps(t, ops))
  {
    if |ops| > 0 {
      RunConsistent(t, ops[..|ops| - 1]);
      StepConsistent(t, RunOps(t, ops[..|ops| - 1]), ops[|ops| - 1]);
    }
  }

  lemma SettledList(t: Text, cfgs: seq<Option<Config>>, skipNil: bool)
    requires Sane(t) && Prepare(t, cfgs, skipNil).Some?
    ensures AllSettled(t, ByID(Prepare(t, cfgs, skipNil).value))
  {
    var p := Prepare(t, cfgs, skipNil).value;
    PreparedAre(t, cfgs, skipNil);
    forall k | k in ByID(p)
      ensures Settled(t, ByID(p)[k])
    {
      ByIDKnown(p, k);
      var i :| 0 <= i < |p| && ByID(p)[k] == p[i];
      var raw :| Validate(t, raw) == Some(p[i]);
      ValidateSettles(t, raw);
    }
  }

  lemma StepSettled(t: Text, ports: Ports, op: Op)
    requires Sane(t) && AllSettled(t, ports)
    ensures AllSettled(t, Kept(ports, After(t, ports, op)))
  {
    match op
    case LoadFrom(file) =>
      if file.Entries? && Listed(t, file.cfgs).Some? {
        SettledList(t, file.cfgs, true);
      }
    case AddAll(cfgs) =>
      if AfterAddAll(t, ports, cfgs).Some? {
        SettledList(t, cfgs, false);
      }
    case Add(cfg) =>
      if cfg.Some? && Validate(t, cfg.value).Some? {
        ValidateSettles(t, cfg.value);
      }
    case Update(_, cfg) =>
      if cfg.Some? && Validate(t, cfg.value).Some? {
        ValidateSettles(t, cfg.value);
      }
    case Delete(_) =>
  }

  lemma {:induction false} RunSettled(t: Text, ops: seq<Op>)
    requires Sane(t)
    ensures AllSettled(t, RunOps(t, ops))
  {
    if |ops| > 0 {
      RunSettled(t, ops[..|ops| - 1]);
      StepSettled(t, RunOps(t, ops[..|ops| - 1]), ops[|ops| - 1]);
    }
  }

  // ---------------------------------------------------------------- entries and operations, seen by a caller

  /** Exactly which entries are accepted, said of the entry as it is given. */
  lemma AcceptedIff(t: Text, c: Config)
    ensures Validate(t, c).Some? <==>
              && |c.name| > 0 && |c.listenAddr| > 0 && t.listenable(c.listenAddr)
              && t.lower(t.trim(c.kind)) in ["http", "socks5", "socks4", "sock", "mixed"]
              && (var mode := t.lower(t.trim(c.fullScanMode));
                  mode == "" || mode == "interval"
                  || (mode == "daily" && t.clock(if |t.trim(c.fullScanTime)| == 0 then "04:00" else c.fullScanTime)))
              && (if |c.allowList| == 0 then t.network("0.0.0.0/0") else forall i :: 0 <= i < |c.allowList| ==> t.network(c.allowList[i]))
  {
    var d := ApplyDefaults(t, c);
    assert |d.id| > 0 <==> |c.id| > 0 || |c.name| > 0;
    assert d.fullScanMode == "" <==> |d.fullScanMode| == 0;
    if |c.allowList| == 0 {
      assert d.allowList[0] == "0.0.0.0/0";
    }
  }

  /** What an accepted entry looks like: given values are kept where they are in range, the others get fixed defaults. */
  lemma AcceptedEntry(t: Text, c: Config)
    requires Validate(t, c).Some?
    ensures var v := Validate(t, c).value;
      && v.name == c.name && v.listenAddr == c.listenAddr && v.carried == c.carried
      && (c.id != "" ==> v.id == c.id) && (c.id == "" ==> v.id == c.name)
      && (v.kind == if t.lower(t.trim(c.kind)) == "sock" then "socks4" else t.lower(t.trim(c.kind)))
      && v.fullScanMode == t.lower(t.trim(c.fullScanMode))
      && (c.allowList != [] ==> v.allowList == c.allowList) && (c.allowList == [] ==> v.allowList == ["0.0.0.0/0"])
      && (c.intervalMinutes >= 1 ==> v.intervalMinutes == c.intervalMinutes) && (c.intervalMinutes < 1 ==> v.intervalMinutes == 10)
      && (c.topCandidates >= 1 ==> v.topCandidates == c.topCandidates) && (c.topCandidates == 0 ==> v.topCandidates == 10)
      && (c.topCandidates < 0 ==> v.topCandidates == 0)
      && (c.fullScanHours >= 1 ==> v.fullScanHours == c.fullScanHours) && (c.fullScanHours < 1 ==> v.fullScanHours == 24)
      && (v.fullScanTime == if t.trim(c.fullScanTime) == "" then "04:00" else c.fullScanTime)
  {
    assert c.id == "" <==> |c.id| == 0;
    assert c.allowList == [] <==> |c.allowList| == 0;
    assert t.trim(c.fullScanTime) == "" <==> |t.trim(c.fullScanTime)| == 0;
  }

  /** In every reachable state the addresses differ after trimming and lower-casing. */
  lemma ReachableAddressesDiffer(t: Text, ops: seq<Op>, k: string, l: string)
    requires k in RunOps(t, ops) && l in RunOps(t, ops) && k != l
    ensures t.lower(t.trim(RunOps(t, ops)[k].listenAddr)) != t.lower(t.trim(RunOps(t, ops)[l].listenAddr))
  {
    RunConsistent(t, ops);
    assert Addr(t, RunOps(t, ops)[k]) != Addr(t, RunOps(t, ops)[l]);
  }

  /** Exactly when an entry is added: it is acceptable, and neither its identifier nor its address is in use. */
  lemma AddedIff(t: Text, ports: Ports, c: Config)
    ensures AfterAdd(t, ports, Some(c)).Some? <==>
              && Validate(t, c).Some? && Validate(t, c).value.id !in ports
              && forall k :: k in ports ==> t.lower(t.trim(ports[k].listenAddr)) != t.lower(t.trim(c.listenAddr))
    ensures AfterAdd(t, ports, Some(c)).Some? ==>
              AfterAdd(t, ports, Some(c)).value == ports[Validate(t, c).value.id := Validate(t, c).value]
    ensures AfterAdd(t, ports, None) == None
  {
    hide Acceptable, ApplyDefaults;
    if Validate(t, c).Some? {
      SameAddress(t, c);
    }
  }

  /** Exactly when an entry is replaced: it exists, and the new one clashes with no other entry. */
  lemma UpdatedIff(t: Text, ports: Ports, id: string, c: Config)
    ensures AfterUpdate(t, ports, id, Some(c)).Some? <==>
              && id in ports && Validate(t, c).Some? && (Validate(t, c).value.id == id || Validate(t, c).value.id !in ports)
              && forall k :: k in ports && k != id ==> t.lower(t.trim(ports[k].listenAddr)) != t.lower(t.trim(c.listenAddr))
    ensures AfterUpdate(t, ports, id, None) == None
  {
    hide Acceptable, ApplyDefaults;
    if Validate(t, c).Some? {
      SameAddress(t, c);
      var others := ports - {id};
      assert forall k :: k in others <==> k in ports && k != id;
      assert forall k :: k in others ==> others[k] == ports[k];
    }
  }

  lemma SameAddress(t: Text, c: Config)
    requires Validate(t, c).Some?
    ensures Addr(t, Validate(t, c).value) == t.lower(t.trim(c.listenAddr))
  {
  }

  /** A missing file is an empty one, an unreadable file changes nothing, an empty batch and a nil entry are refused. */
  lemma EdgeCases(t: Text, ports: Ports, before: seq<Option<Config>>, after: seq<Option<Config>>)
    ensures AfterLoad(t, Missing) == Some(map[])
    ensures AfterLoad(t, Unreadable) == None && AfterLoad(t, Unparsable) == None
    ensures AfterAddAll(t, ports, []) == None
    ensures AfterAddAll(t, ports, before + [None] + after) == None
  {
    hide Validate, Fits, ByID;
    NilRefused(t, before, after);
    hide Prepare;
  }

  lemma {:induction false} NilRefused(t: Text, before: seq<Option<Config>>, after: seq<Option<Config>>)
    ensures Prepare(t, before + [None] + after, false) == None
  {
    var all := before + [None] + after;
    if |after| == 0 {
      assert all[..|all| - 1] == before && all[|all| - 1] == None;
    } else {
      assert all[..|all| - 1] == before + [None] + after[..|after| - 1];
      NilRefused(t, before, after[..|after| - 1]);
    }
  }

  /** Reading a file skips nil entries. */
  lemma {:induction false} NilSkipped(t: Text, before: seq<Option<Config>>, after: seq<Option<Config>>)
    ensures Prepare(t, before + [None] + after, true) == Prepare(t, before + after, true)
  {
    hide Validate;
    var all, fewer := before + [None] + after, before + after;
    if |after| == 0 {
      assert all[..|all| - 1] == before && all[|all| - 1] == None;
      assert fewer == before;
    } else {
      assert all[..|all| - 1] == before + [None] + after[..|after| - 1];
      assert fewer[..|fewer| - 1] == before + after[..|after| - 1];
      NilSkipped(t, before, after[..|after| - 1]);
    }
  }

  lemma LoadSkipsNil(t: Text, before: seq<Option<Config>>, after: seq<Option<Config>>)
    ensures AfterLoad(t, Entries(before + [None] + after)) == AfterLoad(t, Entries(before + after))
  {
    NilSkipped(t, before, after);
  }
}
