/**
 * The host's flat key-value store and the contract's typed wrappers around it.
 *
 * Keys are the actual tuples and scalars of the storage layer. `Env` holds the two storage tiers
 * and the event log; its ghost `view` is the typed state they encode, and every method says how
 * the view moves.
 */
module Storage {
  import opened Prelude
  import opened Contract

  datatype ScVal = Sym(name: string) | Addr(address: Address) | U32(n: u32) | Bool(b: bool) | Tuple(items: seq<ScVal>)

  // ---------------------------------------------------------------- keys

  datatype Key =
    | CountKey(c: Address)
    | AppKey(t: Triple)
    | AdminKey
    | GlobalCapKey
    | MaintainerKey(m: Address, org: Symbol)
    | OrgCountKey(c: Address, org: Symbol)
    | AssignmentKey(t: Triple)
    | OrgCapKey(org: Symbol)

  /** The key builders. */
  function Encode(k: Key): (v: ScVal)
    ensures Decode(v) == Some(k)
  {
    match k
    case CountKey(c) => Tuple([Sym("g_apps"), Addr(c)])
    case AppKey(t) => Tuple([Sym("app"), Addr(t.who), Sym(t.org), U32(t.issue)])
    case AdminKey => Sym("admin")
    case GlobalCapKey => Sym("g_cap")
    case MaintainerKey(m, org) => Tuple([Sym("maint"), Addr(m), Sym(org)])
    case OrgCountKey(c, org) => Tuple([Sym("o_asgn"), Addr(c), Sym(org)])
    case AssignmentKey(t) => Tuple([Sym("asgn"), Sym(t.org), U32(t.issue), Addr(t.who)])
    case OrgCapKey(org) => Tuple([Sym("o_cap"), Sym(org)])
  }

  /** Reads a stored key back; `None` for a value no builder makes. */
  function Decode(v: ScVal): Option<Key> {
    match v
    case Sym(name) => if name == "admin" then Some(AdminKey) else if name == "g_cap" then Some(GlobalCapKey) else None
    case Tuple(xs) =>
      if |xs| == 2 && xs[0] == Sym("g_apps") && xs[1].Addr? then Some(CountKey(xs[1].address))
      else if |xs| == 2 && xs[0] == Sym("o_cap") && xs[1].Sym? then Some(OrgCapKey(xs[1].name))
      else if |xs| == 3 && xs[0] == Sym("maint") && xs[1].Addr? && xs[2].Sym? then
        Some(MaintainerKey(xs[1].address, xs[2].name))
      else if |xs| == 3 && xs[0] == Sym("o_asgn") && xs[1].Addr? && xs[2].Sym? then
        Some(OrgCountKey(xs[1].address, xs[2].name))
      else if |xs| == 4 && xs[0] == Sym("app") && xs[1].Addr? && xs[2].Sym? && xs[3].U32? then
        Some(AppKey(Triple(xs[1].address, xs[2].name, xs[3].n)))
      else if |xs| == 4 && xs[0] == Sym("asgn") && xs[1].Sym? && xs[2].U32? && xs[3].Addr? then
        Some(AssignmentKey(Triple(xs[3].address, xs[1].name, xs[2].n)))
      else None
    case _ => None
  }

  /** Two keys are the same stored value only if they are the same builder on the same arguments. */
  lemma KeysNeverCollide(k1: Key, k2: Key)
    ensures Encode(k1) == Encode(k2) <==> k1 == k2
  {
  }

  // ---------------------------------------------------------------- what the flat tiers encode

  datatype Slot = Slot(value: ScVal, liveUntil: nat)

  ghost predicate TemporaryAgrees(flat: map<ScVal, Slot>, tmp: Temporary) {
    && (forall c {:trigger Encode(CountKey(c))} ::
          (Encode(CountKey(c)) in flat <==> c in tmp.counts)
          && (c in tmp.counts ==> flat[Encode(CountKey(c))] == Slot(U32(tmp.counts[c].count), tmp.counts[c].liveUntil)))
    && (forall t {:trigger Encode(AppKey(t))} ::
          (Encode(AppKey(t)) in flat <==> t in tmp.apps)
          && (t in tmp.apps ==> flat[Encode(AppKey(t))] == Slot(Bool(true), tmp.apps[t])))
  }

  ghost predicate ConfigAgrees(flat: map<ScVal, ScVal>, cfg: Config) {
    && (Encode(AdminKey) in flat <==> cfg.admin.Some?)
    && (cfg.admin.Some? ==> flat[Encode(AdminKey)] == Addr(cfg.admin.value))
    && (Encode(GlobalCapKey) in flat <==> cfg.globalCap.Some?)
    && (cfg.globalCap.Some? ==> flat[Encode(GlobalCapKey)] == U32(cfg.globalCap.value))
    && (forall org {:trigger Encode(OrgCapKey(org))} ::
          (Encode(OrgCapKey(org)) in flat <==> org in cfg.orgCaps)
          && (org in cfg.orgCaps ==> flat[Encode(OrgCapKey(org))] == U32(cfg.orgCaps[org])))
    && (forall m, org {:trigger Encode(MaintainerKey(m, org))} ::
          (Encode(MaintainerKey(m, org)) in flat <==> (m, org) in cfg.maintainers)
          && ((m, org) in cfg.maintainers ==> flat[Encode(MaintainerKey(m, org))] == Bool(true)))
  }

  ghost predicate RegistryAgrees(flat: map<ScVal, ScVal>, reg: Registry) {
    && (forall c, org {:trigger Encode(OrgCountKey(c, org))} ::
          (Encode(OrgCountKey(c, org)) in flat <==> (c, org) in reg.orgCounts)
          && ((c, org) in reg.orgCounts ==> flat[Encode(OrgCountKey(c, org))] == U32(reg.orgCounts[(c, org)])))
    && (forall t {:trigger Encode(AssignmentKey(t))} ::
          (Encode(AssignmentKey(t)) in flat <==> t in reg.assignments)
          && (t in reg.assignments ==> flat[Encode(AssignmentKey(t))] == Bool(true)))
  }

  /** A flat store encodes one typed state at most: the view hides nothing. */
  lemma ViewIsDetermined(temporary: map<ScVal, Slot>, persistent: map<ScVal, ScVal>, s1: State, s2: State)
    requires TemporaryAgrees(temporary, s1.tmp) && ConfigAgrees(persistent, s1.cfg)
      && RegistryAgrees(persistent, s1.reg)
    requires TemporaryAgrees(temporary, s2.tmp) && ConfigAgrees(persistent, s2.cfg)
      && RegistryAgrees(persistent, s2.reg)
    ensures s1.tmp == s2.tmp && s1.cfg == s2.cfg && s1.reg == s2.reg
  {
    TemporaryIsDetermined(temporary, s1.tmp, s2.tmp);
    ConfigIsDetermined(persistent, s1.cfg, s2.cfg);
    RegistryIsDetermined(persistent, s1.reg, s2.reg);
  }

  lemma TemporaryIsDetermined(flat: map<ScVal, Slot>, tmp1: Temporary, tmp2: Temporary)
    requires TemporaryAgrees(flat, tmp1) && TemporaryAgrees(flat, tmp2)
    ensures tmp1 == tmp2
  {
    forall c
      ensures (c in tmp1.counts <==> c in tmp2.counts) && (c in tmp1.counts ==> tmp1.counts[c] == tmp2.counts[c])
    {
      var k := Encode(CountKey(c));
    }
    forall t
      ensures (t in tmp1.apps <==> t in tmp2.apps) && (t in tmp1.apps ==> tmp1.apps[t] == tmp2.apps[t])
    {
      var k := Encode(AppKey(t));
    }
    assert tmp1.counts == tmp2.counts && tmp1.apps == tmp2.apps;
  }

  lemma ConfigIsDetermined(flat: map<ScVal, ScVal>, cfg1: Config, cfg2: Config)
    requires ConfigAgrees(flat, cfg1) && ConfigAgrees(flat, cfg2)
    ensures cfg1 == cfg2
  {
    forall org
      ensures (org in cfg1.orgCaps <==> org in cfg2.orgCaps)
        && (org in cfg1.orgCaps ==> cfg1.orgCaps[org] == cfg2.orgCaps[org])
    {
      var k := Encode(OrgCapKey(org));
    }
    forall p: (Address, Symbol)
      ensures p in cfg1.maintainers <==> p in cfg2.maintainers
    {
      var k := Encode(MaintainerKey(p.0, p.1));
    }
    assert cfg1.orgCaps == cfg2.orgCaps && cfg1.maintainers == cfg2.maintainers;
  }

  lemma RegistryIsDetermined(flat: map<ScVal, ScVal>, reg1: Registry, reg2: Registry)
    requires RegistryAgrees(flat, reg1) && RegistryAgrees(flat, reg2)
    ensures reg1 == reg2
  {
    forall p: (Address, Symbol)
      ensures p in reg1.orgCounts <==> p in reg2.orgCounts
      ensures p in reg1.orgCounts ==> reg1.orgCounts[p] == reg2.orgCounts[p]
    {
      var k := Encode(OrgCountKey(p.0, p.1));
    }
    forall t
      ensures t in reg1.assignments <==> t in reg2.assignments
    {
      var k := Encode(AssignmentKey(t));
    }
    assert reg1.orgCounts == reg2.orgCounts && reg1.assignments == reg2.assignments;
  }

  // ---------------------------------------------------------------- the host

  datatype Result = Ok | Err(error: Error)

  /** The contract's environment: two storage tiers, the clock and the event log. */
  class Env {
    var now: nat
    var temporary: map<ScVal, Slot>
    var persistent: map<ScVal, ScVal>
    var events: seq<Event>
    ghost var view: State

    ghost predicate Valid()
      reads this
    {
      && now == view.now && events == view.log
      && TemporaryAgrees(temporary, view.tmp) && ConfigAgrees(persistent, view.cfg)
      && RegistryAgrees(persistent, view.reg)
    }

    constructor (start: nat)
      ensures Valid() && view == Genesis(start)
    {
      now, temporary, persistent, events, view := start, map[], map[], [], Genesis(start);
    }

    function TempGet(k: ScVal): Option<ScVal>
      reads this
    {
      if k in temporary && now <= temporary[k].liveUntil then Some(temporary[k].value) else None
    }

    function PersistentGet(k: ScVal): Option<ScVal>
      reads this
    {
      if k in persistent then Some(persistent[k]) else None
    }

    /** A live entry keeps its deadline, any other is created with the minimum lifetime. */
    method TempSet(k: ScVal, v: ScVal)
      modifies this`temporary
      ensures temporary == old(temporary)[k := Slot(v, if old(TempGet(k)).Some? then old(temporary)[k].liveUntil
        else now + MIN_TEMP_TTL - 1)]
    {
      var until := now + MIN_TEMP_TTL - 1;
      if k in temporary && now <= temporary[k].liveUntil {
        until := temporary[k].liveUntil;
      }
      temporary := temporary[k := Slot(v, until)];
    }

    /** `extend_ttl`: acts when the remaining lifetime is at or below the threshold. */
    method TempExtendTtl(k: ScVal, threshold: nat, extendTo: nat)
      requires TempGet(k).Some? && threshold == extendTo
      modifies this`temporary
      ensures temporary == old(temporary)[k := Slot(old(temporary)[k].value,
        Max(old(temporary)[k].liveUntil, now + extendTo))]
    {
      var slot := temporary[k];
      if slot.liveUntil - now <= threshold {
        temporary := temporary[k := Slot(slot.value, now + extendTo)];
      }
    }

    // -------------------------------------------------------------- typed reads

    function GetAdmin(): (r: Option<Address>)
      requires Valid()
      reads this
      ensures r == view.cfg.admin
    {
      var v := PersistentGet(Encode(AdminKey));
      if v.Some? && v.value.Addr? then Some(v.value.address) else None
    }

    function GetGlobalCap(): (r: u32)
      requires Valid()
      reads this
      ensures r == GlobalCap(view)
    {
      var v := PersistentGet(Encode(GlobalCapKey));
      if v.Some? && v.value.U32? then v.value.n else GLOBAL_APP_LIMIT
    }

    function GetOrgCap(org: Symbol): (r: u32)
      requires Valid()
      reads this
      ensures r == OrgCap(view, org)
    {
      var v := PersistentGet(Encode(OrgCapKey(org)));
      if v.Some? && v.value.U32? then v.value.n else ORG_ASSIGNMENT_LIMIT
    }

    predicate IsMaintainer(m: Address, org: Symbol)
      requires Valid()
      reads this
      ensures IsMaintainer(m, org) <==> (m, org) in view.cfg.maintainers
    {
      PersistentGet(Encode(MaintainerKey(m, org))) == Some(Bool(true))
    }

    function GetGlobalAppCount(c: Address): (r: u32)
      requires Valid()
      reads this
      ensures r == GlobalCount(view, c)
    {
      var v := TempGet(Encode(CountKey(c)));
      if v.Some? && v.value.U32? then v.value.n else 0
    }

    predicate HasAppEntry(t: Triple)
      requires Valid()
      reads this
      ensures HasAppEntry(t) <==> HasApplied(view, t)
    {
      TempGet(Encode(AppKey(t))) == Some(Bool(true))
    }

    function GetOrgAssignmentCount(c: Address, org: Symbol): (r: u32)
      requires Valid()
      reads this
      ensures r == OrgCount(view, c, org)
    {
      var v := PersistentGet(Encode(OrgCountKey(c, org)));
      if v.Some? && v.value.U32? then v.value.n else 0
    }

    predicate HasAssignment(t: Triple)
      requires Valid()
      reads this
      ensures HasAssignment(t) <==> IsAssigned(view, t)
    {
      PersistentGet(Encode(AssignmentKey(t))) == Some(Bool(true))
    }

    // -------------------------------------------------------------- typed writes

    method SetAdmin(a: Address)
      requires Valid()
      modifies this`persistent, this`view
      ensures Valid() && view == old(view).(cfg := old(view).cfg.(admin := Some(a)))
    {
      persistent := persistent[Encode(AdminKey) := Addr(a)];
      view := view.(cfg := view.cfg.(admin := Some(a)));
    }

    method SetGlobalCapEntry(cap: u32)
      requires Valid()
      modifies this`persistent, this`view
      ensures Valid() && view == old(view).(cfg := old(view).cfg.(globalCap := Some(cap)))
    {
      persistent := persistent[Encode(GlobalCapKey) := U32(cap)];
      view := view.(cfg := view.cfg.(globalCap := Some(cap)));
    }

    method SetOrgCapEntry(org: Symbol, cap: u32)
      requires Valid()
      modifies this`persistent, this`view
      ensures Valid() && view == old(view).(cfg := old(view).cfg.(orgCaps := old(view).cfg.orgCaps[org := cap]))
    {
      persistent := persistent[Encode(OrgCapKey(org)) := U32(cap)];
      view := view.(cfg := view.cfg.(orgCaps := view.cfg.orgCaps[org := cap]));
    }

    method SetMaintainer(m: Address, org: Symbol)
      requires Valid()
      modifies this`persistent, this`view
      ensures Valid()
      ensures view ==
        old(view).(cfg := old(view).cfg.(maintainers := old(view).cfg.maintainers + {(m, org)}))
    {
      persistent := persistent[Encode(MaintainerKey(m, org)) := Bool(true)];
      view := view.(cfg := view.cfg.(maintainers := view.cfg.maintainers + {(m, org)}));
    }

    method RemoveMaintainer(m: Address, org: Symbol)
      requires Valid()
      modifies this`persistent, this`view
      ensures Valid()
      ensures view ==
        old(view).(cfg := old(view).cfg.(maintainers := old(view).cfg.maintainers - {(m, org)}))
    {
      persistent := persistent - {Encode(MaintainerKey(m, org))};
      view := view.(cfg := view.cfg.(maintainers := view.cfg.maintainers - {(m, org)}));
    }

    method SetGlobalAppCount(c: Address, n: u32)
      requires Valid()
      modifies this`temporary, this`view
      ensures Valid() && view == old(view).(tmp := PutCount(old(view).tmp, now, c, n))
    {
      TempSet(Encode(CountKey(c)), U32(n));
      view := view.(tmp := PutCount(view.tmp, now, c, n));
    }

    method RemoveGlobalAppCount(c: Address)
      requires Valid()
      modifies this`temporary, this`view
      ensures Valid() && view == old(view).(tmp := DropCount(old(view).tmp, c))
    {
      temporary := temporary - {Encode(CountKey(c))};
      view := view.(tmp := DropCount(view.tmp, c));
    }

    method ExtendGlobalAppCountTtl(c: Address)
      requires Valid() && CounterLive(view.tmp, now, c)
      modifies this`temporary, this`view
      ensures Valid() && view == old(view).(tmp := BumpCount(old(view).tmp, now, c))
    {
      TempExtendTtl(Encode(CountKey(c)), APP_TTL_LEDGERS, APP_TTL_LEDGERS);
      view := view.(tmp := BumpCount(view.tmp, now, c));
    }

    method SetAppEntry(t: Triple)
      requires Valid()
      modifies this`temporary, this`view
      ensures Valid() && view == old(view).(tmp := PutApp(old(view).tmp, now, t))
    {
      TempSet(Encode(AppKey(t)), Bool(true));
      view := view.(tmp := PutApp(view.tmp, now, t));
    }

    method RemoveAppEntry(t: Triple)
      requires Valid()
      modifies this`temporary, this`view
      ensures Valid() && view == old(view).(tmp := DropApp(old(view).tmp, t))
    {
      temporary := temporary - {Encode(AppKey(t))};
      view := view.(tmp := DropApp(view.tmp, t));
    }

    method ExtendAppEntryTtl(t: Triple)
      requires Valid() && HasApp(view.tmp, now, t)
      modifies this`temporary, this`view
      ensures Valid() && view == old(view).(tmp := BumpApp(old(view).tmp, now, t))
    {
      TempExtendTtl(Encode(AppKey(t)), APP_TTL_LEDGERS, APP_TTL_LEDGERS);
      view := view.(tmp := BumpApp(view.tmp, now, t));
    }

    method SetOrgAssignmentCount(c: Address, org: Symbol, n: u32)
      requires Valid()
      modifies this`persistent, this`view
      ensures Valid() && view == old(view).(reg := PutOrgCount(old(view).reg, c, org, n))
    {
      persistent := persistent[Encode(OrgCountKey(c, org)) := U32(n)];
      view := view.(reg := PutOrgCount(view.reg, c, org, n));
    }

    method RemoveOrgAssignmentCount(c: Address, org: Symbol)
      requires Valid()
      modifies this`persistent, this`view
      ensures Valid() && view == old(view).(reg := DropOrgCount(old(view).reg, c, org))
    {
      persistent := persistent - {Encode(OrgCountKey(c, org))};
      view := view.(reg := DropOrgCount(view.reg, c, org));
    }

    method SetAssignment(t: Triple)
      requires Valid()
      modifies this`persistent, this`view
      ensures Valid() && view == old(view).(reg := PutAssignment(old(view).reg, t))
    {
      persistent := persistent[Encode(AssignmentKey(t)) := Bool(true)];
      view := view.(reg := PutAssignment(view.reg, t));
    }

    method RemoveAssignment(t: Triple)
      requires Valid()
      modifies this`persistent, this`view
      ensures Valid() && view == old(view).(reg := DropAssignment(old(view).reg, t))
    {
      persistent := persistent - {Encode(AssignmentKey(t))};
      view := view.(reg := DropAssignment(view.reg, t));
    }

    method Publish(e: Event)
      requires Valid()
      modifies this`events, this`view
      ensures Valid() && view == old(view).(log := old(view).log + [e])
    {
      events := events + [e];
      view := view.(log := view.log + [e]);
    }
  }
}
