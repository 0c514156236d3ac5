/**
 * The WorkloadGovernor contract as a state machine over independent typed tables.
 *
 * A call either finishes (`Done`) or panics (`Panic`); the host rolls a panicking call back, so
 * `Next` keeps the old state for it. Temporary entries carry the last ledger at which they are
 * live; an entry whose deadline has passed stays in the map but reads as absent. `signers` is the
 * set of addresses whose `require_auth` succeeds in the transaction.
 */
module Contract {
  import opened Prelude

  const APP_TTL_LEDGERS: nat := 17280
  const GLOBAL_APP_LIMIT: u32 := 15
  const ORG_ASSIGNMENT_LIMIT: u32 := 4
  const GLOBAL_CAP_MAX: u32 := 100
  const ORG_CAP_MIN: u32 := 1
  const ORG_CAP_MAX: u32 := 20

  /** The network's minimum lifetime of a new temporary entry: any value up to the contract's own TTL. */
  type MinTtl = n: int | 1 <= n <= APP_TTL_LEDGERS + 1 witness 16
  const MIN_TEMP_TTL: MinTtl

  datatype Address = Address(strkey: string)
  type Symbol = string

  /** One contributor's stake in one issue of one organisation. */
  datatype Triple = Triple(who: Address, org: Symbol, issue: u32)

  datatype Counter = Counter(count: u32, liveUntil: nat)

  datatype Event =
    | Initialized(admin: Address)
    | MaintainerRegistered(maintainer: Address, org: Symbol)
    | MaintainerDeregistered(admin: Address, maintainer: Address, org: Symbol)
    | GlobalCapUpdated(admin: Address, newCap: u32)
    | EmergencyCapUpdated(admin: Address, oldCap: u32, newCap: u32)
    | OrgCapUpdated(org: Symbol, oldCap: u32, newCap: u32)
    | Applied(t: Triple)
    | Withdrew(t: Triple)
    | Assigned(maintainer: Address, t: Triple)
    | Completed(maintainer: Address, t: Triple)
    | Revoked(maintainer: Address, t: Triple)

  datatype Error =
    | AlreadyInitialized | NotInitialized | AuthFailed | UnauthorizedMaintainer
    | GlobalApplicationLimitReached | OrgAssignmentLimitReached | DuplicateApplication
    | ApplicationNotFound | AssignmentNotFound | AlreadyAssigned | CapOutOfRange
    | CounterInconsistency | InvalidOrgCap | MaintainerNotFound

  /** What admin and maintainers configure: persistent. */
  datatype Config = Config(
    admin: Option<Address>,
    globalCap: Option<u32>,
    orgCaps: map<Symbol, u32>,
    maintainers: set<(Address, Symbol)>)

  /** Pending applications and their per-contributor counters: temporary, with deadlines. */
  datatype Temporary = Temporary(counts: map<Address, Counter>, apps: map<Triple, nat>)

  /** Active assignments and their per-organisation counters: persistent. */
  datatype Registry = Registry(orgCounts: map<(Address, Symbol), u32>, assignments: set<Triple>)

  datatype State = State(now: nat, cfg: Config, tmp: Temporary, reg: Registry, log: seq<Event>)

  datatype Call =
    | Initialize(admin: Address)
    | RegisterMaintainer(admin: Address, maintainer: Address, org: Symbol)
    | DeregisterMaintainer(admin: Address, maintainer: Address, org: Symbol)
    | SetGlobalCap(admin: Address, newCap: u32)
    | EmergencySetGlobalCap(admin: Address, newCap: u32)
    | SetOrgCap(maintainer: Address, org: Symbol, newCap: u32)
    | ApplyForIssue(t: Triple)
    | WithdrawApplication(t: Triple)
    | AssignIssue(maintainer: Address, t: Triple)
    | CompleteAssignment(maintainer: Address, t: Triple)
    | RevokeAssignment(maintainer: Address, t: Triple)
    | ExtendApplicationTtl(t: Triple)

  datatype Outcome = Done(post: State) | Panic(error: Error)

  datatype Step = Advance(ledgers: nat) | Invoke(call: Call, signers: set<Address>)

  // ---------------------------------------------------------------- temporary entries

  predicate CounterLive(tmp: Temporary, now: nat, c: Address) { c in tmp.counts && now <= tmp.counts[c].liveUntil }

  function CountOf(tmp: Temporary, now: nat, c: Address): u32 {
    if CounterLive(tmp, now, c) then tmp.counts[c].count else 0
  }

  predicate HasApp(tmp: Temporary, now: nat, t: Triple) { t in tmp.apps && now <= tmp.apps[t] }

  /** `temporary().set`: a live entry keeps its deadline, any other is created afresh. */
  function PutCount(tmp: Temporary, now: nat, c: Address, n: u32): Temporary {
    tmp.(counts := tmp.counts[c := Counter(n, if CounterLive(tmp, now, c) then tmp.counts[c].liveUntil
      else now + MIN_TEMP_TTL - 1)])
  }

  function PutApp(tmp: Temporary, now: nat, t: Triple): Temporary {
    tmp.(apps := tmp.apps[t := if HasApp(tmp, now, t) then tmp.apps[t] else now + MIN_TEMP_TTL - 1])
  }

  /** `extend_ttl(key, T, T)`: the deadline moves to at least T ledgers from now, never back. */
  function BumpCount(tmp: Temporary, now: nat, c: Address): Temporary
    requires CounterLive(tmp, now, c)
  {
    tmp.(counts := tmp.counts[c := Counter(tmp.counts[c].count, Max(tmp.counts[c].liveUntil, now + APP_TTL_LEDGERS))])
  }

  function BumpApp(tmp: Temporary, now: nat, t: Triple): Temporary
    requires HasApp(tmp, now, t)
  {
    tmp.(apps := tmp.apps[t := Max(tmp.apps[t], now + APP_TTL_LEDGERS)])
  }

  function DropCount(tmp: Temporary, c: Address): Temporary { tmp.(counts := tmp.counts - {c}) }

  function DropApp(tmp: Temporary, t: Triple): Temporary { tmp.(apps := tmp.apps - {t}) }

  /** Counts and records one more application, both entries good for a full TTL. */
  function Admit(tmp: Temporary, now: nat, t: Triple): Temporary
    requires CountOf(tmp, now, t.who) < 0xFFFF_FFFF
  {
    var tmp1 := PutApp(PutCount(tmp, now, t.who, CountOf(tmp, now, t.who) + 1), now, t);
    BumpApp(BumpCount(tmp1, now, t.who), now, t)
  }

  /** Removes an application and takes one off its owner's counter, deleting the counter at zero. */
  function Take(tmp: Temporary, now: nat, t: Triple): Temporary {
    var tmp1 := DropApp(tmp, t);
    var n := PredSaturating(CountOf(tmp1, now, t.who));
    if n == 0 then DropCount(tmp1, t.who) else PutCount(tmp1, now, t.who, n)
  }

  /** Extends an application, and its owner's counter unless that reads as zero. */
  function Prolong(tmp: Temporary, now: nat, t: Triple): Temporary
    requires HasApp(tmp, now, t)
  {
    var tmp1 := BumpApp(tmp, now, t);
    if CountOf(tmp1, now, t.who) > 0 then BumpCount(tmp1, now, t.who) else tmp1
  }

  // ---------------------------------------------------------------- assignments

  function OrgCountOf(reg: Registry, c: Address, org: Symbol): u32 {
    if (c, org) in reg.orgCounts then reg.orgCounts[(c, org)] else 0
  }

  function PutOrgCount(reg: Registry, c: Address, org: Symbol, n: u32): Registry {
    reg.(orgCounts := reg.orgCounts[(c, org) := n])
  }

  function DropOrgCount(reg: Registry, c: Address, org: Symbol): Registry {
    reg.(orgCounts := reg.orgCounts - {(c, org)})
  }

  function PutAssignment(reg: Registry, t: Triple): Registry { reg.(assignments := reg.assignments + {t}) }

  function DropAssignment(reg: Registry, t: Triple): Registry { reg.(assignments := reg.assignments - {t}) }

  function Book(reg: Registry, t: Triple): Registry
    requires OrgCountOf(reg, t.who, t.org) < 0xFFFF_FFFF
  {
    PutAssignment(PutOrgCount(reg, t.who, t.org, OrgCountOf(reg, t.who, t.org) + 1), t)
  }

  /** Removes an assignment and takes one off the (contributor, org) counter, deleting it at zero. */
  function Release(reg: Registry, t: Triple): Registry {
    var reg1 := DropAssignment(reg, t);
    var n := PredSaturating(OrgCountOf(reg1, t.who, t.org));
    if n == 0 then DropOrgCount(reg1, t.who, t.org) else PutOrgCount(reg1, t.who, t.org, n)
  }

  // ---------------------------------------------------------------- queries

  function GlobalCount(s: State, c: Address): u32 { CountOf(s.tmp, s.now, c) }

  predicate HasApplied(s: State, t: Triple) { HasApp(s.tmp, s.now, t) }

  function OrgCount(s: State, c: Address, org: Symbol): u32 { OrgCountOf(s.reg, c, org) }

  predicate IsAssigned(s: State, t: Triple) { t in s.reg.assignments }

  function GlobalCapOf(cfg: Config): u32 { if cfg.globalCap.Some? then cfg.globalCap.value else GLOBAL_APP_LIMIT }

  function OrgCapOf(cfg: Config, org: Symbol): u32 {
    if org in cfg.orgCaps then cfg.orgCaps[org] else ORG_ASSIGNMENT_LIMIT
  }

  function GlobalCap(s: State): u32 { GlobalCapOf(s.cfg) }

  function OrgCap(s: State, org: Symbol): u32 { OrgCapOf(s.cfg, org) }

  function GlobalApplicationCapacity(s: State, c: Address): u32 { SubSaturating(GlobalCap(s), GlobalCount(s, c)) }

  function OrgAssignmentCapacity(s: State, c: Address, org: Symbol): u32 {
    SubSaturating(OrgCap(s, org), OrgCount(s, c, org))
  }

  // ---------------------------------------------------------------- entry points

  /** The guard of the admin calls: it checks the stored admin, not the `admin` argument. */
  function AdminGuard(cfg: Config, signers: set<Address>): Option<Error> {
    if cfg.admin.None? then Some(NotInitialized)
    else if cfg.admin.value !in signers then Some(AuthFailed)
    else None
  }

  /** The guard of the contributor calls. */
  function ContributorGuard(cfg: Config, signers: set<Address>, c: Address): Option<Error> {
    if cfg.admin.None? then Some(NotInitialized)
    else if c !in signers then Some(AuthFailed)
    else None
  }

  /** The guard of the maintainer calls. */
  function MaintainerGuard(cfg: Config, signers: set<Address>, maintainer: Address, org: Symbol): Option<Error> {
    if cfg.admin.None? then Some(NotInitialized)
    else if maintainer !in signers then Some(AuthFailed)
    else if (maintainer, org) !in cfg.maintainers then Some(UnauthorizedMaintainer)
    else None
  }

  function CapGuard(cfg: Config, signers: set<Address>, newCap: u32): Option<Error> {
    var g := AdminGuard(cfg, signers);
    if g.Some? then g else if newCap > GLOBAL_CAP_MAX then Some(CapOutOfRange) else None
  }

  /** The first check of the call that fails, in the order the contract makes them. */
  function Refusal(s: State, call: Call, signers: set<Address>, debug: bool): Option<Error> {
    match call
    case Initialize(admin) =>
      if s.cfg.admin.Some? then Some(AlreadyInitialized)
      else if admin !in signers then Some(AuthFailed)
      else None
    case RegisterMaintainer(_, _, _) => AdminGuard(s.cfg, signers)
    case DeregisterMaintainer(_, m, org) =>
      var g := AdminGuard(s.cfg, signers);
      if g.Some? then g else if (m, org) !in s.cfg.maintainers then Some(MaintainerNotFound) else None
    case SetGlobalCap(_, cap) => CapGuard(s.cfg, signers, cap)
    case EmergencySetGlobalCap(_, cap) => CapGuard(s.cfg, signers, cap)
    case SetOrgCap(m, org, cap) =>
      var g := MaintainerGuard(s.cfg, signers, m, org);
      if g.Some? then g else if cap < ORG_CAP_MIN || cap > ORG_CAP_MAX then Some(InvalidOrgCap) else None
    case ApplyForIssue(t) =>
      var g := ContributorGuard(s.cfg, signers, t.who);
      if g.Some? then g
      else if GlobalCount(s, t.who) >= GlobalCap(s) then Some(GlobalApplicationLimitReached)
      else if HasApplied(s, t) then Some(DuplicateApplication)
      else None
    case WithdrawApplication(t) =>
      var g := ContributorGuard(s.cfg, signers, t.who);
      if g.Some? then g else if !HasApplied(s, t) then Some(ApplicationNotFound) else None
    case AssignIssue(m, t) =>
      var g := MaintainerGuard(s.cfg, signers, m, t.org);
      if g.Some? then g
      else if !HasApplied(s, t) then Some(ApplicationNotFound)
      else if OrgCount(s, t.who, t.org) >= OrgCap(s, t.org) then Some(OrgAssignmentLimitReached)
      else if IsAssigned(s, t) then Some(AlreadyAssigned)
      // Debug builds read the new counter and sentinel back.
      else if debug && (OrgCountOf(Book(s.reg, t), t.who, t.org) == 0 || t !in Book(s.reg, t).assignments) then
        Some(CounterInconsistency)
      else None
    case CompleteAssignment(m, t) =>
      var g := MaintainerGuard(s.cfg, signers, m, t.org);
      if g.Some? then g
      else if !IsAssigned(s, t) then Some(AssignmentNotFound)
      else if debug && OrgCount(s, t.who, t.org) == 0 then Some(CounterInconsistency)
      else None
    case RevokeAssignment(m, t) =>
      var g := MaintainerGuard(s.cfg, signers, m, t.org);
      if g.Some? then g
      else if !IsAssigned(s, t) then Some(AssignmentNotFound)
      else if OrgCount(s, t.who, t.org) == 0 then Some(CounterInconsistency)
      else None
    case ExtendApplicationTtl(t) => if !HasApplied(s, t) then Some(ApplicationNotFound) else None
  }

  function ConfigAfter(cfg: Config, call: Call): Config {
    match call
    case Initialize(admin) => cfg.(admin := Some(admin), globalCap := Some(GLOBAL_APP_LIMIT))
    case RegisterMaintainer(_, m, org) => cfg.(maintainers := cfg.maintainers + {(m, org)})
    case DeregisterMaintainer(_, m, org) => cfg.(maintainers := cfg.maintainers - {(m, org)})
    case SetGlobalCap(_, cap) => cfg.(globalCap := Some(cap))
    case EmergencySetGlobalCap(_, cap) => cfg.(globalCap := Some(cap))
    case SetOrgCap(_, org, cap) => cfg.(orgCaps := cfg.orgCaps[org := cap])
    case _ => cfg
  }

  function TemporaryAfter(s: State, call: Call): Temporary
    requires call.ApplyForIssue? ==> GlobalCount(s, call.t.who) < GlobalCap(s)
    requires call.ExtendApplicationTtl? ==> HasApplied(s, call.t)
  {
    match call
    case ApplyForIssue(t) => Admit(s.tmp, s.now, t)
    case WithdrawApplication(t) => Take(s.tmp, s.now, t)
    case AssignIssue(_, t) => Take(s.tmp, s.now, t)
    case ExtendApplicationTtl(t) => Prolong(s.tmp, s.now, t)
    case _ => s.tmp
  }

  function RegistryAfter(s: State, call: Call): Registry
    requires call.AssignIssue? ==> OrgCount(s, call.t.who, call.t.org) < OrgCap(s, call.t.org)
  {
    match call
    case AssignIssue(_, t) => Book(s.reg, t)
    case CompleteAssignment(_, t) => Release(s.reg, t)
    case RevokeAssignment(_, t) => Release(s.reg, t)
    case _ => s.reg
  }

  /** The event the call emits; extending a deadline emits nothing. */
  function EventFor(cfg: Config, call: Call): Option<Event> {
    match call
    case Initialize(a) => Some(Initialized(a))
    case RegisterMaintainer(_, m, org) => Some(MaintainerRegistered(m, org))
    case DeregisterMaintainer(a, m, org) => Some(MaintainerDeregistered(a, m, org))
    case SetGlobalCap(a, cap) => Some(GlobalCapUpdated(a, cap))
    case EmergencySetGlobalCap(a, cap) => Some(EmergencyCapUpdated(a, GlobalCapOf(cfg), cap))
    case SetOrgCap(_, org, cap) => Some(OrgCapUpdated(org, OrgCapOf(cfg, org), cap))
    case ApplyForIssue(t) => Some(Applied(t))
    case WithdrawApplication(t) => Some(Withdrew(t))
    case AssignIssue(m, t) => Some(Assigned(m, t))
    case CompleteAssignment(m, t) => Some(Completed(m, t))
    case RevokeAssignment(m, t) => Some(Revoked(m, t))
    case ExtendApplicationTtl(_) => None
  }

  function LogAfter(s: State, call: Call): seq<Event> {
    var e := EventFor(s.cfg, call);
    if e.Some? then s.log + [e.value] else s.log
  }

  /** One invocation in a build with (`debug`) or without debug assertions. */
  function Exec(s: State, call: Call, signers: set<Address>, debug: bool): Outcome {
    var refusal := Refusal(s, call, signers, debug);
    if refusal.Some? then Panic(refusal.value)
    else Done(State(s.now, ConfigAfter(s.cfg, call), TemporaryAfter(s, call), RegistryAfter(s, call),
      LogAfter(s, call)))
  }

  // ---------------------------------------------------------------- runs

  /** One step of the chain: time passes, or a call is made (a panicking call leaves no trace). */
  function NextIn(s: State, step: Step, debug: bool): State {
    match step
    case Advance(n) => s.(now := s.now + n)
    case Invoke(call, signers) =>
      var r := Exec(s, call, signers, debug);
      if r.Done? then r.post else s
  }

  /** The deployed contract is a release build. */
  function Next(s: State, step: Step): State { NextIn(s, step, false) }

  predicate Succeeds(s: State, step: Step) {
    step.Invoke? && Refusal(s, step.call, step.signers, false).None?
  }

  function Genesis(now: nat): State {
    State(now, Config(None, None, map[], {}), Temporary(map[], map[]), Registry(map[], {}), [])
  }

  function After(s: State, steps: seq<Step>): State {
    if steps == [] then s else Next(After(s, steps[..|steps| - 1]), steps[|steps| - 1])
  }

  lemma AfterSnoc(s: State, steps: seq<Step>, step: Step)
    ensures After(s, steps + [step]) == Next(After(s, steps), step)
  {
    assert (steps + [step])[..|steps|] == steps;
  }

  lemma {:induction false} AfterConcat(s: State, a: seq<Step>, b: seq<Step>)
    ensures After(s, a + b) == After(After(s, a), b)
  {
    if b == [] {
      assert a + b == a;
    } else {
      var b' := b[..|b| - 1];
      assert (a + b)[..|a + b| - 1] == a + b';
      AfterConcat(s, a, b');
    }
  }
}
