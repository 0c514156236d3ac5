/**
 * Exactly when each call succeeds, with which error it fails, and what it leaves behind, in every
 * reachable state and either build. The conditions are read off the stored fields alone: nothing
 * here goes through the contract's own guards, effects or getters.
 */
module Guards {
  import opened Prelude
  import opened Contract
  import opened Accounting
  import opened Assignments
  import opened Authority
  import opened EventLog

  /** The call ends in `post` if `allowed`, and panics with `e` otherwise. */
  predicate Answers(r: Outcome, allowed: bool, e: Error, post: State) {
    if allowed then r == Done(post) else r == Panic(e)
  }

  predicate AdminSigns(s: State, signers: set<Address>) {
    s.cfg.admin.Some? && s.cfg.admin.value in signers
  }

  predicate MaintainerSigns(s: State, signers: set<Address>, m: Address, org: Symbol) {
    s.cfg.admin.Some? && m in signers && (m, org) in s.cfg.maintainers
  }

  /** The error of a call whose signature is missing, or else `e`. */
  function Denied(s: State, signed: bool, e: Error): Error {
    if s.cfg.admin.None? then NotInitialized else if !signed then AuthFailed else e
  }

  /** The same for a maintainer call. */
  function MaintainerDenied(s: State, signers: set<Address>, m: Address, org: Symbol, e: Error): Error {
    Denied(s, m in signers, if (m, org) !in s.cfg.maintainers then UnauthorizedMaintainer else e)
  }

  predicate Live(s: State, t: Triple) { t in s.tmp.apps && s.now <= s.tmp.apps[t] }

  /** The pending count the ledger shows for `c`. */
  function PendingCount(s: State, c: Address): u32 {
    if c in s.tmp.counts && s.now <= s.tmp.counts[c].liveUntil then s.tmp.counts[c].count else 0
  }

  /** The counters after one of `c`'s applications has gone: the deadline stays, the last one takes the entry along. */
  function OneFewer(s: State, c: Address): map<Address, Counter> {
    if PendingCount(s, c) <= 1 then s.tmp.counts - {c}
    else s.tmp.counts[c := Counter(PendingCount(s, c) - 1, s.tmp.counts[c].liveUntil)]
  }

  /** `c`'s assigned issues in the organisation, off the sentinels. */
  ghost function Held(s: State, c: Address, org: Symbol): set<Triple> {
    set t | t in s.reg.assignments && t.who == c && t.org == org
  }

  function CapStored(s: State): u32 { if s.cfg.globalCap.Some? then s.cfg.globalCap.value else 15 }

  function OrgCapStored(s: State, org: Symbol): u32 { if org in s.cfg.orgCaps then s.cfg.orgCaps[org] else 4 }

  // ---------------------------------------------------------------- invariants the statements rest on

  lemma HeldIsCounted(start: nat, past: seq<Step>, c: Address, org: Symbol)
    ensures var s := After(Genesis(start), past);
      && OrgCount(s, c, org) == |Held(s, c, org)|
      && ((c, org) in s.reg.orgCounts <==> Held(s, c, org) != {})
  {
    var s := After(Genesis(start), past);
    CounterEqualsReality(start, past, c, org);
    assert Held(s, c, org) == AssignedTo(s.reg, c, org);
  }

  // ---------------------------------------------------------------- configuration

  lemma InitializeExactly(start: nat, past: seq<Step>, admin: Address, signers: set<Address>, debug: bool)
    ensures var s := After(Genesis(start), past);
      Answers(Exec(s, Initialize(admin), signers, debug), s.cfg.admin.None? && admin in signers,
        if s.cfg.admin.Some? then AlreadyInitialized else AuthFailed,
        State(s.now, Config(Some(admin), Some(15), map[], {}), Temporary(map[], map[]), Registry(map[], {}),
          [Initialized(admin)]))
  {
    NothingBeforeInitialize(start, past);
  }

  /** Registering and deregistering: the stored admin signs, and whom to deregister is registered. */
  lemma MaintainersExactly(s: State, a: Address, m: Address, org: Symbol, signers: set<Address>, debug: bool)
    ensures Answers(Exec(s, RegisterMaintainer(a, m, org), signers, debug), AdminSigns(s, signers),
              Denied(s, false, AuthFailed),
              s.(cfg := s.cfg.(maintainers := s.cfg.maintainers + {(m, org)}),
                 log := s.log + [MaintainerRegistered(m, org)]))
    ensures Answers(Exec(s, DeregisterMaintainer(a, m, org), signers, debug),
              AdminSigns(s, signers) && (m, org) in s.cfg.maintainers,
              Denied(s, AdminSigns(s, signers), MaintainerNotFound),
              s.(cfg := s.cfg.(maintainers := s.cfg.maintainers - {(m, org)}),
                 log := s.log + [MaintainerDeregistered(a, m, org)]))
  {
  }

  /** Both cap calls: at most 100, and the emergency one logs the cap it replaces. */
  lemma GlobalCapExactly(s: State, a: Address, cap: u32, signers: set<Address>, debug: bool)
    ensures Answers(Exec(s, SetGlobalCap(a, cap), signers, debug), AdminSigns(s, signers) && cap <= 100,
              Denied(s, AdminSigns(s, signers), CapOutOfRange),
              s.(cfg := s.cfg.(globalCap := Some(cap)), log := s.log + [GlobalCapUpdated(a, cap)]))
    ensures Answers(Exec(s, EmergencySetGlobalCap(a, cap), signers, debug), AdminSigns(s, signers) && cap <= 100,
              Denied(s, AdminSigns(s, signers), CapOutOfRange),
              s.(cfg := s.cfg.(globalCap := Some(cap)),
                 log := s.log + [EmergencyCapUpdated(a, CapStored(s), cap)]))
  {
  }

  lemma OrgCapExactly(s: State, m: Address, org: Symbol, cap: u32, signers: set<Address>, debug: bool)
    ensures Answers(Exec(s, SetOrgCap(m, org, cap), signers, debug),
      MaintainerSigns(s, signers, m, org) && 1 <= cap <= 20,
      MaintainerDenied(s, signers, m, org, InvalidOrgCap),
      s.(cfg := s.cfg.(orgCaps := s.cfg.orgCaps[org := cap]),
         log := s.log + [OrgCapUpdated(org, OrgCapStored(s, org), cap)]))
  {
  }

  // ---------------------------------------------------------------- applications

  lemma AdmitClosed(tmp: Temporary, now: nat, t: Triple)
    requires Sound(tmp, now, t.who) && CountOf(tmp, now, t.who) < 0xFFFF_FFFF
    ensures Admit(tmp, now, t) == Temporary(
      tmp.counts[t.who := Counter(CountOf(tmp, now, t.who) + 1, now + 17280)], tmp.apps[t := now + 17280])
  {
  }

  lemma TakeClosed(s: State, t: Triple)
    ensures Take(s.tmp, s.now, t) == Temporary(OneFewer(s, t.who), s.tmp.apps - {t})
  {
  }

  lemma ProlongClosed(tmp: Temporary, now: nat, t: Triple)
    requires Sound(tmp, now, t.who) && HasApp(tmp, now, t)
    ensures t.who in tmp.counts && Prolong(tmp, now, t) == Temporary(
      tmp.counts[t.who := tmp.counts[t.who].(liveUntil := now + 17280)], tmp.apps[t := now + 17280])
  {
  }

  lemma ApplyGuards(s: State, t: Triple, signers: set<Address>, debug: bool)
    ensures var n := PendingCount(s, t.who);
      Refusal(s, ApplyForIssue(t), signers, debug) ==
        if s.cfg.admin.Some? && t.who in signers && n < CapStored(s) && !Live(s, t) then None
        else Some(Denied(s, t.who in signers,
          if n < CapStored(s) then DuplicateApplication else GlobalApplicationLimitReached))
  {
  }

  lemma ApplyLeaves(s: State, t: Triple, signers: set<Address>, debug: bool)
    requires Sound(s.tmp, s.now, t.who) && Refusal(s, ApplyForIssue(t), signers, debug).None?
    requires PendingCount(s, t.who) < CapStored(s)
    ensures PendingCount(s, t.who) < 0xFFFF_FFFF
    ensures Exec(s, ApplyForIssue(t), signers, debug) == Done(s.(
      tmp := Temporary(s.tmp.counts[t.who := Counter(PendingCount(s, t.who) + 1, s.now + 17280)],
        s.tmp.apps[t := s.now + 17280]),
      log := s.log + [Applied(t)]))
  {
    AdmitClosed(s.tmp, s.now, t);
    hide Refusal, Admit, Sound;
  }

  lemma Refused(s: State, call: Call, signers: set<Address>, debug: bool)
    ensures var refusal := Refusal(s, call, signers, debug);
      refusal.Some? ==> Exec(s, call, signers, debug) == Panic(refusal.value)
  {
    hide Refusal;
  }

  /** A new application: the cap leaves room and the issue is not applied for; entry and counter live a full TTL. */
  lemma ApplyExactly(start: nat, past: seq<Step>, t: Triple, signers: set<Address>, debug: bool)
    ensures var s := After(Genesis(start), past);
      var r, n := Exec(s, ApplyForIssue(t), signers, debug), PendingCount(s, t.who);
      if s.cfg.admin.Some? && t.who in signers && n < CapStored(s) && !Live(s, t) then
        r == Done(s.(
          tmp := Temporary(s.tmp.counts[t.who := Counter(n + 1, s.now + 17280)], s.tmp.apps[t := s.now + 17280]),
          log := s.log + [Applied(t)]))
      else
        r == Panic(Denied(s, t.who in signers,
          if n < CapStored(s) then DuplicateApplication else GlobalApplicationLimitReached))
  {
    var s := After(Genesis(start), past);
    AlwaysSound(start, past, t.who);
    ApplyGuards(s, t, signers, debug);
    Refused(s, ApplyForIssue(t), signers, debug);
    hide Refusal, Exec, Sound, After, PendingCount, CapStored;
    if Refusal(s, ApplyForIssue(t), signers, debug).None? {
      ApplyLeaves(s, t, signers, debug);
    }
  }

  /** A withdrawal: the contributor signs and the application is live. */
  lemma WithdrawExactly(s: State, t: Triple, signers: set<Address>, debug: bool)
    ensures Answers(Exec(s, WithdrawApplication(t), signers, debug),
      s.cfg.admin.Some? && t.who in signers && Live(s, t),
      Denied(s, t.who in signers, ApplicationNotFound),
      s.(tmp := Temporary(OneFewer(s, t.who), s.tmp.apps - {t}), log := s.log + [Withdrew(t)]))
  {
    TakeClosed(s, t);
    hide Take, OneFewer;
  }

  /** An extension: the application is live. Nobody signs and nothing is logged. */
  lemma ExtendExactly(start: nat, past: seq<Step>, t: Triple, signers: set<Address>, debug: bool)
    ensures var s := After(Genesis(start), past);
      var r := Exec(s, ExtendApplicationTtl(t), signers, debug);
      if Live(s, t) then
        && t.who in s.tmp.counts
        && r == Done(s.(tmp := Temporary(s.tmp.counts[t.who := s.tmp.counts[t.who].(liveUntil := s.now + 17280)],
             s.tmp.apps[t := s.now + 17280])))
      else r == Panic(ApplicationNotFound)
  {
    var s := After(Genesis(start), past);
    AlwaysSound(start, past, t.who);
    if Live(s, t) {
      ProlongClosed(s.tmp, s.now, t);
    }
    hide Prolong, Sound, After;
  }

  // ---------------------------------------------------------------- assignments

  /** Sentinels and counters with `t` added. */
  ghost function WithAssignment(s: State, t: Triple): Registry
    requires |Held(s, t.who, t.org)| < 0xFFFF_FFFF
  {
    Registry(s.reg.orgCounts[(t.who, t.org) := |Held(s, t.who, t.org)| + 1], s.reg.assignments + {t})
  }

  /** Sentinels and counters without `t`; the last one of an organisation takes the counter along. */
  ghost function WithoutAssignment(s: State, t: Triple): Registry
    requires t in s.reg.assignments && |Held(s, t.who, t.org)| <= 0xFFFF_FFFF
  {
    Registry(
      if Held(s, t.who, t.org) == {t} then s.reg.orgCounts - {(t.who, t.org)}
      else s.reg.orgCounts[(t.who, t.org) := |Held(s, t.who, t.org) - {t}|],
      s.reg.assignments - {t})
  }

  lemma BookClosed(start: nat, past: seq<Step>, t: Triple)
    requires OrgCount(After(Genesis(start), past), t.who, t.org) < 0xFFFF_FFFF
    ensures var s := After(Genesis(start), past);
      |Held(s, t.who, t.org)| < 0xFFFF_FFFF && Book(s.reg, t) == WithAssignment(s, t)
  {
    HeldIsCounted(start, past, t.who, t.org);
  }

  lemma ReleaseClosed(start: nat, past: seq<Step>, t: Triple)
    requires t in After(Genesis(start), past).reg.assignments
    ensures var s := After(Genesis(start), past);
      && |Held(s, t.who, t.org)| <= 0xFFFF_FFFF && OrgCount(s, t.who, t.org) >= 1
      && Release(s.reg, t) == WithoutAssignment(s, t)
  {
    var s := After(Genesis(start), past);
    HeldIsCounted(start, past, t.who, t.org);
    var held := Held(s, t.who, t.org);
    assert t in held && |held - {t}| == |held| - 1;
    assert held == {t} <==> held - {t} == {};
  }

  /**
   * An assignment: a registered maintainer signs, the application is live, the contributor holds
   * fewer issues of the organisation than its cap and not this one. It turns the application into
   * the assignment.
   */
  lemma AssignExactly(start: nat, past: seq<Step>, m: Address, t: Triple, signers: set<Address>, debug: bool)
    ensures var s := After(Genesis(start), past);
      var r, room := Exec(s, AssignIssue(m, t), signers, debug), |Held(s, t.who, t.org)| < OrgCapStored(s, t.org);
      if MaintainerSigns(s, signers, m, t.org) && Live(s, t) && room && t !in s.reg.assignments then
        r == Done(s.(tmp := Temporary(OneFewer(s, t.who), s.tmp.apps - {t}), reg := WithAssignment(s, t),
          log := s.log + [Assigned(m, t)]))
      else
        r == Panic(MaintainerDenied(s, signers, m, t.org,
          if !Live(s, t) then ApplicationNotFound else if !room then OrgAssignmentLimitReached else AlreadyAssigned))
  {
    var s := After(Genesis(start), past);
    HeldIsCounted(start, past, t.who, t.org);
    TakeClosed(s, t);
    if |Held(s, t.who, t.org)| < OrgCapStored(s, t.org) {
      BookClosed(start, past, t);
    }
    NoInconsistency(start, past, AssignIssue(m, t), signers, debug);
    hide Take, OneFewer, Book, WithAssignment, Held, After;
  }

  /** Ending one, completed or revoked: a registered maintainer signs and the issue is assigned. */
  lemma EndExactly(start: nat, past: seq<Step>, m: Address, t: Triple, signers: set<Address>, debug: bool)
    ensures var s := After(Genesis(start), past);
      var done := Exec(s, CompleteAssignment(m, t), signers, debug);
      var undone := Exec(s, RevokeAssignment(m, t), signers, debug);
      if MaintainerSigns(s, signers, m, t.org) && t in s.reg.assignments then
        && |Held(s, t.who, t.org)| <= 0xFFFF_FFFF
        && done == Done(s.(reg := WithoutAssignment(s, t), log := s.log + [Completed(m, t)]))
        && undone == Done(s.(reg := WithoutAssignment(s, t), log := s.log + [Revoked(m, t)]))
      else done == undone == Panic(MaintainerDenied(s, signers, m, t.org, AssignmentNotFound))
  {
    var s := After(Genesis(start), past);
    if t in s.reg.assignments {
      ReleaseClosed(start, past, t);
    }
    hide Release, WithoutAssignment, Held, After;
  }

  // ---------------------------------------------------------------- a new cap governs

  /** Whatever the cap, and whatever it replaces, the next capacity query goes by it. */
  lemma NewCapGoverns(s: State, call: Call, signers: set<Address>, c: Address)
    requires call.SetGlobalCap? || call.EmergencySetGlobalCap?
    requires AdminSigns(s, signers) && call.newCap <= 100
    ensures var s' := Next(s, Invoke(call, signers));
      && PendingCount(s', c) == PendingCount(s, c)
      && GlobalApplicationCapacity(s', c) == if PendingCount(s, c) < call.newCap then call.newCap - PendingCount(s, c)
        else 0
  {
    GlobalCapExactly(s, call.admin, call.newCap, signers, false);
  }

  lemma NewOrgCapGoverns(start: nat, past: seq<Step>, m: Address, org: Symbol, cap: u32, signers: set<Address>,
          c: Address)
    requires MaintainerSigns(After(Genesis(start), past), signers, m, org) && 1 <= cap <= 20
    ensures var s := After(Genesis(start), past);
      OrgAssignmentCapacity(Next(s, Invoke(SetOrgCap(m, org, cap), signers)), c, org)
        == if |Held(s, c, org)| < cap then cap - |Held(s, c, org)| else 0
  {
    OrgCapExactly(After(Genesis(start), past), m, org, cap, signers, false);
    HeldIsCounted(start, past, c, org);
  }

  // ---------------------------------------------------------------- the log decides

  /** What a call would log, as far as the log itself knows. */
  function Announced(log: seq<Event>, call: Call): Option<Event> {
    match call
    case Initialize(a) => Some(Initialized(a))
    case RegisterMaintainer(_, m, org) => Some(MaintainerRegistered(m, org))
    case DeregisterMaintainer(a, m, org) => Some(MaintainerDeregistered(a, m, org))
    case SetGlobalCap(a, cap) => Some(GlobalCapUpdated(a, cap))
    case EmergencySetGlobalCap(a, cap) => Some(EmergencyCapUpdated(a, LatestGlobalCap(log), cap))
    case SetOrgCap(_, org, cap) => Some(OrgCapUpdated(org, LatestOrgCap(log, org), cap))
    case ApplyForIssue(t) => Some(Applied(t))
    case WithdrawApplication(t) => Some(Withdrew(t))
    case AssignIssue(m, t) => Some(Assigned(m, t))
    case CompleteAssignment(m, t) => Some(Completed(m, t))
    case RevokeAssignment(m, t) => Some(Revoked(m, t))
    case ExtendApplicationTtl(_) => None
  }

  /** Who has to sign, as far as the log knows. */
  predicate SignedFor(log: seq<Event>, call: Call, signers: set<Address>) {
    match call
    case Initialize(a) => a in signers
    case SetOrgCap(m, org, _) => m in signers && Registered(log, m, org)
    case ApplyForIssue(t) => t.who in signers
    case WithdrawApplication(t) => t.who in signers
    case AssignIssue(m, _) => m in signers
    case CompleteAssignment(m, _) => m in signers
    case RevokeAssignment(m, _) => m in signers
    case ExtendApplicationTtl(_) => true
    case _ => LatestAdmin(log).Some? && LatestAdmin(log).value in signers
  }

  /** What the log does not know: whether an application is still live, and what the counter charges for. */
  predicate InTime(s: State, call: Call) {
    match call
    case ApplyForIssue(t) => !Live(s, t) && PendingCount(s, t.who) < LatestGlobalCap(s.log)
    case WithdrawApplication(t) => Live(s, t)
    case AssignIssue(_, t) => Live(s, t)
    case _ => true
  }

  lemma AcceptedIffLawful(s: State, call: Call, signers: set<Address>)
    requires Mirrors(s) && (s.cfg.admin.Some? <==> s.log != [])
    requires (call.CompleteAssignment? || call.RevokeAssignment?) && IsAssigned(s, call.t) ==>
      OrgCount(s, call.t.who, call.t.org) >= 1
    requires !call.ExtendApplicationTtl?
    ensures Refusal(s, call, signers, false).None?
      <==> SignedFor(s.log, call, signers) && Lawful(s.log, Announced(s.log, call).value) && InTime(s, call)
    ensures EventFor(s.cfg, call) == Announced(s.log, call)
  {
  }

  /**
   * The converse of lawfulness: a call that is properly signed, in time, and whose event would be
   * lawful on the log so far is always accepted and logs just that event; any other call leaves no
   * trace at all.
   */
  lemma LawfulCallsSucceed(start: nat, past: seq<Step>, call: Call, signers: set<Address>)
    requires !call.ExtendApplicationTtl?
    ensures var s := After(Genesis(start), past);
      var s' := Next(s, Invoke(call, signers));
      if SignedFor(s.log, call, signers) && Lawful(s.log, Announced(s.log, call).value) && InTime(s, call) then
        s'.log == s.log + [Announced(s.log, call).value]
      else s' == s
  {
    var s := After(Genesis(start), past);
    LogReplaysToState(start, past);
    EveryEventLawful(start, past);
    AdminKnownOnceLogged(s.log);
    if (call.CompleteAssignment? || call.RevokeAssignment?) && IsAssigned(s, call.t) {
      SentinelImpliesCounter(start, past, call.t);
    }
    AcceptedIffLawful(s, call, signers);
    hide After, Lawful, LawfulLog, SignedFor, InTime, Announced, EventFor, Refusal;
    StepLogs(s, Invoke(call, signers));
  }
}
