/**
 * The emitted events as the only record off-chain consumers have. Each function reads one fact off
 * a log by the latest event about it; the theorems say the log determines the contract's
 * persistent tables and that every event was lawful when it was emitted.
 */
module EventLog {
  import opened Prelude
  import opened Contract
  import opened Assignments

  function Initial(log: seq<Event>): seq<Event>
    requires log != []
  {
    log[..|log| - 1]
  }

  function Last(log: seq<Event>): Event
    requires log != []
  {
    log[|log| - 1]
  }

  function LatestAdmin(log: seq<Event>): Option<Address> {
    if log == [] then None
    else match Last(log)
      case Initialized(a) => Some(a)
      case _ => LatestAdmin(Initial(log))
  }

  function LatestGlobalCap(log: seq<Event>): u32 {
    if log == [] then GLOBAL_APP_LIMIT
    else match Last(log)
      case Initialized(_) => GLOBAL_APP_LIMIT
      case GlobalCapUpdated(_, cap) => cap
      case EmergencyCapUpdated(_, _, cap) => cap
      case _ => LatestGlobalCap(Initial(log))
  }

  function LatestOrgCap(log: seq<Event>, org: Symbol): u32 {
    if log == [] then ORG_ASSIGNMENT_LIMIT
    else if Last(log).OrgCapUpdated? && Last(log).org == org then Last(log).newCap
    else LatestOrgCap(Initial(log), org)
  }

  predicate Registered(log: seq<Event>, m: Address, org: Symbol) {
    log != [] &&
    match Last(log)
    case MaintainerRegistered(m', org') => (m' == m && org' == org) || Registered(Initial(log), m, org)
    case MaintainerDeregistered(_, m', org') => !(m' == m && org' == org) && Registered(Initial(log), m, org)
    case _ => Registered(Initial(log), m, org)
  }

  /** The latest of applied, withdrew and assigned about `t` is an application. */
  predicate Pending(log: seq<Event>, t: Triple) {
    log != [] &&
    match Last(log)
    case Applied(u) => u == t || Pending(Initial(log), t)
    case Withdrew(u) => u != t && Pending(Initial(log), t)
    case Assigned(_, u) => u != t && Pending(Initial(log), t)
    case _ => Pending(Initial(log), t)
  }

  /** The latest of assigned, completed and revoked about `t` is an assignment. */
  predicate Active(log: seq<Event>, t: Triple) {
    log != [] &&
    match Last(log)
    case Assigned(_, u) => u == t || Active(Initial(log), t)
    case Completed(_, u) => u != t && Active(Initial(log), t)
    case Revoked(_, u) => u != t && Active(Initial(log), t)
    case _ => Active(Initial(log), t)
  }

  /** Assignments made minus assignments ended, for one contributor in one organisation. */
  function Balance(log: seq<Event>, c: Address, org: Symbol): int {
    if log == [] then 0
    else Balance(Initial(log), c, org) + Delta(Last(log), c, org)
  }

  function Delta(e: Event, c: Address, org: Symbol): int {
    match e
    case Assigned(_, t) => if t.who == c && t.org == org then 1 else 0
    case Completed(_, t) => if t.who == c && t.org == org then -1 else 0
    case Revoked(_, t) => if t.who == c && t.org == org then -1 else 0
    case _ => 0
  }

  lemma Snoc(log: seq<Event>, e: Event)
    ensures Initial(log + [e]) == log && Last(log + [e]) == e
  {
  }

  ghost predicate ConfigMirrors(cfg: Config, log: seq<Event>) {
    && cfg.admin == LatestAdmin(log)
    && GlobalCapOf(cfg) == LatestGlobalCap(log)
    && (forall org :: OrgCapOf(cfg, org) == LatestOrgCap(log, org))
    && (forall m, org :: (m, org) in cfg.maintainers <==> Registered(log, m, org))
  }

  ghost predicate RegistryMirrors(reg: Registry, log: seq<Event>) {
    && (forall t :: t in reg.assignments <==> Active(log, t))
    && (forall c, org :: OrgCountOf(reg, c, org) == Balance(log, c, org))
  }

  /** The log and the tables tell the same story. */
  ghost predicate Mirrors(s: State) {
    && ConfigMirrors(s.cfg, s.log)
    && (forall t :: t in s.tmp.apps <==> Pending(s.log, t))
    && RegistryMirrors(s.reg, s.log)
  }

  lemma AdminAndCapStep(cfg: Config, log: seq<Event>, call: Call)
    requires cfg.admin == LatestAdmin(log) && GlobalCapOf(cfg) == LatestGlobalCap(log) && !call.ExtendApplicationTtl?
    ensures var log' := log + [EventFor(cfg, call).value];
      ConfigAfter(cfg, call).admin == LatestAdmin(log') && GlobalCapOf(ConfigAfter(cfg, call)) == LatestGlobalCap(log')
  {
    Snoc(log, EventFor(cfg, call).value);
  }

  lemma OrgCapStep(cfg: Config, log: seq<Event>, call: Call, org: Symbol)
    requires OrgCapOf(cfg, org) == LatestOrgCap(log, org) && !call.ExtendApplicationTtl?
    ensures OrgCapOf(ConfigAfter(cfg, call), org) == LatestOrgCap(log + [EventFor(cfg, call).value], org)
  {
    Snoc(log, EventFor(cfg, call).value);
  }

  lemma MaintainerStep(cfg: Config, log: seq<Event>, call: Call, m: Address, org: Symbol)
    requires ((m, org) in cfg.maintainers <==> Registered(log, m, org)) && !call.ExtendApplicationTtl?
    ensures (m, org) in ConfigAfter(cfg, call).maintainers
      <==> Registered(log + [EventFor(cfg, call).value], m, org)
  {
    Snoc(log, EventFor(cfg, call).value);
  }

  lemma ConfigStep(cfg: Config, log: seq<Event>, call: Call)
    requires ConfigMirrors(cfg, log) && !call.ExtendApplicationTtl?
    ensures ConfigMirrors(ConfigAfter(cfg, call), log + [EventFor(cfg, call).value])
  {
    hide ConfigAfter, GlobalCapOf, LatestAdmin, LatestGlobalCap, OrgCapOf, LatestOrgCap, Registered;
    AdminAndCapStep(cfg, log, call);
    forall org
      ensures OrgCapOf(ConfigAfter(cfg, call), org) == LatestOrgCap(log + [EventFor(cfg, call).value], org)
    {
      OrgCapStep(cfg, log, call, org);
    }
    forall m, org
      ensures (m, org) in ConfigAfter(cfg, call).maintainers
        <==> Registered(log + [EventFor(cfg, call).value], m, org)
    {
      MaintainerStep(cfg, log, call, m, org);
    }
  }

  lemma PendingStep(s: State, step: Step)
    requires (forall t :: t in s.tmp.apps <==> Pending(s.log, t)) && Succeeds(s, step)
    ensures var s' := Next(s, step); forall t :: t in s'.tmp.apps <==> Pending(s'.log, t)
  {
    if !step.call.ExtendApplicationTtl? {
      Snoc(s.log, EventFor(s.cfg, step.call).value);
    }
  }

  lemma BookStep(reg: Registry, log: seq<Event>, m: Address, t: Triple)
    requires RegistryMirrors(reg, log) && OrgCountOf(reg, t.who, t.org) < 0xFFFF_FFFF
    ensures RegistryMirrors(Book(reg, t), log + [Assigned(m, t)])
  {
    Snoc(log, Assigned(m, t));
  }

  lemma ReleaseStep(reg: Registry, log: seq<Event>, t: Triple, e: Event)
    requires RegistryMirrors(reg, log) && OrgCountOf(reg, t.who, t.org) >= 1 && (e.Completed? || e.Revoked?) && e.t == t
    ensures RegistryMirrors(Release(reg, t), log + [e])
  {
    Snoc(log, e);
  }

  lemma SilentStep(reg: Registry, log: seq<Event>, e: Event)
    requires RegistryMirrors(reg, log) && !e.Assigned? && !e.Completed? && !e.Revoked?
    ensures RegistryMirrors(reg, log + [e])
  {
    Snoc(log, e);
  }

  lemma RegistryStep(s: State, step: Step)
    requires RegistryMirrors(s.reg, s.log) && Succeeds(s, step)
    requires step.call.CompleteAssignment? ==> OrgCount(s, step.call.t.who, step.call.t.org) >= 1
    ensures RegistryMirrors(Next(s, step).reg, Next(s, step).log)
  {
    match step.call
    case AssignIssue(m, t) => BookStep(s.reg, s.log, m, t);
    case CompleteAssignment(m, t) => ReleaseStep(s.reg, s.log, t, Completed(m, t));
    case RevokeAssignment(m, t) => ReleaseStep(s.reg, s.log, t, Revoked(m, t));
    case ExtendApplicationTtl(t) =>
    case _ => SilentStep(s.reg, s.log, EventFor(s.cfg, step.call).value);
  }

  lemma MirrorsStep(s: State, step: Step)
    requires Mirrors(s) && Succeeds(s, step)
    requires step.call.CompleteAssignment? ==> OrgCount(s, step.call.t.who, step.call.t.org) >= 1
    ensures Mirrors(Next(s, step))
  {
    PendingStep(s, step);
    RegistryStep(s, step);
    hide ConfigMirrors, RegistryMirrors, Pending, ConfigAfter, TemporaryAfter, RegistryAfter, EventFor;
    if !step.call.ExtendApplicationTtl? {
      ConfigStep(s.cfg, s.log, step.call);
    } else {
      ExtendLeavesConfig(s.cfg, step.call);
    }
  }

  lemma ExtendLeavesConfig(cfg: Config, call: Call)
    requires call.ExtendApplicationTtl?
    ensures ConfigAfter(cfg, call) == cfg && EventFor(cfg, call).None?
  {
  }

  /**
   * The log replays to the state: the latest event about each key gives the admin, the caps, the
   * maintainers and the assignments, and every organisation counter is its balance of events.
   */
  lemma {:induction false} LogReplaysToState(start: nat, steps: seq<Step>)
    ensures Mirrors(After(Genesis(start), steps))
  {
    if steps != [] {
      var init, step := steps[..|steps| - 1], steps[|steps| - 1];
      LogReplaysToState(start, init);
      hide Mirrors;
      var s := After(Genesis(start), init);
      if Succeeds(s, step) {
        if step.call.CompleteAssignment? {
          SentinelImpliesCounter(start, init, step.call.t);
        }
        MirrorsStep(s, step);
      }
    }
  }

  /** What must already be on the log for `e` to be emitted. */
  predicate Lawful(log: seq<Event>, e: Event) {
    && (e.Initialized? <==> log == [])
    && match e
      case Initialized(_) => true
      case MaintainerRegistered(_, _) => true
      case MaintainerDeregistered(_, m, org) => Registered(log, m, org)
      case GlobalCapUpdated(_, cap) => cap <= GLOBAL_CAP_MAX
      case EmergencyCapUpdated(_, prior, cap) => prior == LatestGlobalCap(log) && cap <= GLOBAL_CAP_MAX
      case OrgCapUpdated(org, prior, cap) => prior == LatestOrgCap(log, org) && ORG_CAP_MIN <= cap <= ORG_CAP_MAX
      case Applied(_) => true
      case Withdrew(t) => Pending(log, t)
      case Assigned(m, t) =>
        && Registered(log, m, t.org) && Pending(log, t) && !Active(log, t)
        && Balance(log, t.who, t.org) < LatestOrgCap(log, t.org)
      case Completed(m, t) => Registered(log, m, t.org) && Active(log, t)
      case Revoked(m, t) => Registered(log, m, t.org) && Active(log, t)
  }

  ghost predicate LawfulLog(log: seq<Event>) {
    forall j {:trigger log[j]} :: 0 <= j < |log| ==> Lawful(log[..j], log[j])
  }

  lemma LawfulSnoc(log: seq<Event>, e: Event)
    requires LawfulLog(log) && Lawful(log, e)
    ensures LawfulLog(log + [e])
  {
    var longer := log + [e];
    forall j | 0 <= j < |longer|
      ensures Lawful(longer[..j], longer[j])
    {
      assert longer[..j] == log[..j];
      assert log[..|log|] == log;
    }
  }

  lemma LawfulInitial(log: seq<Event>)
    requires LawfulLog(log) && log != []
    ensures LawfulLog(Initial(log)) && Lawful(Initial(log), Last(log))
  {
    var init := Initial(log);
    forall j | 0 <= j < |init|
      ensures Lawful(init[..j], init[j])
    {
      assert init[..j] == log[..j] && init[j] == log[j];
    }
  }

  lemma {:induction false} AdminKnownOnceLogged(log: seq<Event>)
    requires LawfulLog(log)
    ensures LatestAdmin(log).Some? <==> log != []
  {
    if log != [] {
      LawfulInitial(log);
      AdminKnownOnceLogged(Initial(log));
    }
  }

  lemma EmittedIsLawful(s: State, step: Step)
    requires Mirrors(s) && Succeeds(s, step) && !step.call.ExtendApplicationTtl? && (s.cfg.admin.Some? <==> s.log != [])
    ensures Lawful(s.log, EventFor(s.cfg, step.call).value)
  {
  }

  lemma StepLogs(s: State, step: Step)
    ensures Next(s, step).log ==
      if Succeeds(s, step) && EventFor(s.cfg, step.call).Some? then s.log + [EventFor(s.cfg, step.call).value]
      else s.log
    ensures Succeeds(s, step) && step.call.ExtendApplicationTtl? ==> EventFor(s.cfg, step.call).None?
  {
  }

  lemma LawfulStep(s: State, step: Step)
    requires Mirrors(s) && LawfulLog(s.log)
    ensures LawfulLog(Next(s, step).log)
  {
    AdminKnownOnceLogged(s.log);
    StepLogs(s, step);
    if Succeeds(s, step) && !step.call.ExtendApplicationTtl? {
      EmittedIsLawful(s, step);
      hide Next, Lawful, LawfulLog, EventFor, Refusal;
      LawfulSnoc(s.log, EventFor(s.cfg, step.call).value);
    }
  }

  /**
   * Every event on the log was lawful when emitted. In particular each assigned, completed and
   * revoked event names a maintainer whose latest earlier event for that organisation is a
   * registration, each assignment consumes an application of its own, and the logged old caps are
   * the caps then in force.
   */
  lemma {:induction false} EveryEventLawful(start: nat, steps: seq<Step>)
    ensures LawfulLog(After(Genesis(start), steps).log)
  {
    if steps != [] {
      var init, step := steps[..|steps| - 1], steps[|steps| - 1];
      EveryEventLawful(start, init);
      LogReplaysToState(start, init);
      LawfulStep(After(Genesis(start), init), step);
    }
  }
}
