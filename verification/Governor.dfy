/**
 * The contract's entry points over the flat store, in the source's own form: check, then write,
 * in the source's order. A failing method may leave partial writes behind; `Invoke` is the host,
 * which undoes them. `Refines` ties every outcome to the typed state machine.
 */
module Governor {
  import opened Prelude
  import opened Contract
  import opened Assignments
  import opened Storage

  /** The flat run ended as the typed one does: with the same error, or with the same state. */
  ghost predicate Refines(before: State, call: Call, signers: set<Address>, debug: bool, r: Result, after: State) {
    match Exec(before, call, signers, debug)
    case Done(post) => r == Ok && after == post
    case Panic(e) => r == Err(e)
  }

  method RequireAdmin(env: Env, signers: set<Address>) returns (r: Result)
    requires env.Valid()
    ensures r == match AdminGuard(env.view.cfg, signers) { case None => Ok case Some(e) => Err(e) }
  {
    var admin := env.GetAdmin();
    if admin.None? {
      return Err(NotInitialized);
    }
    if admin.value !in signers {
      return Err(AuthFailed);
    }
    return Ok;
  }

  method RequireMaintainer(env: Env, signers: set<Address>, maintainer: Address, org: Symbol) returns (r: Result)
    requires env.Valid()
    ensures r ==
      match MaintainerGuard(env.view.cfg, signers, maintainer, org) { case None => Ok case Some(e) => Err(e) }
  {
    if env.GetAdmin().None? {
      return Err(NotInitialized);
    }
    if maintainer !in signers {
      return Err(AuthFailed);
    }
    if !env.IsMaintainer(maintainer, org) {
      return Err(UnauthorizedMaintainer);
    }
    return Ok;
  }

  method InitializeContract(env: Env, signers: set<Address>, admin: Address) returns (r: Result)
    requires env.Valid()
    modifies env
    ensures env.Valid() && env.now == old(env.now)
    ensures Refines(old(env.view), Initialize(admin), signers, false, r, env.view)
  {
    if env.GetAdmin().Some? {
      return Err(AlreadyInitialized);
    }
    if admin !in signers {
      return Err(AuthFailed);
    }
    env.SetAdmin(admin);
    env.SetGlobalCapEntry(GLOBAL_APP_LIMIT);
    env.Publish(Initialized(admin));
    return Ok;
  }

  method Register(env: Env, signers: set<Address>, admin: Address, maintainer: Address, org: Symbol) returns (r: Result)
    requires env.Valid()
    modifies env
    ensures env.Valid() && env.now == old(env.now)
    ensures Refines(old(env.view), RegisterMaintainer(admin, maintainer, org), signers, false, r, env.view)
  {
    r := RequireAdmin(env, signers);
    if r.Err? {
      return;
    }
    env.SetMaintainer(maintainer, org);
    env.Publish(MaintainerRegistered(maintainer, org));
  }

  method Deregister(env: Env, signers: set<Address>, admin: Address, maintainer: Address, org: Symbol)
    returns (r: Result)
    requires env.Valid()
    modifies env
    ensures env.Valid() && env.now == old(env.now)
    ensures Refines(old(env.view), DeregisterMaintainer(admin, maintainer, org), signers, false, r, env.view)
  {
    r := RequireAdmin(env, signers);
    if r.Err? {
      return;
    }
    if !env.IsMaintainer(maintainer, org) {
      return Err(MaintainerNotFound);
    }
    env.RemoveMaintainer(maintainer, org);
    env.Publish(MaintainerDeregistered(admin, maintainer, org));
  }

  method ChangeGlobalCap(env: Env, signers: set<Address>, admin: Address, newCap: u32) returns (r: Result)
    requires env.Valid()
    modifies env
    ensures env.Valid() && env.now == old(env.now)
    ensures Refines(old(env.view), SetGlobalCap(admin, newCap), signers, false, r, env.view)
  {
    r := RequireAdmin(env, signers);
    if r.Err? {
      return;
    }
    if newCap > GLOBAL_CAP_MAX {
      return Err(CapOutOfRange);
    }
    env.SetGlobalCapEntry(newCap);
    env.Publish(GlobalCapUpdated(admin, newCap));
  }

  method EmergencyChangeGlobalCap(env: Env, signers: set<Address>, admin: Address, newCap: u32) returns (r: Result)
    requires env.Valid()
    modifies env
    ensures env.Valid() && env.now == old(env.now)
    ensures Refines(old(env.view), EmergencySetGlobalCap(admin, newCap), signers, false, r, env.view)
  {
    r := RequireAdmin(env, signers);
    if r.Err? {
      return;
    }
    if newCap > GLOBAL_CAP_MAX {
      return Err(CapOutOfRange);
    }
    var oldCap := env.GetGlobalCap();
    env.SetGlobalCapEntry(newCap);
    env.Publish(EmergencyCapUpdated(admin, oldCap, newCap));
  }

  method ChangeOrgCap(env: Env, signers: set<Address>, maintainer: Address, org: Symbol, newCap: u32)
    returns (r: Result)
    requires env.Valid()
    modifies env
    ensures env.Valid() && env.now == old(env.now)
    ensures Refines(old(env.view), SetOrgCap(maintainer, org, newCap), signers, false, r, env.view)
  {
    r := RequireMaintainer(env, signers, maintainer, org);
    if r.Err? {
      return;
    }
    if newCap < ORG_CAP_MIN || newCap > ORG_CAP_MAX {
      return Err(InvalidOrgCap);
    }
    var oldCap := env.GetOrgCap(org);
    env.SetOrgCapEntry(org, newCap);
    env.Publish(OrgCapUpdated(org, oldCap, newCap));
  }

  lemma ApplyEffects(s: State, t: Triple)
    requires GlobalCount(s, t.who) < GlobalCap(s)
    ensures var call := ApplyForIssue(t);
      && ConfigAfter(s.cfg, call) == s.cfg && TemporaryAfter(s, call) == Admit(s.tmp, s.now, t)
      && RegistryAfter(s, call) == s.reg && LogAfter(s, call) == s.log + [Applied(t)]
  {
  }

  /** The four writes of an application, in the source's order. */
  method AdmitOne(env: Env, t: Triple, count: u32)
    requires env.Valid() && count == GlobalCount(env.view, t.who) < 0xFFFF_FFFF
    modifies env
    ensures env.Valid() && env.now == old(env.now)
    ensures env.view == old(env.view).(tmp := Admit(old(env.view).tmp, env.now, t))
  {
    hide TemporaryAgrees, ConfigAgrees, RegistryAgrees;
    env.SetGlobalAppCount(t.who, count + 1);
    env.SetAppEntry(t);
    env.ExtendGlobalAppCountTtl(t.who);
    env.ExtendAppEntryTtl(t);
  }

  method Apply(env: Env, signers: set<Address>, t: Triple) returns (r: Result)
    requires env.Valid()
    modifies env
    ensures env.Valid() && env.now == old(env.now)
    ensures Refines(old(env.view), ApplyForIssue(t), signers, false, r, env.view)
  {
    hide TemporaryAgrees, ConfigAgrees, RegistryAgrees;
    if env.GetAdmin().None? {
      return Err(NotInitialized);
    }
    if t.who !in signers {
      return Err(AuthFailed);
    }
    var count := env.GetGlobalAppCount(t.who);
    if count >= env.GetGlobalCap() {
      return Err(GlobalApplicationLimitReached);
    }
    if env.HasAppEntry(t) {
      return Err(DuplicateApplication);
    }
    ghost var before := env.view;
    assert Refusal(before, ApplyForIssue(t), signers, false).None?;
    AdmitOne(env, t, count);
    ApplyEffects(before, t);
    hide Admit, ConfigAfter, TemporaryAfter, RegistryAfter, LogAfter;
    env.Publish(Applied(t));
    return Ok;
  }

  /** The decrement shared by withdraw and assign. */
  method TakeOne(env: Env, t: Triple)
    requires env.Valid()
    modifies env
    ensures env.Valid() && env.now == old(env.now)
    ensures env.view == old(env.view).(tmp := Take(old(env.view).tmp, env.now, t))
  {
    env.RemoveAppEntry(t);
    var count := PredSaturating(env.GetGlobalAppCount(t.who));
    if count == 0 {
      env.RemoveGlobalAppCount(t.who);
    } else {
      env.SetGlobalAppCount(t.who, count);
    }
  }

  method Withdraw(env: Env, signers: set<Address>, t: Triple) returns (r: Result)
    requires env.Valid()
    modifies env
    ensures env.Valid() && env.now == old(env.now)
    ensures Refines(old(env.view), WithdrawApplication(t), signers, false, r, env.view)
  {
    if env.GetAdmin().None? {
      return Err(NotInitialized);
    }
    if t.who !in signers {
      return Err(AuthFailed);
    }
    if !env.HasAppEntry(t) {
      return Err(ApplicationNotFound);
    }
    TakeOne(env, t);
    env.Publish(Withdrew(t));
    return Ok;
  }

  /** The assignment half of assign: counter up, sentinel in. */
  method BookOne(env: Env, t: Triple, count: u32)
    requires env.Valid() && count == OrgCount(env.view, t.who, t.org) < 0xFFFF_FFFF
    modifies env
    ensures env.Valid() && env.now == old(env.now)
    ensures env.view == old(env.view).(reg := Book(old(env.view).reg, t))
  {
    env.SetOrgAssignmentCount(t.who, t.org, count + 1);
    env.SetAssignment(t);
  }

  method Assign(env: Env, signers: set<Address>, maintainer: Address, t: Triple, debug: bool) returns (r: Result)
    requires env.Valid()
    modifies env
    ensures env.Valid() && env.now == old(env.now)
    ensures Refines(old(env.view), AssignIssue(maintainer, t), signers, debug, r, env.view)
  {
    hide Take, Book, TemporaryAgrees, ConfigAgrees, RegistryAgrees;
    r := RequireMaintainer(env, signers, maintainer, t.org);
    if r.Err? {
      return;
    }
    if !env.HasAppEntry(t) {
      return Err(ApplicationNotFound);
    }
    var count := env.GetOrgAssignmentCount(t.who, t.org);
    if count >= env.GetOrgCap(t.org) {
      return Err(OrgAssignmentLimitReached);
    }
    if env.HasAssignment(t) {
      return Err(AlreadyAssigned);
    }
    ghost var before := env.view;
    assert Refusal(before, AssignIssue(maintainer, t), signers, false).None?;
    TakeOne(env, t);
    BookOne(env, t, count);
    assert env.view == before.(tmp := Take(before.tmp, env.now, t), reg := Book(before.reg, t));
    if debug {
      var written := env.GetOrgAssignmentCount(t.who, t.org);
      if written == 0 || !env.HasAssignment(t) {
        return Err(CounterInconsistency);
      }
    }
    env.Publish(Assigned(maintainer, t));
    return Ok;
  }

  /** The end of complete and revoke: a counter at zero is removed. */
  method StoreOrgCount(env: Env, c: Address, org: Symbol, count: u32)
    requires env.Valid()
    modifies env
    ensures env.Valid() && env.now == old(env.now)
    ensures env.view == old(env.view).(reg := if count == 0 then DropOrgCount(old(env.view).reg, c, org)
      else PutOrgCount(old(env.view).reg, c, org, count))
  {
    if count == 0 {
      env.RemoveOrgAssignmentCount(c, org);
    } else {
      env.SetOrgAssignmentCount(c, org, count);
    }
  }

  method Complete(env: Env, signers: set<Address>, maintainer: Address, t: Triple, debug: bool) returns (r: Result)
    requires env.Valid()
    modifies env
    ensures env.Valid() && env.now == old(env.now)
    ensures Refines(old(env.view), CompleteAssignment(maintainer, t), signers, debug, r, env.view)
  {
    hide TemporaryAgrees, ConfigAgrees, RegistryAgrees;
    r := RequireMaintainer(env, signers, maintainer, t.org);
    if r.Err? {
      return;
    }
    if !env.HasAssignment(t) {
      return Err(AssignmentNotFound);
    }
    if debug && env.GetOrgAssignmentCount(t.who, t.org) == 0 {
      return Err(CounterInconsistency);
    }
    ghost var before := env.view;
    env.RemoveAssignment(t);
    var count := env.GetOrgAssignmentCount(t.who, t.org);
    StoreOrgCount(env, t.who, t.org, PredSaturating(count));
    assert env.view == before.(reg := Release(before.reg, t));
    env.Publish(Completed(maintainer, t));
    return Ok;
  }

  lemma RevokeEffects(s: State, m: Address, t: Triple)
    ensures var call := RevokeAssignment(m, t);
      && ConfigAfter(s.cfg, call) == s.cfg && TemporaryAfter(s, call) == s.tmp
      && RegistryAfter(s, call) == Release(s.reg, t) && LogAfter(s, call) == s.log + [Revoked(m, t)]
  {
  }

  /** The sentinel is removed before the counter is checked, so a failure here leaves a partial write. */
  method Revoke(env: Env, signers: set<Address>, maintainer: Address, t: Triple) returns (r: Result)
    requires env.Valid()
    modifies env
    ensures env.Valid() && env.now == old(env.now)
    ensures Refines(old(env.view), RevokeAssignment(maintainer, t), signers, false, r, env.view)
  {
    hide TemporaryAgrees, ConfigAgrees, RegistryAgrees;
    r := RequireMaintainer(env, signers, maintainer, t.org);
    if r.Err? {
      return;
    }
    if !env.HasAssignment(t) {
      return Err(AssignmentNotFound);
    }
    ghost var before := env.view;
    env.RemoveAssignment(t);
    var count := env.GetOrgAssignmentCount(t.who, t.org);
    if count == 0 {
      return Err(CounterInconsistency);
    }
    StoreOrgCount(env, t.who, t.org, count - 1);
    assert env.view == before.(reg := Release(before.reg, t));
    RevokeEffects(before, maintainer, t);
    hide Release, ConfigAfter, TemporaryAfter, RegistryAfter, LogAfter;
    env.Publish(Revoked(maintainer, t));
    return Ok;
  }

  method Extend(env: Env, t: Triple) returns (r: Result)
    requires env.Valid()
    modifies env
    ensures env.Valid() && env.now == old(env.now)
    ensures Refines(old(env.view), ExtendApplicationTtl(t), {}, false, r, env.view)
  {
    hide TemporaryAgrees, ConfigAgrees, RegistryAgrees;
    if !env.HasAppEntry(t) {
      return Err(ApplicationNotFound);
    }
    env.ExtendAppEntryTtl(t);
    if env.GetGlobalAppCount(t.who) > 0 {
      env.ExtendGlobalAppCountTtl(t.who);
    }
    return Ok;
  }

  /** Only assigning and completing have debug checks, and extending asks for no signature. */
  lemma BuildMatters(s: State, call: Call, signers: set<Address>, debug: bool)
    ensures !call.AssignIssue? && !call.CompleteAssignment? ==>
      Exec(s, call, signers, debug) == Exec(s, call, signers, false)
    ensures call.ExtendApplicationTtl? ==> Exec(s, call, signers, debug) == Exec(s, call, {}, false)
  {
  }

  method Dispatch(env: Env, call: Call, signers: set<Address>, debug: bool) returns (r: Result)
    requires env.Valid()
    modifies env
    ensures env.Valid() && env.now == old(env.now)
    ensures Refines(old(env.view), call, signers, debug, r, env.view)
  {
    BuildMatters(env.view, call, signers, debug);
    hide Exec, Env.Valid;
    match call
    case Initialize(admin) => r := InitializeContract(env, signers, admin);
    case RegisterMaintainer(admin, m, org) => r := Register(env, signers, admin, m, org);
    case DeregisterMaintainer(admin, m, org) => r := Deregister(env, signers, admin, m, org);
    case SetGlobalCap(admin, cap) => r := ChangeGlobalCap(env, signers, admin, cap);
    case EmergencySetGlobalCap(admin, cap) => r := EmergencyChangeGlobalCap(env, signers, admin, cap);
    case SetOrgCap(m, org, cap) => r := ChangeOrgCap(env, signers, m, org, cap);
    case ApplyForIssue(t) => r := Apply(env, signers, t);
    case WithdrawApplication(t) => r := Withdraw(env, signers, t);
    case AssignIssue(m, t) => r := Assign(env, signers, m, t, debug);
    case CompleteAssignment(m, t) => r := Complete(env, signers, m, t, debug);
    case RevokeAssignment(m, t) => r := Revoke(env, signers, m, t);
    case ExtendApplicationTtl(t) => r := Extend(env, t);
  }

  /** One host invocation: a panicking call is rolled back, so the step is exactly the typed one. */
  method HostInvoke(env: Env, call: Call, signers: set<Address>, debug: bool) returns (r: Result)
    requires env.Valid()
    modifies env
    ensures env.Valid() && env.view == NextIn(old(env.view), Invoke(call, signers), debug)
    ensures r == match Refusal(old(env.view), call, signers, debug) { case None => Ok case Some(e) => Err(e) }
    ensures r.Err? ==>
      env.temporary == old(env.temporary) && env.persistent == old(env.persistent) && env.events == old(env.events)
  {
    hide Refusal, ConfigAfter, TemporaryAfter, RegistryAfter, LogAfter, TemporaryAgrees, ConfigAgrees, RegistryAgrees;
    var temporary, persistent, events := env.temporary, env.persistent, env.events;
    ghost var view := env.view;
    r := Dispatch(env, call, signers, debug);
    if r.Err? {
      env.temporary, env.persistent, env.events := temporary, persistent, events;
      env.view := view;
    }
  }

  /** Ledgers close: nothing is written, but entries past their deadline stop being readable. */
  method CloseLedgers(env: Env, n: nat)
    requires env.Valid()
    modifies env
    ensures env.Valid() && env.view == Next(old(env.view), Advance(n))
    ensures env.temporary == old(env.temporary) && env.persistent == old(env.persistent)
  {
    env.now := env.now + n;
    env.view := env.view.(now := env.view.now + n);
  }

  /** A run over the flat store is the typed run. */
  method Run(env: Env, steps: seq<Step>)
    requires env.Valid()
    modifies env
    ensures env.Valid() && env.view == After(old(env.view), steps)
  {
    for i := 0 to |steps|
      invariant env.Valid() && env.view == After(old(env.view), steps[..i])
    {
      assert steps[..i + 1][..i] == steps[..i];
      match steps[i]
      case Advance(n) => CloseLedgers(env, n);
      case Invoke(call, signers) => var _ := HostInvoke(env, call, signers, false);
    }
    assert steps[..|steps|] == steps;
  }

  method GetGlobalApplicationCapacity(env: Env, c: Address) returns (capacity: u32)
    requires env.Valid()
    ensures capacity == GlobalApplicationCapacity(env.view, c)
  {
    var current := env.GetGlobalAppCount(c);
    capacity := SubSaturating(env.GetGlobalCap(), current);
  }

  method GetOrgAssignmentCapacity(env: Env, c: Address, org: Symbol) returns (capacity: u32)
    requires env.Valid()
    ensures capacity == OrgAssignmentCapacity(env.view, c, org)
  {
    var current := env.GetOrgAssignmentCount(c, org);
    capacity := SubSaturating(env.GetOrgCap(org), current);
  }

  /** `check_consistency` reports exactly the orphaned pairs, in input order with repeats kept, on any state. */
  method CheckConsistency(env: Env, pairs: seq<(Address, Symbol)>, issues: seq<u32>)
    returns (inconsistent: seq<(Address, Symbol)>)
    requires env.Valid()
    ensures inconsistent == OrphanedPairs(env.view, pairs, issues)
  {
    inconsistent := [];
    for i := 0 to |pairs|
      invariant inconsistent == OrphanedPairs(env.view, pairs[..i], issues)
    {
      var pair := pairs[i];
      assert pairs[..i + 1][..i] == pairs[..i];
      if env.GetOrgAssignmentCount(pair.0, pair.1) == 0 {
        var orphan := false;
        var j := 0;
        while j < |issues| && !orphan
          invariant 0 <= j <= |issues|
          invariant orphan <==> exists k :: 0 <= k < j && IsAssigned(env.view, Triple(pair.0, pair.1, issues[k]))
        {
          orphan := env.HasAssignment(Triple(pair.0, pair.1, issues[j]));
          j := j + 1;
        }
        if orphan {
          inconsistent := inconsistent + [pair];
        }
      }
    }
    assert pairs[..|pairs|] == pairs;
  }
}
