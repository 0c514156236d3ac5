/** Who may change what: each kind of change to the tables is traced back to a signature. */
module Authority {
  import opened Prelude
  import opened Contract
  import opened Accounting

  predicate Signed(step: Step, a: Address) { step.Invoke? && a in step.signers }

  /** Some maintainer registered for the organisation signed the step. */
  predicate MaintainerSigned(s: State, step: Step, org: Symbol) {
    step.Invoke? && exists m :: m in step.signers && (m, org) in s.cfg.maintainers
  }

  /** The admin is set once, by its own signature; only it moves the global cap and the maintainers. */
  lemma ConfigurationAuthority(s: State, step: Step, org: Symbol)
    ensures var s' := Next(s, step);
      && (s.cfg.admin.Some? ==> s'.cfg.admin == s.cfg.admin)
      && (s'.cfg.admin != s.cfg.admin ==> Signed(step, s'.cfg.admin.value))
      && (s.cfg.admin.Some? && (GlobalCap(s') != GlobalCap(s) || s'.cfg.maintainers != s.cfg.maintainers) ==>
            Signed(step, s.cfg.admin.value))
      && (OrgCap(s', org) != OrgCap(s, org) ==> MaintainerSigned(s, step, org))
  {
  }

  /** An application appears, and a count rises, by the contributor's signature only. */
  lemma ApplicationAuthority(s: State, step: Step, t: Triple)
    ensures var s' := Next(s, step);
      && (HasApplied(s', t) && !HasApplied(s, t) ==> Signed(step, t.who))
      && (GlobalCount(s', t.who) > GlobalCount(s, t.who) ==> Signed(step, t.who))
  {
  }

  /** Outside expiry, an application goes by the contributor's signature or a maintainer's of its organisation. */
  lemma RemovalAuthority(s: State, step: Step, t: Triple)
    ensures step.Invoke? && HasApplied(s, t) && !HasApplied(Next(s, step), t) ==>
      Signed(step, t.who) || MaintainerSigned(s, step, t.org)
  {
  }

  /** Assignments come and go, with their counter, only by a maintainer of the organisation. */
  lemma AssignmentAuthority(s: State, step: Step, t: Triple)
    ensures var s' := Next(s, step);
      IsAssigned(s', t) != IsAssigned(s, t) || OrgCount(s', t.who, t.org) != OrgCount(s, t.who, t.org) ==>
        MaintainerSigned(s, step, t.org)
  {
  }

  /** Before initialisation nothing can be stored or logged. */
  lemma {:induction false} NothingBeforeInitialize(start: nat, steps: seq<Step>)
    ensures var s := After(Genesis(start), steps); s.cfg.admin.None? ==> s == Genesis(s.now)
  {
    if steps != [] {
      NothingBeforeInitialize(start, steps[..|steps| - 1]);
    }
  }

  /** Whoever initialised the contract stays its admin for good. */
  lemma {:induction false} AdminIsForever(s: State, steps: seq<Step>)
    requires s.cfg.admin.Some?
    ensures After(s, steps).cfg.admin == s.cfg.admin
  {
    if steps != [] {
      AdminIsForever(s, steps[..|steps| - 1]);
      ConfigurationAuthority(After(s, steps[..|steps| - 1]), steps[|steps| - 1], "");
    }
  }

  // ---------------------------------------------------------------- every entry is traced to its signature

  /** Step `i` of the run is a successful application for `t`, signed by its contributor. */
  ghost predicate AppliedAt(start: nat, steps: seq<Step>, i: nat, t: Triple) {
    && i < |steps| && Succeeds(After(Genesis(start), steps[..i]), steps[i])
    && steps[i].call == ApplyForIssue(t) && Signed(steps[i], t.who)
  }

  /** Step `i` is a successful assignment of `t` by `m`, who signed it and was registered for the organisation then. */
  ghost predicate AssignedAt(start: nat, steps: seq<Step>, i: nat, m: Address, t: Triple) {
    && i < |steps| && Succeeds(After(Genesis(start), steps[..i]), steps[i])
    && steps[i].call == AssignIssue(m, t) && Signed(steps[i], m)
    && (m, t.org) in After(Genesis(start), steps[..i]).cfg.maintainers
  }

  /** Every recorded application, live or lapsed, goes back to a step its contributor signed. */
  lemma {:induction false} ApplicationTraced(start: nat, steps: seq<Step>, t: Triple)
    requires t in After(Genesis(start), steps).tmp.apps
    ensures exists i :: AppliedAt(start, steps, i, t)
  {
    var init, last := steps[..|steps| - 1], |steps| - 1;
    Prefixes(steps);
    if t in After(Genesis(start), init).tmp.apps {
      ApplicationTraced(start, init, t);
      var i :| AppliedAt(start, init, i, t);
      assert AppliedAt(start, steps, i, t);
    } else {
      assert AppliedAt(start, steps, last, t);
    }
  }

  /** Step `i` assigned `t` on `m`'s authority, after its contributor had applied for it. */
  ghost predicate EarnedAt(start: nat, steps: seq<Step>, i: nat, m: Address, t: Triple) {
    AssignedAt(start, steps, i, m, t) && exists j: nat :: j < i && AppliedAt(start, steps, j, t)
  }

  lemma EarnedEarlier(start: nat, steps: seq<Step>, i: nat, m: Address, t: Triple)
    requires steps != [] && EarnedAt(start, steps[..|steps| - 1], i, m, t)
    ensures EarnedAt(start, steps, i, m, t)
  {
    Prefixes(steps);
    var j: nat :| j < i && AppliedAt(start, steps[..|steps| - 1], j, t);
    assert AppliedAt(start, steps, j, t);
  }

  /**
   * Every assignment goes back to a step signed by a maintainer registered for the organisation at
   * that step, and before it to an application its contributor signed.
   */
  lemma {:induction false} AssignmentTraced(start: nat, steps: seq<Step>, t: Triple)
    requires IsAssigned(After(Genesis(start), steps), t)
    ensures exists i: nat, m :: EarnedAt(start, steps, i, m, t)
  {
    var init, last := steps[..|steps| - 1], |steps| - 1;
    if IsAssigned(After(Genesis(start), init), t) {
      AssignmentTraced(start, init, t);
      var i: nat, m :| EarnedAt(start, init, i, m, t);
      EarnedEarlier(start, steps, i, m, t);
    } else {
      Prefixes(steps);
      ApplicationTraced(start, init, t);
      var j: nat :| AppliedAt(start, init, j, t);
      assert AppliedAt(start, steps, j, t);
      assert AssignedAt(start, steps, last, steps[last].call.maintainer, t);
      assert EarnedAt(start, steps, last, steps[last].call.maintainer, t);
    }
  }

  // ---------------------------------------------------------------- the admin argument

  /** The calls differ in their `admin` argument at most. */
  predicate SameButAdmin(c1: Call, c2: Call) {
    match c1
    case RegisterMaintainer(_, m, org) => c2.RegisterMaintainer? && c2.maintainer == m && c2.org == org
    case DeregisterMaintainer(_, m, org) => c2.DeregisterMaintainer? && c2.maintainer == m && c2.org == org
    case SetGlobalCap(_, cap) => c2.SetGlobalCap? && c2.newCap == cap
    case EmergencySetGlobalCap(_, cap) => c2.EmergencySetGlobalCap? && c2.newCap == cap
    case _ => false
  }

  /** The `admin` argument of the admin calls decides nothing: same error, or same tables. */
  lemma AdminArgumentIsIgnored(s: State, c1: Call, c2: Call, signers: set<Address>, debug: bool)
    requires SameButAdmin(c1, c2)
    ensures var r1, r2 := Exec(s, c1, signers, debug), Exec(s, c2, signers, debug);
      if r1.Panic? then r2 == r1 else r2.Done? && r2.post == r1.post.(log := r2.post.log)
  {
  }

  /** The admin an event of the admin calls names. */
  function LoggedAdmin(e: Event): Option<Address> {
    match e
    case MaintainerDeregistered(a, _, _) => Some(a)
    case GlobalCapUpdated(a, _) => Some(a)
    case EmergencyCapUpdated(a, _, _) => Some(a)
    case _ => None
  }

  /** The log names the argument, so it names the stored admin if and only if the caller passed that. */
  lemma LoggedAdminIsTheArgument(s: State, step: Step)
    requires Succeeds(s, step)
    requires step.call.DeregisterMaintainer? || step.call.SetGlobalCap? || step.call.EmergencySetGlobalCap?
    ensures var log := Next(s, step).log;
      && |log| == |s.log| + 1
      && (LoggedAdmin(log[|log| - 1]) == s.cfg.admin <==> Some(step.call.admin) == s.cfg.admin)
  {
  }

  /** The successful step logs `e` and nothing else. */
  predicate Logs(s: State, step: Step, e: Event) { Succeeds(s, step) && Next(s, step).log == s.log + [e] }

  /** All three calls whose `admin` "must match the stored admin" succeed for `other`, and log it where they log any. */
  ghost predicate UncheckedIn(s: State, admin: Address, other: Address, m: Address, org: Symbol) {
    var register := Invoke(RegisterMaintainer(other, m, org), {admin});
    && s.cfg.admin == Some(admin)
    && Logs(s, register, MaintainerRegistered(m, org))
    && Logs(Next(s, register), Invoke(DeregisterMaintainer(other, m, org), {admin}),
         MaintainerDeregistered(other, m, org))
    && Logs(s, Invoke(EmergencySetGlobalCap(other, 0), {admin}), EmergencyCapUpdated(other, GlobalCap(s), 0))
  }

  lemma AnyArgumentGoes(s: State, admin: Address, other: Address, m: Address, org: Symbol)
    requires s.cfg.admin == Some(admin)
    ensures UncheckedIn(s, admin, other, m, org)
  {
    var register := Invoke(RegisterMaintainer(other, m, org), {admin});
    assert Logs(s, register, MaintainerRegistered(m, org));
    assert (m, org) in Next(s, register).cfg.maintainers && Next(s, register).cfg.admin == Some(admin);
  }

  lemma JustInitialized(start: nat, admin: Address) returns (steps: seq<Step>)
    ensures steps == [Invoke(Initialize(admin), {admin})]
    ensures After(Genesis(start), steps).cfg.admin == Some(admin)
  {
    steps := [Invoke(Initialize(admin), {admin})];
    assert steps[..0] == [];
  }

  /**
   * In a state that can be reached, each of the three calls documented to need the stored admin's
   * address as its `admin` argument succeeds with any other one.
   */
  lemma AdminArgumentUnchecked(admin: Address, other: Address, m: Address, org: Symbol)
    requires admin != other
    ensures exists steps :: UncheckedIn(After(Genesis(0), steps), admin, other, m, org)
  {
    var steps := JustInitialized(0, admin);
    AnyArgumentGoes(After(Genesis(0), steps), admin, other, m, org);
  }
}
