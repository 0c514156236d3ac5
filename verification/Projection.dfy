/** Contributors do not interfere: each sees the contract as if the others did not exist. */
module Projection {
  import opened Prelude
  import opened Contract
  import opened EventLog

  /** The contributor a step acts on; administrative steps and the passing of time act on nobody in particular. */
  function Owner(step: Step): Option<Address> {
    if step.Advance? then None
    else match step.call
      case ApplyForIssue(t) => Some(t.who)
      case WithdrawApplication(t) => Some(t.who)
      case AssignIssue(_, t) => Some(t.who)
      case CompleteAssignment(_, t) => Some(t.who)
      case RevokeAssignment(_, t) => Some(t.who)
      case ExtendApplicationTtl(t) => Some(t.who)
      case _ => None
  }

  predicate Kept(step: Step, c: Address) { Owner(step) == None || Owner(step) == Some(c) }

  predicate EventKept(e: Event, c: Address) {
    match e
    case Applied(t) => t.who == c
    case Withdrew(t) => t.who == c
    case Assigned(_, t) => t.who == c
    case Completed(_, t) => t.who == c
    case Revoked(_, t) => t.who == c
    case _ => true
  }

  function EventsFor(log: seq<Event>, c: Address): seq<Event> {
    if log == [] then []
    else EventsFor(Initial(log), c) + (if EventKept(Last(log), c) then [Last(log)] else [])
  }

  ghost predicate SameTemporary(tmp1: Temporary, tmp2: Temporary, c: Address) {
    && (c in tmp1.counts <==> c in tmp2.counts) && (c in tmp1.counts ==> tmp1.counts[c] == tmp2.counts[c])
    && (forall t: Triple {:trigger t in tmp1.apps} {:trigger t in tmp2.apps} | t.who == c ::
          (t in tmp1.apps <==> t in tmp2.apps) && (t in tmp1.apps ==> tmp1.apps[t] == tmp2.apps[t]))
  }

  ghost predicate SameRegistry(reg1: Registry, reg2: Registry, c: Address) {
    && (forall t: Triple {:trigger t in reg1.assignments} {:trigger t in reg2.assignments} | t.who == c ::
          t in reg1.assignments <==> t in reg2.assignments)
    && (forall org: Symbol {:trigger (c, org) in reg1.orgCounts} {:trigger (c, org) in reg2.orgCounts} ::
          ((c, org) in reg1.orgCounts <==> (c, org) in reg2.orgCounts)
          && ((c, org) in reg1.orgCounts ==> reg1.orgCounts[(c, org)] == reg2.orgCounts[(c, org)]))
  }

  /** The two states agree on all that concerns `c`, deadlines and event history included. */
  ghost predicate SameFor(s1: State, s2: State, c: Address) {
    && s1.now == s2.now && s1.cfg == s2.cfg
    && SameTemporary(s1.tmp, s2.tmp, c) && SameRegistry(s1.reg, s2.reg, c)
    && EventsFor(s1.log, c) == EventsFor(s2.log, c)
  }

  function Verdict(s: State, step: Step): Option<Error> {
    if step.Advance? then None else Refusal(s, step.call, step.signers, false)
  }

  function Verdicts(s: State, steps: seq<Step>): seq<Option<Error>> {
    if steps == [] then []
    else Verdicts(s, steps[..|steps| - 1]) + [Verdict(After(s, steps[..|steps| - 1]), steps[|steps| - 1])]
  }

  /** The verdicts on the steps that are c's own or nobody's, in order. */
  function VerdictsFor(s: State, steps: seq<Step>, c: Address): seq<Option<Error>> {
    if steps == [] then []
    else
      var init, step := steps[..|steps| - 1], steps[|steps| - 1];
      VerdictsFor(s, init, c) + (if Kept(step, c) then [Verdict(After(s, init), step)] else [])
  }

  /** The run with every other contributor's steps deleted. */
  function Project(steps: seq<Step>, c: Address): seq<Step> {
    if steps == [] then []
    else Project(steps[..|steps| - 1], c) + (if Kept(steps[|steps| - 1], c) then [steps[|steps| - 1]] else [])
  }

  // ---------------------------------------------------------------- others' steps are invisible

  lemma TemporaryInvisible(s: State, step: Step, c: Address)
    requires !Kept(step, c) && Succeeds(s, step)
    ensures SameTemporary(s.tmp, Next(s, step).tmp, c)
  {
  }

  lemma RegistryInvisible(s: State, step: Step, c: Address)
    requires !Kept(step, c) && Succeeds(s, step)
    ensures SameRegistry(s.reg, Next(s, step).reg, c)
  {
  }

  lemma ForeignStepInvisible(s: State, step: Step, c: Address)
    requires !Kept(step, c)
    ensures SameFor(s, Next(s, step), c)
  {
    if Succeeds(s, step) {
      TemporaryInvisible(s, step, c);
      RegistryInvisible(s, step, c);
      if !step.call.ExtendApplicationTtl? {
        Snoc(s.log, EventFor(s.cfg, step.call).value);
      }
    }
  }

  // ---------------------------------------------------------------- c's own steps see no difference

  lemma ReadsAgree(s1: State, s2: State, c: Address)
    requires SameFor(s1, s2, c)
    ensures GlobalCount(s1, c) == GlobalCount(s2, c)
    ensures forall t: Triple | t.who == c :: HasApplied(s1, t) == HasApplied(s2, t)
    ensures forall t: Triple | t.who == c :: IsAssigned(s1, t) == IsAssigned(s2, t)
    ensures forall org :: OrgCount(s1, c, org) == OrgCount(s2, c, org)
  {
  }

  lemma RefusalAgrees(s1: State, s2: State, call: Call, signers: set<Address>, c: Address)
    requires SameFor(s1, s2, c) && Kept(Invoke(call, signers), c)
    ensures Refusal(s1, call, signers, false) == Refusal(s2, call, signers, false)
  {
    ReadsAgree(s1, s2, c);
  }

  lemma AdmitAgrees(tmp1: Temporary, tmp2: Temporary, now: nat, t: Triple)
    requires SameTemporary(tmp1, tmp2, t.who) && CountOf(tmp1, now, t.who) < 0xFFFF_FFFF
    ensures SameTemporary(Admit(tmp1, now, t), Admit(tmp2, now, t), t.who)
  {
  }

  lemma TakeAgrees(tmp1: Temporary, tmp2: Temporary, now: nat, t: Triple)
    requires SameTemporary(tmp1, tmp2, t.who)
    ensures SameTemporary(Take(tmp1, now, t), Take(tmp2, now, t), t.who)
  {
  }

  lemma ProlongAgrees(tmp1: Temporary, tmp2: Temporary, now: nat, t: Triple)
    requires SameTemporary(tmp1, tmp2, t.who) && HasApp(tmp1, now, t)
    ensures SameTemporary(Prolong(tmp1, now, t), Prolong(tmp2, now, t), t.who)
  {
  }

  lemma TemporaryAgrees(s1: State, s2: State, step: Step, c: Address)
    requires SameFor(s1, s2, c) && Kept(step, c) && Succeeds(s1, step) && Succeeds(s2, step)
    ensures SameTemporary(Next(s1, step).tmp, Next(s2, step).tmp, c)
  {
    match step.call
    case ApplyForIssue(t) => AdmitAgrees(s1.tmp, s2.tmp, s1.now, t);
    case WithdrawApplication(t) => TakeAgrees(s1.tmp, s2.tmp, s1.now, t);
    case AssignIssue(m, t) => TakeAgrees(s1.tmp, s2.tmp, s1.now, t);
    case ExtendApplicationTtl(t) => ProlongAgrees(s1.tmp, s2.tmp, s1.now, t);
    case _ =>
  }

  lemma RegistryAgrees(s1: State, s2: State, step: Step, c: Address)
    requires SameFor(s1, s2, c) && Kept(step, c) && Succeeds(s1, step) && Succeeds(s2, step)
    ensures SameRegistry(Next(s1, step).reg, Next(s2, step).reg, c)
  {
    ReadsAgree(s1, s2, c);
  }

  lemma LogAgrees(s1: State, s2: State, call: Call, c: Address)
    requires s1.cfg == s2.cfg && EventsFor(s1.log, c) == EventsFor(s2.log, c)
    ensures EventsFor(LogAfter(s1, call), c) == EventsFor(LogAfter(s2, call), c)
  {
    var e := EventFor(s1.cfg, call);
    if e.Some? {
      Snoc(s1.log, e.value);
      Snoc(s2.log, e.value);
    }
  }

  lemma KeptStepAgrees(s1: State, s2: State, step: Step, c: Address)
    requires SameFor(s1, s2, c) && Kept(step, c)
    ensures Verdict(s1, step) == Verdict(s2, step) && SameFor(Next(s1, step), Next(s2, step), c)
  {
    if step.Invoke? {
      RefusalAgrees(s1, s2, step.call, step.signers, c);
      if Succeeds(s1, step) {
        TemporaryAgrees(s1, s2, step, c);
        RegistryAgrees(s1, s2, step, c);
        LogAgrees(s1, s2, step.call, c);
      }
    }
  }

  /**
   * Projection: deleting all steps of the other contributors from any run changes neither the
   * outcome of any remaining step nor c's counters, applications (with their deadlines),
   * assignments and events.
   */
  lemma {:induction false} OthersAreInvisible(s: State, steps: seq<Step>, c: Address)
    ensures VerdictsFor(s, steps, c) == Verdicts(s, Project(steps, c))
    ensures SameFor(After(s, steps), After(s, Project(steps, c)), c)
  {
    if steps != [] {
      var init, step := steps[..|steps| - 1], steps[|steps| - 1];
      OthersAreInvisible(s, init, c);
      var s1, s2 := After(s, init), After(s, Project(init, c));
      if Kept(step, c) {
        KeptStepAgrees(s1, s2, step, c);
        var p := Project(init, c);
        assert (p + [step])[..|p|] == p;
      } else {
        ForeignStepInvisible(s1, step, c);
        assert VerdictsFor(s, steps, c) == VerdictsFor(s, init, c);
        assert Project(steps, c) == Project(init, c);
      }
    }
  }
}
