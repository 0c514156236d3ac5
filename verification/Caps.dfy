/** Caps that move while counts exist, and what the capacity queries promise. */
module Caps {
  import opened Prelude
  import opened Contract
  import opened Projection

  // ---------------------------------------------------------------- counts under moving caps

  /** The largest global cap in force at any point of the run. */
  function PeakGlobalCap(s: State, steps: seq<Step>): nat {
    if steps == [] then GlobalCap(s) else Max(PeakGlobalCap(s, steps[..|steps| - 1]), GlobalCap(After(s, steps)))
  }

  function PeakOrgCap(s: State, steps: seq<Step>, org: Symbol): nat {
    if steps == [] then OrgCap(s, org) else Max(PeakOrgCap(s, steps[..|steps| - 1], org), OrgCap(After(s, steps), org))
  }

  /** A counter rises by one at a time, and only from below the cap in force. */
  lemma GlobalCountRisesBelowCap(s: State, step: Step, c: Address)
    ensures var s' := Next(s, step);
      GlobalCount(s', c) > GlobalCount(s, c) ==> GlobalCount(s', c) == GlobalCount(s, c) + 1 <= GlobalCap(s)
  {
  }

  lemma OrgCountRisesBelowCap(s: State, step: Step, c: Address, org: Symbol)
    ensures var s' := Next(s, step);
      OrgCount(s', c, org) > OrgCount(s, c, org) ==> OrgCount(s', c, org) == OrgCount(s, c, org) + 1 <= OrgCap(s, org)
  {
  }

  lemma CapsStayInRange(s: State, step: Step, org: Symbol)
    requires GlobalCap(s) <= GLOBAL_CAP_MAX && OrgCap(s, org) <= ORG_CAP_MAX
    ensures GlobalCap(Next(s, step)) <= GLOBAL_CAP_MAX && OrgCap(Next(s, step), org) <= ORG_CAP_MAX
  {
  }

  /**
   * However the caps move, a contributor's count never exceeds the largest global cap there has
   * been (at most 100), nor an organisation count the largest cap that organisation has had (at
   * most 20).
   */
  lemma {:induction false} CountsWithinPeakCaps(start: nat, steps: seq<Step>, c: Address, org: Symbol)
    ensures var g, s := Genesis(start), After(Genesis(start), steps);
      && GlobalCount(s, c) <= PeakGlobalCap(g, steps) <= GLOBAL_CAP_MAX
      && OrgCount(s, c, org) <= PeakOrgCap(g, steps, org) <= ORG_CAP_MAX
      && GlobalCap(s) <= PeakGlobalCap(g, steps) && OrgCap(s, org) <= PeakOrgCap(g, steps, org)
  {
    if steps != [] {
      var init, step := steps[..|steps| - 1], steps[|steps| - 1];
      CountsWithinPeakCaps(start, init, c, org);
      GlobalCountRisesBelowCap(After(Genesis(start), init), step, c);
      OrgCountRisesBelowCap(After(Genesis(start), init), step, c, org);
      CapsStayInRange(After(Genesis(start), init), step, org);
    }
  }

  /** An organisation whose cap was never set keeps its contributors within the default. */
  lemma {:induction false} DefaultOrgCap(start: nat, steps: seq<Step>, org: Symbol)
    requires forall i :: 0 <= i < |steps| ==>
      !(steps[i].Invoke? && steps[i].call.SetOrgCap? && steps[i].call.org == org)
    ensures PeakOrgCap(Genesis(start), steps, org) == ORG_ASSIGNMENT_LIMIT == OrgCap(After(Genesis(start), steps), org)
  {
    if steps != [] {
      DefaultOrgCap(start, steps[..|steps| - 1], org);
    }
  }

  /** While the count stays at or above the cap in force, it cannot rise. */
  lemma {:induction false} NoRiseWhileAtCap(s: State, steps: seq<Step>, c: Address)
    requires forall i :: 0 <= i < |steps| ==> GlobalCount(After(s, steps[..i]), c) >= GlobalCap(After(s, steps[..i]))
    ensures GlobalCount(After(s, steps), c) <= GlobalCount(s, c)
  {
    if steps != [] {
      var init, step := steps[..|steps| - 1], steps[|steps| - 1];
      forall i | 0 <= i < |init|
        ensures GlobalCount(After(s, init[..i]), c) >= GlobalCap(After(s, init[..i]))
      {
        assert init[..i] == steps[..i];
      }
      assert init == steps[..|steps| - 1];
      NoRiseWhileAtCap(s, init, c);
      GlobalCountRisesBelowCap(After(s, init), step, c);
    }
  }

  lemma {:induction false} NoOrgRiseWhileAtCap(s: State, steps: seq<Step>, c: Address, org: Symbol)
    requires forall i :: 0 <= i < |steps| ==>
      OrgCount(After(s, steps[..i]), c, org) >= OrgCap(After(s, steps[..i]), org)
    ensures OrgCount(After(s, steps), c, org) <= OrgCount(s, c, org)
  {
    if steps != [] {
      var init, step := steps[..|steps| - 1], steps[|steps| - 1];
      forall i | 0 <= i < |init|
        ensures OrgCount(After(s, init[..i]), c, org) >= OrgCap(After(s, init[..i]), org)
      {
        assert init[..i] == steps[..i];
      }
      assert init == steps[..|steps| - 1];
      NoOrgRiseWhileAtCap(s, init, c, org);
      OrgCountRisesBelowCap(After(s, init), step, c, org);
    }
  }

  // ---------------------------------------------------------------- capacity queries

  ghost predicate Distinct(ts: seq<Triple>) { forall i, j :: 0 <= i < j < |ts| ==> ts[i] != ts[j] }

  /** The steps apply for the issues `ts` in turn. */
  ghost predicate AppliesFor(steps: seq<Step>, ts: seq<Triple>, signers: set<Address>) {
    |steps| == |ts| && forall i :: 0 <= i < |ts| ==> steps[i] == Invoke(ApplyForIssue(ts[i]), signers)
  }

  ghost predicate AssignsEach(steps: seq<Step>, ts: seq<Triple>, m: Address, signers: set<Address>) {
    |steps| == |ts| && forall i :: 0 <= i < |ts| ==> steps[i] == Invoke(AssignIssue(m, ts[i]), signers)
  }

  /** The first `k` of `n` attempts succeed, the rest fail with `e`. */
  function FirstOnly(k: nat, n: nat, e: Error): seq<Option<Error>> {
    seq(n, i => if i < k then None else Some(e))
  }

  lemma FirstOnlySnoc(k: nat, n: nat, e: Error)
    ensures FirstOnly(k, n + 1, e) == FirstOnly(k, n, e) + [if n < k then None else Some(e)]
  {
  }

  function Less(k: nat, n: nat): nat { if n < k then k - n else 0 }

  /** No application or assignment outside `ts` has appeared or gone. */
  ghost predicate OthersKept(s: State, s': State, ts: seq<Triple>) {
    forall t: Triple :: t !in ts ==>
      (HasApplied(s', t) <==> HasApplied(s, t)) && (IsAssigned(s', t) <==> IsAssigned(s, t))
  }

  lemma OthersKeptSnoc(s: State, p: State, s': State, ts: seq<Triple>, t: Triple)
    requires OthersKept(s, p, ts) && OthersKept(p, s', [t])
    ensures OthersKept(s, s', ts + [t])
  {
  }

  lemma KeptAt(s: State, s': State, ts: seq<Triple>, t: Triple)
    requires OthersKept(s, s', ts) && t !in ts
    ensures (HasApplied(s', t) <==> HasApplied(s, t)) && (IsAssigned(s', t) <==> IsAssigned(s, t))
  {
  }

  /** One application to a fresh issue: it fails only at the cap, and disturbs no other issue. */
  lemma ApplyOne(s: State, t: Triple, signers: set<Address>)
    requires s.cfg.admin.Some? && t.who in signers && !HasApplied(s, t)
    ensures var step := Invoke(ApplyForIssue(t), signers);
      var s', k := Next(s, step), GlobalApplicationCapacity(s, t.who);
      && Verdict(s, step) == (if 0 < k then None else Some(GlobalApplicationLimitReached))
      && s'.cfg == s.cfg && GlobalApplicationCapacity(s', t.who) == Less(k, 1) && OthersKept(s, s', [t])
  {
  }

  /** The applications `ts` made from `s` have met the prediction. */
  ghost predicate ApplyPredicted(s: State, c: Address, ts: seq<Triple>, steps: seq<Step>) {
    var k, s' := GlobalApplicationCapacity(s, c), After(s, steps);
    && Verdicts(s, steps) == FirstOnly(k, |ts|, GlobalApplicationLimitReached)
    && s'.cfg == s.cfg && OthersKept(s, s', ts) && GlobalApplicationCapacity(s', c) == Less(k, |ts|)
  }

  lemma ApplyPredictedStep(s: State, ts: seq<Triple>, steps: seq<Step>, signers: set<Address>)
    requires ts != [] && AppliesFor(steps, ts, signers)
    requires var init, t := ts[..|ts| - 1], ts[|ts| - 1];
      && s.cfg.admin.Some? && t.who in signers && t !in init && !HasApplied(s, t)
      && ApplyPredicted(s, t.who, init, steps[..|ts| - 1])
    ensures ApplyPredicted(s, ts[|ts| - 1].who, ts, steps)
  {
    hide GlobalApplicationCapacity, Next, Verdict, FirstOnly, HasApplied, IsAssigned, OthersKept;
    var init, t := ts[..|ts| - 1], ts[|ts| - 1];
    assert ts == init + [t];
    FirstOnlySnoc(GlobalApplicationCapacity(s, t.who), |init|, GlobalApplicationLimitReached);
    var p := After(s, steps[..|ts| - 1]);
    KeptAt(s, p, init, t);
    ApplyOne(p, t, signers);
    OthersKeptSnoc(s, p, After(s, steps), init, t);
  }

  /**
   * The global capacity is an exact prediction: of any number of applications to distinct issues
   * not already applied for, exactly that many succeed and all later ones hit the limit.
   */
  lemma {:induction false} GlobalCapacityIsExact(s: State, c: Address, ts: seq<Triple>, steps: seq<Step>,
          signers: set<Address>)
    requires s.cfg.admin.Some? && c in signers && Distinct(ts) && AppliesFor(steps, ts, signers)
    requires forall i :: 0 <= i < |ts| ==> ts[i].who == c && !HasApplied(s, ts[i])
    ensures ApplyPredicted(s, c, ts, steps)
  {
    if ts != [] {
      GlobalCapacityIsExact(s, c, ts[..|ts| - 1], steps[..|ts| - 1], signers);
      ApplyPredictedStep(s, ts, steps, signers);
    }
  }

  /** One assignment of an applied-for, unassigned issue: it fails only at the cap, and disturbs no other issue. */
  lemma AssignOne(s: State, m: Address, t: Triple, signers: set<Address>)
    requires s.cfg.admin.Some? && m in signers && (m, t.org) in s.cfg.maintainers && HasApplied(s, t)
      && !IsAssigned(s, t)
    ensures var step := Invoke(AssignIssue(m, t), signers);
      var s', k := Next(s, step), OrgAssignmentCapacity(s, t.who, t.org);
      && Verdict(s, step) == (if 0 < k then None else Some(OrgAssignmentLimitReached))
      && s'.cfg == s.cfg && OrgAssignmentCapacity(s', t.who, t.org) == Less(k, 1) && OthersKept(s, s', [t])
  {
  }

  ghost predicate AssignPredicted(s: State, c: Address, org: Symbol, ts: seq<Triple>, steps: seq<Step>) {
    var k, s' := OrgAssignmentCapacity(s, c, org), After(s, steps);
    && Verdicts(s, steps) == FirstOnly(k, |ts|, OrgAssignmentLimitReached)
    && s'.cfg == s.cfg && OthersKept(s, s', ts) && OrgAssignmentCapacity(s', c, org) == Less(k, |ts|)
  }

  lemma AssignPredictedStep(s: State, m: Address, ts: seq<Triple>, steps: seq<Step>, signers: set<Address>)
    requires ts != [] && AssignsEach(steps, ts, m, signers)
    requires var init, t := ts[..|ts| - 1], ts[|ts| - 1];
      && s.cfg.admin.Some? && m in signers && (m, t.org) in s.cfg.maintainers
      && t !in init && HasApplied(s, t) && !IsAssigned(s, t)
      && AssignPredicted(s, t.who, t.org, init, steps[..|ts| - 1])
    ensures AssignPredicted(s, ts[|ts| - 1].who, ts[|ts| - 1].org, ts, steps)
  {
    hide OrgAssignmentCapacity, Next, Verdict, FirstOnly, HasApplied, IsAssigned, OthersKept;
    var init, t := ts[..|ts| - 1], ts[|ts| - 1];
    assert ts == init + [t];
    FirstOnlySnoc(OrgAssignmentCapacity(s, t.who, t.org), |init|, OrgAssignmentLimitReached);
    var p := After(s, steps[..|ts| - 1]);
    KeptAt(s, p, init, t);
    AssignOne(p, m, t, signers);
    OthersKeptSnoc(s, p, After(s, steps), init, t);
  }

  /** The same for assigning distinct issues that are applied for and not yet assigned. */
  lemma {:induction false} OrgCapacityIsExact(s: State, m: Address, c: Address, org: Symbol, ts: seq<Triple>,
          steps: seq<Step>, signers: set<Address>)
    requires s.cfg.admin.Some? && m in signers && (m, org) in s.cfg.maintainers && Distinct(ts)
      && AssignsEach(steps, ts, m, signers)
    requires forall i :: 0 <= i < |ts| ==>
      ts[i].who == c && ts[i].org == org && HasApplied(s, ts[i]) && !IsAssigned(s, ts[i])
    ensures AssignPredicted(s, c, org, ts, steps)
  {
    if ts != [] {
      OrgCapacityIsExact(s, m, c, org, ts[..|ts| - 1], steps[..|ts| - 1], signers);
      AssignPredictedStep(s, m, ts, steps, signers);
    }
  }
}
