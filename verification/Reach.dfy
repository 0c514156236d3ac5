/** Which counts can be reached: the bounds of the caps are attained, and exactly when a given count can be passed. */
module Reach {
  import opened Prelude
  import opened Contract
  import opened Accounting
  import opened Assignments
  import opened Authority
  import opened Caps

  // ---------------------------------------------------------------- there is always another issue

  function Issues(c: Address, org: Symbol, n: nat): set<Triple>
    requires n <= 101
  {
    if n == 0 then {} else Issues(c, org, n - 1) + {Triple(c, org, n - 1)}
  }

  lemma {:induction false} IssuesCount(c: Address, org: Symbol, n: nat)
    requires n <= 101
    ensures |Issues(c, org, n)| == n
    ensures forall t :: t in Issues(c, org, n) ==> t.who == c && t.org == org && t.issue < n
  {
    if n > 0 {
      IssuesCount(c, org, n - 1);
    }
  }

  lemma FreshIssue(c: Address, org: Symbol, taken: set<Triple>) returns (t: Triple)
    requires |taken| <= 100
    ensures t.who == c && t.org == org && t !in taken
  {
    IssuesCount(c, org, 101);
    if Issues(c, org, 101) <= taken {
      CardinalityMonotone(Issues(c, org, 101), taken);
      assert false;
    }
    t :| t in Issues(c, org, 101) && t !in taken;
  }

  // ---------------------------------------------------------------- the global count

  /** The step does not set the global cap. */
  predicate LeavesGlobalCap(steps: seq<Step>) {
    forall i :: 0 <= i < |steps| ==>
      steps[i].Invoke? ==> !steps[i].call.SetGlobalCap? && !steps[i].call.EmergencySetGlobalCap?
  }

  lemma ApplyRaises(start: nat, past: seq<Step>, c: Address) returns (step: Step)
    requires var s := After(Genesis(start), past); s.cfg.admin.Some? && GlobalCount(s, c) < GlobalCap(s)
    ensures step.Invoke? && step.call.ApplyForIssue?
    ensures var s, s' := After(Genesis(start), past), After(Genesis(start), past + [step]);
      s'.cfg == s.cfg && GlobalCount(s', c) == GlobalCount(s, c) + 1
  {
    var s := After(Genesis(start), past);
    AlwaysSound(start, past, c);
    CountsWithinPeakCaps(start, past, c, "");
    var t := FreshIssue(c, "", LiveApps(s, c));
    step := Invoke(ApplyForIssue(t), {c});
    ApplyEffect(s, t);
    hide Exec, Sound, PeakGlobalCap;
    AfterSnoc(Genesis(start), past, step);
  }

  /** Any count from the present one up to the cap in force can be reached by applying alone. */
  lemma {:induction false} RaiseGlobal(start: nat, past: seq<Step>, c: Address, k: nat) returns (more: seq<Step>)
    requires var s := After(Genesis(start), past); s.cfg.admin.Some? && GlobalCount(s, c) <= k <= GlobalCap(s)
    ensures LeavesGlobalCap(more) && GlobalCount(After(Genesis(start), past + more), c) == k
    decreases k - GlobalCount(After(Genesis(start), past), c)
  {
    if GlobalCount(After(Genesis(start), past), c) == k {
      more := [];
      assert past + more == past;
    } else {
      var step := ApplyRaises(start, past, c);
      var rest := RaiseGlobal(start, past + [step], c, k);
      more := [step] + rest;
      assert past + more == past + [step] + rest;
    }
  }

  lemma CapKeptStep(start: nat, past: seq<Step>, step: Step)
    requires LeavesGlobalCap([step])
    ensures GlobalCap(After(Genesis(start), past + [step])) == GlobalCap(After(Genesis(start), past))
  {
    assert [step][0] == step;
    NothingBeforeInitialize(start, past);
    AfterSnoc(Genesis(start), past, step);
  }

  /** Without a call that sets it the cap stays put, and a count at most `v` cannot pass `v` under a cap at most `v`. */
  lemma {:induction false} CannotPass(start: nat, past: seq<Step>, more: seq<Step>, c: Address, v: nat)
    requires var s := After(Genesis(start), past); GlobalCount(s, c) <= v && GlobalCap(s) <= v
    requires LeavesGlobalCap(more)
    ensures var s' := After(Genesis(start), past + more);
      GlobalCount(s', c) <= v && GlobalCap(s') == GlobalCap(After(Genesis(start), past))
  {
    if more == [] {
      assert past + more == past;
    } else {
      var init, step := more[..|more| - 1], more[|more| - 1];
      CannotPass(start, past, init, c, v);
      assert past + more == past + init + [step];
      CapKeptStep(start, past + init, step);
      AfterSnoc(Genesis(start), past + init, step);
      GlobalCountRisesBelowCap(After(Genesis(start), past + init), step, c);
    }
  }

  lemma CanPass(start: nat, past: seq<Step>, c: Address, v: nat) returns (more: seq<Step>)
    requires var s := After(Genesis(start), past); GlobalCount(s, c) > v || GlobalCap(s) > v
    ensures LeavesGlobalCap(more) && GlobalCount(After(Genesis(start), past + more), c) > v
  {
    var s := After(Genesis(start), past);
    if GlobalCount(s, c) > v {
      more := [];
      assert past + more == past;
    } else if s.cfg.admin.Some? {
      more := RaiseGlobal(start, past, c, v + 1);
    } else {
      var init := Invoke(Initialize(c), {c});
      NothingBeforeInitialize(start, past);
      AfterSnoc(Genesis(start), past, init);
      var rest := RaiseGlobal(start, past + [init], c, v + 1);
      more := [init] + rest;
      assert past + more == past + [init] + rest;
    }
  }

  /**
   * When a count can pass `v`, the documented 15 for one: from any reachable state some continuation
   * that leaves the global cap alone takes the contributor's count above `v` if and only if the count
   * is above `v` already or the cap in force is.
   */
  lemma GlobalCountCanPass(start: nat, past: seq<Step>, c: Address, v: nat)
    ensures (exists more :: LeavesGlobalCap(more) && GlobalCount(After(Genesis(start), past + more), c) > v)
      <==> GlobalCount(After(Genesis(start), past), c) > v || GlobalCap(After(Genesis(start), past)) > v
  {
    var s := After(Genesis(start), past);
    if GlobalCount(s, c) > v || GlobalCap(s) > v {
      var more := CanPass(start, past, c, v);
    } else {
      forall more | LeavesGlobalCap(more)
        ensures GlobalCount(After(Genesis(start), past + more), c) <= v
      {
        CannotPass(start, past, more, c, v);
      }
    }
  }

  lemma PeakSnoc(s: State, steps: seq<Step>, step: Step)
    ensures PeakGlobalCap(s, steps + [step]) == Max(PeakGlobalCap(s, steps), GlobalCap(After(s, steps + [step])))
  {
    assert (steps + [step])[..|steps|] == steps;
  }

  lemma {:induction false} PeakKept(start: nat, past: seq<Step>, more: seq<Step>)
    requires LeavesGlobalCap(more)
    ensures PeakGlobalCap(Genesis(start), past + more) == PeakGlobalCap(Genesis(start), past)
    ensures GlobalCap(After(Genesis(start), past + more)) == GlobalCap(After(Genesis(start), past))
  {
    hide After, PeakGlobalCap, PeakOrgCap, GlobalCap, OrgCap, GlobalCount, OrgCount;
    if more == [] {
      assert past + more == past;
    } else {
      var init, step := more[..|more| - 1], more[|more| - 1];
      PeakKept(start, past, init);
      assert past + more == past + init + [step];
      CapKeptStep(start, past + init, step);
      PeakSnoc(Genesis(start), past + init, step);
      CountsWithinPeakCaps(start, past + init, Address(""), "");
    }
  }

  lemma {:induction false} PeakAtLeastDefault(start: nat, steps: seq<Step>)
    ensures PeakGlobalCap(Genesis(start), steps) >= GLOBAL_APP_LIMIT
  {
    if steps != [] {
      PeakAtLeastDefault(start, steps[..|steps| - 1]);
    }
  }

  /** A run whose caps peak at `p` and in which `c`'s count ends at `v`. */
  lemma GlobalWitness(start: nat, c: Address, p: nat, v: nat) returns (steps: seq<Step>)
    requires GLOBAL_APP_LIMIT <= p <= GLOBAL_CAP_MAX && v <= p
    ensures PeakGlobalCap(Genesis(start), steps) == p && GlobalCount(After(Genesis(start), steps), c) == v
  {
    var g, p1 := Genesis(start), [Invoke(Initialize(c), {c})];
    var p2 := p1 + [Invoke(SetGlobalCap(c, p), {c})];
    assert p1[..0] == [] && p2[..1] == p1;
    AfterSnoc(g, [], p1[0]);
    assert [] + [p1[0]] == p1;
    AfterSnoc(g, p1, Invoke(SetGlobalCap(c, p), {c}));
    assert PeakGlobalCap(g, p1[..0]) == GLOBAL_APP_LIMIT == GlobalCap(After(g, p1)) == PeakGlobalCap(g, p1);
    assert GlobalCap(After(g, p2)) == p == PeakGlobalCap(g, p2);
    var more := RaiseGlobal(start, p2, c, v);
    PeakKept(start, p2, more);
    steps := p2 + more;
  }

  /**
   * The exact range of the count: with `p` the largest cap there has been, every `v` up to `p`, and `p` from
   * 15 to 100.
   */
  lemma GlobalCountRange(start: nat, c: Address, p: nat, v: nat)
    ensures
      (exists steps ::
         PeakGlobalCap(Genesis(start), steps) == p && GlobalCount(After(Genesis(start), steps), c) == v)
      <==> GLOBAL_APP_LIMIT <= p <= GLOBAL_CAP_MAX && v <= p
  {
    if GLOBAL_APP_LIMIT <= p <= GLOBAL_CAP_MAX && v <= p {
      var steps := GlobalWitness(start, c, p, v);
    }
    forall steps
      ensures GlobalCount(After(Genesis(start), steps), c) <= PeakGlobalCap(Genesis(start), steps)
      ensures GLOBAL_APP_LIMIT <= PeakGlobalCap(Genesis(start), steps) <= GLOBAL_CAP_MAX
    {
      CountsWithinPeakCaps(start, steps, c, "");
      PeakAtLeastDefault(start, steps);
    }
  }

  // ---------------------------------------------------------------- the organisation count

  predicate LeavesOrgCap(steps: seq<Step>, org: Symbol) {
    forall i :: 0 <= i < |steps| ==>
      !(steps[i].Invoke? && steps[i].call.SetOrgCap? && steps[i].call.org == org)
  }

  /** A maintainer for the organisation, room under the global cap, and a clean slate of applications. */
  lemma Prepare(start: nat, past: seq<Step>, a: Address, org: Symbol, t: Triple) returns (more: seq<Step>)
    requires After(Genesis(start), past).cfg.admin == Some(a)
    ensures LeavesOrgCap(more, org)
    ensures var s, s' := After(Genesis(start), past), After(Genesis(start), past + more);
      && s'.cfg.admin == Some(a) && (a, org) in s'.cfg.maintainers && OrgCap(s', org) == OrgCap(s, org)
      && GlobalCap(s') == 100 && GlobalCount(s', t.who) == 0 && !HasApplied(s', t) && s'.reg == s.reg
  {
    var g := Genesis(start);
    var register, cap := Invoke(RegisterMaintainer(a, a, org), {a}), Invoke(SetGlobalCap(a, 100), {a});
    var wait := Advance(APP_TTL_LEDGERS + 1);
    AfterSnoc(g, past, register);
    AfterSnoc(g, past + [register], cap);
    AlwaysSound(start, past + [register] + [cap], t.who);
    AfterSnoc(g, past + [register] + [cap], wait);
    more := [register, cap, wait];
    assert past + more == past + [register] + [cap] + [wait];
  }

  lemma ApplyAndAssign(start: nat, past: seq<Step>, a: Address, t: Triple) returns (more: seq<Step>)
    requires var s := After(Genesis(start), past);
      && s.cfg.admin.Some? && (a, t.org) in s.cfg.maintainers && GlobalCap(s) == 100 && GlobalCount(s, t.who) == 0
      && !HasApplied(s, t) && !IsAssigned(s, t) && OrgCount(s, t.who, t.org) < OrgCap(s, t.org)
    ensures LeavesOrgCap(more, t.org)
    ensures var s, s' := After(Genesis(start), past), After(Genesis(start), past + more);
      s'.cfg == s.cfg && OrgCount(s', t.who, t.org) == OrgCount(s, t.who, t.org) + 1
  {
    var s, apply, assign := After(Genesis(start), past), Invoke(ApplyForIssue(t), {t.who}),
      Invoke(AssignIssue(a, t), {a});
    AlwaysSound(start, past, t.who);
    ApplyEffect(s, t);
    assert Next(s, apply).reg == s.reg && HasApplied(Next(s, apply), t);
    hide Sound;
    AfterSnoc(Genesis(start), past, apply);
    AfterSnoc(Genesis(start), past + [apply], assign);
    more := [apply, assign];
    assert past + more == past + [apply] + [assign];
  }

  lemma AssignRaises(start: nat, past: seq<Step>, c: Address, org: Symbol) returns (more: seq<Step>)
    requires var s := After(Genesis(start), past); s.cfg.admin.Some? && OrgCount(s, c, org) < OrgCap(s, org)
    ensures LeavesOrgCap(more, org)
    ensures var s, s' := After(Genesis(start), past), After(Genesis(start), past + more);
      && s'.cfg.admin == s.cfg.admin && OrgCap(s', org) == OrgCap(s, org)
      && OrgCount(s', c, org) == OrgCount(s, c, org) + 1
  {
    var s := After(Genesis(start), past);
    CounterEqualsReality(start, past, c, org);
    CountsWithinPeakCaps(start, past, c, org);
    var t := FreshIssue(c, org, AssignedTo(s.reg, c, org));
    var ready := Prepare(start, past, s.cfg.admin.value, org, t);
    var work := ApplyAndAssign(start, past + ready, s.cfg.admin.value, t);
    more := ready + work;
    assert past + more == past + ready + work;
  }

  /** Any organisation count from the present one up to the cap in force can be reached. */
  lemma {:induction false} RaiseOrg(start: nat, past: seq<Step>, c: Address, org: Symbol, k: nat)
    returns (more: seq<Step>)
    requires var s := After(Genesis(start), past); s.cfg.admin.Some? && OrgCount(s, c, org) <= k <= OrgCap(s, org)
    ensures LeavesOrgCap(more, org) && OrgCount(After(Genesis(start), past + more), c, org) == k
    decreases k - OrgCount(After(Genesis(start), past), c, org)
  {
    if OrgCount(After(Genesis(start), past), c, org) == k {
      more := [];
      assert past + more == past;
    } else {
      var round := AssignRaises(start, past, c, org);
      var rest := RaiseOrg(start, past + round, c, org, k);
      more := round + rest;
      assert past + more == past + round + rest;
    }
  }

  lemma OrgCapKeptStep(s: State, step: Step, org: Symbol)
    requires LeavesOrgCap([step], org)
    ensures OrgCap(Next(s, step), org) == OrgCap(s, org)
  {
    assert [step][0] == step;
  }

  lemma {:induction false} OrgCannotPass(start: nat, past: seq<Step>, more: seq<Step>, c: Address, org: Symbol, v: nat)
    requires var s := After(Genesis(start), past); OrgCount(s, c, org) <= v && OrgCap(s, org) <= v
    requires LeavesOrgCap(more, org)
    ensures var s' := After(Genesis(start), past + more);
      OrgCount(s', c, org) <= v && OrgCap(s', org) == OrgCap(After(Genesis(start), past), org)
  {
    if more == [] {
      assert past + more == past;
    } else {
      var init, step := more[..|more| - 1], more[|more| - 1];
      OrgCannotPass(start, past, init, c, org, v);
      assert past + more == past + init + [step];
      AfterSnoc(Genesis(start), past + init, step);
      OrgCapKeptStep(After(Genesis(start), past + init), step, org);
      OrgCountRisesBelowCap(After(Genesis(start), past + init), step, c, org);
    }
  }

  lemma OrgCanPass(start: nat, past: seq<Step>, c: Address, org: Symbol, v: nat) returns (more: seq<Step>)
    requires var s := After(Genesis(start), past); OrgCount(s, c, org) > v || OrgCap(s, org) > v
    ensures LeavesOrgCap(more, org) && OrgCount(After(Genesis(start), past + more), c, org) > v
  {
    var s := After(Genesis(start), past);
    if OrgCount(s, c, org) > v {
      more := [];
      assert past + more == past;
    } else if s.cfg.admin.Some? {
      more := RaiseOrg(start, past, c, org, v + 1);
    } else {
      var init := Invoke(Initialize(c), {c});
      AfterSnoc(Genesis(start), past, init);
      var rest := RaiseOrg(start, past + [init], c, org, v + 1);
      more := [init] + rest;
      assert past + more == past + [init] + rest;
    }
  }

  /** The same for an organisation count, the documented 4 for one, and the organisation's cap. */
  lemma OrgCountCanPass(start: nat, past: seq<Step>, c: Address, org: Symbol, v: nat)
    ensures (exists more :: LeavesOrgCap(more, org) && OrgCount(After(Genesis(start), past + more), c, org) > v)
      <==> OrgCount(After(Genesis(start), past), c, org) > v || OrgCap(After(Genesis(start), past), org) > v
  {
    var s := After(Genesis(start), past);
    if OrgCount(s, c, org) > v || OrgCap(s, org) > v {
      var more := OrgCanPass(start, past, c, org, v);
    } else {
      forall more | LeavesOrgCap(more, org)
        ensures OrgCount(After(Genesis(start), past + more), c, org) <= v
      {
        OrgCannotPass(start, past, more, c, org, v);
      }
    }
  }

  lemma OrgPeakSnoc(s: State, steps: seq<Step>, step: Step, org: Symbol)
    ensures PeakOrgCap(s, steps + [step], org)
      == Max(PeakOrgCap(s, steps, org), OrgCap(Next(After(s, steps), step), org))
  {
    assert (steps + [step])[..|steps|] == steps;
    AfterSnoc(s, steps, step);
  }

  lemma {:induction false} OrgPeakKept(start: nat, past: seq<Step>, more: seq<Step>, org: Symbol)
    requires LeavesOrgCap(more, org)
    ensures PeakOrgCap(Genesis(start), past + more, org) == PeakOrgCap(Genesis(start), past, org)
    ensures OrgCap(After(Genesis(start), past + more), org) == OrgCap(After(Genesis(start), past), org)
  {
    hide After, PeakGlobalCap, PeakOrgCap, GlobalCap, OrgCap, GlobalCount, OrgCount, Next;
    if more == [] {
      assert past + more == past;
    } else {
      var init, step := more[..|more| - 1], more[|more| - 1];
      OrgPeakKept(start, past, init, org);
      assert past + more == past + init + [step];
      AfterSnoc(Genesis(start), past + init, step);
      OrgPeakSnoc(Genesis(start), past + init, step, org);
      OrgCapKeptStep(After(Genesis(start), past + init), step, org);
      CountsWithinPeakCaps(start, past + init, Address(""), org);
    }
  }

  lemma {:induction false} OrgPeakAtLeastDefault(start: nat, steps: seq<Step>, org: Symbol)
    ensures PeakOrgCap(Genesis(start), steps, org) >= ORG_ASSIGNMENT_LIMIT
  {
    if steps != [] {
      OrgPeakAtLeastDefault(start, steps[..|steps| - 1], org);
    }
  }

  lemma OrgWitness(start: nat, c: Address, org: Symbol, p: nat, v: nat) returns (steps: seq<Step>)
    requires ORG_ASSIGNMENT_LIMIT <= p <= ORG_CAP_MAX && v <= p
    ensures PeakOrgCap(Genesis(start), steps, org) == p && OrgCount(After(Genesis(start), steps), c, org) == v
  {
    var g, p1 := Genesis(start), [Invoke(Initialize(c), {c})];
    var p2 := p1 + [Invoke(RegisterMaintainer(c, c, org), {c})];
    var p3 := p2 + [Invoke(SetOrgCap(c, org, p), {c})];
    assert p1[..0] == [] && p2[..1] == p1 && p3[..2] == p2;
    AfterSnoc(g, [], p1[0]);
    assert [] + [p1[0]] == p1;
    AfterSnoc(g, p1, Invoke(RegisterMaintainer(c, c, org), {c}));
    AfterSnoc(g, p2, Invoke(SetOrgCap(c, org, p), {c}));
    assert PeakOrgCap(g, p1[..0], org) == ORG_ASSIGNMENT_LIMIT == OrgCap(After(g, p1), org) == PeakOrgCap(g, p1, org);
    assert OrgCap(After(g, p2), org) == ORG_ASSIGNMENT_LIMIT == PeakOrgCap(g, p2, org);
    assert OrgCap(After(g, p3), org) == p == PeakOrgCap(g, p3, org);
    var more := RaiseOrg(start, p3, c, org, v);
    OrgPeakKept(start, p3, more, org);
    steps := p3 + more;
  }

  /** The exact range of an organisation count: every `v` up to the largest cap `p` it has had, and `p` from 4 to 20. */
  lemma OrgCountRange(start: nat, c: Address, org: Symbol, p: nat, v: nat)
    ensures
      (exists steps ::
         PeakOrgCap(Genesis(start), steps, org) == p && OrgCount(After(Genesis(start), steps), c, org) == v)
      <==> ORG_ASSIGNMENT_LIMIT <= p <= ORG_CAP_MAX && v <= p
  {
    if ORG_ASSIGNMENT_LIMIT <= p <= ORG_CAP_MAX && v <= p {
      var steps := OrgWitness(start, c, org, p, v);
    }
    forall steps
      ensures OrgCount(After(Genesis(start), steps), c, org) <= PeakOrgCap(Genesis(start), steps, org)
      ensures ORG_ASSIGNMENT_LIMIT <= PeakOrgCap(Genesis(start), steps, org) <= ORG_CAP_MAX
    {
      CountsWithinPeakCaps(start, steps, c, org);
      OrgPeakAtLeastDefault(start, steps, org);
    }
  }
}
