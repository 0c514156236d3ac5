/**
 * Expiring applications: what the denormalised global counter means once entries lapse.
 *
 * The counter entry and the application sentinels expire independently and a lapsed application
 * never gives its slot back, so the counter is not the number of live applications. These lemmas
 * say what it is instead, in every reachable state.
 */
module Accounting {
  import opened Prelude
  import opened Contract

  ghost function LiveIn(tmp: Temporary, now: nat, c: Address): set<Triple> {
    set t | t in tmp.apps && t.who == c && HasApp(tmp, now, t)
  }

  ghost function LiveApps(s: State, c: Address): set<Triple> { LiveIn(s.tmp, s.now, c) }

  predicate HasCounter(s: State, c: Address) { CounterLive(s.tmp, s.now, c) }

  /** Contributor `c`'s temporary entries hang together, and no deadline is more than one TTL away. */
  ghost predicate Sound(tmp: Temporary, now: nat, c: Address) {
    && (forall t :: t in tmp.apps && t.who == c && HasApp(tmp, now, t) ==>
          CounterLive(tmp, now, c) && tmp.apps[t] <= tmp.counts[c].liveUntil)
    && (CounterLive(tmp, now, c) ==> 1 <= tmp.counts[c].count)
    && |LiveIn(tmp, now, c)| <= CountOf(tmp, now, c)
    && DeadlinesWithin(tmp, c, now + APP_TTL_LEDGERS)
  }

  ghost predicate DeadlinesWithin(tmp: Temporary, c: Address, bound: nat) {
    && (c in tmp.counts ==> tmp.counts[c].liveUntil <= bound)
    && (forall t :: t in tmp.apps && t.who == c ==> tmp.apps[t] <= bound)
  }

  // ---------------------------------------------------------------- the three operations and the clock

  lemma AdmitSound(tmp: Temporary, now: nat, t: Triple)
    requires Sound(tmp, now, t.who) && !HasApp(tmp, now, t) && CountOf(tmp, now, t.who) < 0xFFFF_FFFF
    ensures var tmp' := Admit(tmp, now, t);
      && Sound(tmp', now, t.who) && LiveIn(tmp', now, t.who) == LiveIn(tmp, now, t.who) + {t}
      && CounterLive(tmp', now, t.who) && CountOf(tmp', now, t.who) == CountOf(tmp, now, t.who) + 1
      && tmp'.apps == tmp.apps[t := now + APP_TTL_LEDGERS]
    ensures !CounterLive(tmp, now, t.who) ==> LiveIn(tmp, now, t.who) == {}
  {
    var tmp' := Admit(tmp, now, t);
    assert tmp'.apps == tmp.apps[t := now + APP_TTL_LEDGERS];
    assert LiveIn(tmp', now, t.who) == LiveIn(tmp, now, t.who) + {t};
  }

  /** Withdraw and assign take a slot back exactly: the saturating subtraction never saturates. */
  lemma TakeSound(tmp: Temporary, now: nat, t: Triple)
    requires Sound(tmp, now, t.who) && HasApp(tmp, now, t)
    ensures var tmp' := Take(tmp, now, t);
      && Sound(tmp', now, t.who) && LiveIn(tmp', now, t.who) == LiveIn(tmp, now, t.who) - {t}
        && t in LiveIn(tmp, now, t.who)
      && CountOf(tmp', now, t.who) == CountOf(tmp, now, t.who) - 1
      && (t.who !in tmp'.counts <==> CountOf(tmp', now, t.who) == 0)
  {
    var tmp' := Take(tmp, now, t);
    assert LiveIn(tmp', now, t.who) == LiveIn(tmp, now, t.who) - {t};
  }

  lemma ProlongSound(tmp: Temporary, now: nat, t: Triple)
    requires Sound(tmp, now, t.who) && HasApp(tmp, now, t)
    ensures var tmp' := Prolong(tmp, now, t);
      && Sound(tmp', now, t.who) && LiveIn(tmp', now, t.who) == LiveIn(tmp, now, t.who)
      && CounterLive(tmp', now, t.who) && CountOf(tmp', now, t.who) == CountOf(tmp, now, t.who)
      && tmp'.apps == tmp.apps[t := now + APP_TTL_LEDGERS]
  {
    assert LiveIn(Prolong(tmp, now, t), now, t.who) == LiveIn(tmp, now, t.who);
  }

  lemma ClockSound(tmp: Temporary, now: nat, now': nat, c: Address)
    requires Sound(tmp, now, c) && now <= now'
    ensures Sound(tmp, now', c) && LiveIn(tmp, now', c) <= LiveIn(tmp, now, c)
    ensures
      if CounterLive(tmp, now', c) then CountOf(tmp, now', c) == CountOf(tmp, now, c)
      else LiveIn(tmp, now', c) == {}
  {
    CardinalityMonotone(LiveIn(tmp, now', c), LiveIn(tmp, now, c));
    if !CounterLive(tmp, now', c) {
      assert LiveIn(tmp, now', c) == {};
    }
  }

  // ---------------------------------------------------------------- one step of the contract

  predicate Admits(s: State, step: Step, c: Address) {
    Succeeds(s, step) && step.call.ApplyForIssue? && step.call.t.who == c
  }

  predicate Consumes(s: State, step: Step, c: Address) {
    Succeeds(s, step) && (step.call.WithdrawApplication? || step.call.AssignIssue?) && step.call.t.who == c
  }

  predicate Extends(s: State, step: Step, c: Address) {
    Succeeds(s, step) && step.call.ExtendApplicationTtl? && step.call.t.who == c
  }

  /** The step acts, successfully, on `c`'s temporary entries. */
  predicate Touches(s: State, step: Step, c: Address) {
    Admits(s, step, c) || Consumes(s, step, c) || Extends(s, step, c)
  }

  /** `c`'s entries are the same in both. */
  ghost predicate Untouched(tmp: Temporary, tmp': Temporary, c: Address) {
    && (c in tmp'.counts <==> c in tmp.counts) && (c in tmp.counts ==> tmp'.counts[c] == tmp.counts[c])
    && (forall t: Triple {:trigger t in tmp'.apps} {:trigger t in tmp.apps} | t.who == c ::
          (t in tmp'.apps <==> t in tmp.apps) && (t in tmp.apps ==> tmp'.apps[t] == tmp.apps[t]))
  }

  lemma UntouchedKeeps(tmp: Temporary, tmp': Temporary, now: nat, c: Address)
    requires Untouched(tmp, tmp', c)
    ensures LiveIn(tmp', now, c) == LiveIn(tmp, now, c)
    ensures CounterLive(tmp', now, c) == CounterLive(tmp, now, c) && CountOf(tmp', now, c) == CountOf(tmp, now, c)
    ensures Sound(tmp, now, c) ==> Sound(tmp', now, c)
  {
    assert LiveIn(tmp', now, c) == LiveIn(tmp, now, c);
  }

  lemma UntouchedByOthers(s: State, step: Step, c: Address)
    requires step.Invoke? && !Touches(s, step, c)
    ensures Untouched(s.tmp, Next(s, step).tmp, c) && Next(s, step).now == s.now
  {
  }

  /** Applications of `c` that were live in `s` and have run out in `s'`. */
  ghost function NewlyLapsed(s: State, s': State, c: Address): set<Triple> {
    set t | t in LiveApps(s, c) && t in s'.tmp.apps && !HasApplied(s', t)
  }

  /** How one step moves the counter against the live applications. */
  ghost predicate Balanced(s: State, step: Step, s': State, c: Address) {
    && (HasCounter(s', c) && HasCounter(s, c) ==>
          && GlobalCount(s', c) == GlobalCount(s, c) + (if Admits(s, step, c) then 1 else 0)
            - (if Consumes(s, step, c) then 1 else 0)
          && GlobalCount(s', c) - |LiveApps(s', c)| == GlobalCount(s, c) - |LiveApps(s, c)| + |NewlyLapsed(s, s', c)|)
    && (HasCounter(s', c) && !HasCounter(s, c) ==> Admits(s, step, c) && GlobalCount(s', c) == 1 == |LiveApps(s', c)|)
    && (!HasCounter(s', c) ==> LiveApps(s', c) == {})
  }

  ghost predicate StepsWell(s: State, step: Step, c: Address) {
    var s' := Next(s, step);
    Sound(s'.tmp, s'.now, c) && Balanced(s, step, s', c)
  }

  lemma AdmitBalanced(s: State, step: Step, c: Address)
    requires Sound(s.tmp, s.now, c) && Admits(s, step, c)
    ensures StepsWell(s, step, c)
  {
    hide Sound, Admit;
    var t := step.call.t;
    AdmitSound(s.tmp, s.now, t);
    assert NewlyLapsed(s, Next(s, step), c) == {};
  }

  lemma ConsumeBalanced(s: State, step: Step, c: Address)
    requires Sound(s.tmp, s.now, c) && Consumes(s, step, c)
    ensures StepsWell(s, step, c)
  {
    var s' := Next(s, step);
    TakeSound(s.tmp, s.now, step.call.t);
    assert s'.tmp == Take(s.tmp, s.now, step.call.t);
    assert NewlyLapsed(s, s', c) == {};
  }

  lemma ExtendBalanced(s: State, step: Step, c: Address)
    requires Sound(s.tmp, s.now, c) && Extends(s, step, c)
    ensures StepsWell(s, step, c)
  {
    ProlongSound(s.tmp, s.now, step.call.t);
    assert NewlyLapsed(s, Next(s, step), c) == {};
  }

  lemma OtherBalanced(s: State, step: Step, c: Address)
    requires Sound(s.tmp, s.now, c) && step.Invoke? && !Touches(s, step, c)
    ensures StepsWell(s, step, c)
  {
    UntouchedByOthers(s, step, c);
    UntouchedKeeps(s.tmp, Next(s, step).tmp, s.now, c);
    assert NewlyLapsed(s, Next(s, step), c) == {};
  }

  lemma WaitSplitsLive(s: State, s': State, c: Address)
    requires s'.tmp == s.tmp && s.now <= s'.now
    ensures |LiveApps(s, c)| == |LiveApps(s', c)| + |NewlyLapsed(s, s', c)|
  {
    CardinalityDisjointUnion(LiveApps(s', c), NewlyLapsed(s, s', c), LiveApps(s, c));
  }

  lemma WaitBalanced(s: State, n: nat, c: Address)
    requires Sound(s.tmp, s.now, c)
    ensures StepsWell(s, Advance(n), c)
  {
    var s' := Next(s, Advance(n));
    WaitSplitsLive(s, s', c);
    assert Sound(s'.tmp, s'.now, c) && (!HasCounter(s', c) ==> LiveApps(s', c) == {}) by {
      ClockSound(s.tmp, s.now, s'.now, c);
    }
  }

  lemma StepAccounting(s: State, step: Step, c: Address)
    requires Sound(s.tmp, s.now, c)
    ensures StepsWell(s, step, c)
  {
    if Admits(s, step, c) {
      AdmitBalanced(s, step, c);
    } else if Consumes(s, step, c) {
      ConsumeBalanced(s, step, c);
    } else if Extends(s, step, c) {
      ExtendBalanced(s, step, c);
    } else if step.Invoke? {
      OtherBalanced(s, step, c);
    } else {
      WaitBalanced(s, step.ledgers, c);
    }
  }

  // ---------------------------------------------------------------- every run

  lemma {:induction false} AlwaysSound(start: nat, steps: seq<Step>, c: Address)
    ensures var s := After(Genesis(start), steps); Sound(s.tmp, s.now, c)
  {
    if steps == [] {
      assert LiveApps(Genesis(start), c) == {};
    } else {
      AlwaysSound(start, steps[..|steps| - 1], c);
      StepAccounting(After(Genesis(start), steps[..|steps| - 1]), steps[|steps| - 1], c);
    }
  }

  /** What happened to c's applications since the present counter entry was created. */
  datatype Tally = Tally(admitted: nat, consumed: nat, lapsed: nat)

  ghost function TallyOf(s0: State, steps: seq<Step>, c: Address): Tally {
    if steps == [] then Tally(0, 0, 0)
    else
      var before := After(s0, steps[..|steps| - 1]);
      var step := steps[|steps| - 1];
      var after := Next(before, step);
      if !HasCounter(after, c) then Tally(0, 0, 0)
      else if !HasCounter(before, c) then Tally(1, 0, 0)
      else
        var t := TallyOf(s0, steps[..|steps| - 1], c);
        Tally(t.admitted + (if Admits(before, step, c) then 1 else 0),
              t.consumed + (if Consumes(before, step, c) then 1 else 0),
              t.lapsed + |NewlyLapsed(before, after, c)|)
  }

  /**
   * Exact accounting. The stored count is the applications admitted minus those withdrawn or
   * assigned since the counter entry was created, and each of the remaining ones is either still
   * live or has lapsed and is still being charged for.
   */
  lemma {:induction false} ExactAccounting(start: nat, steps: seq<Step>, c: Address)
    ensures var s, t := After(Genesis(start), steps), TallyOf(Genesis(start), steps, c);
      && GlobalCount(s, c) == t.admitted - t.consumed
      && GlobalCount(s, c) == |LiveApps(s, c)| + t.lapsed
  {
    if steps == [] {
      assert LiveApps(Genesis(start), c) == {};
    } else {
      var init := steps[..|steps| - 1];
      ExactAccounting(start, init, c);
      AlwaysSound(start, init, c);
      StepAccounting(After(Genesis(start), init), steps[|steps| - 1], c);
    }
  }

  /**
   * The counter outlives the applications it counts, a present counter is at least one, and a
   * contributor never holds more live applications than the counter says.
   */
  lemma CounterOutlivesApplications(start: nat, steps: seq<Step>, t: Triple)
    ensures var s := After(Genesis(start), steps);
      && (HasApplied(s, t) ==> HasCounter(s, t.who) && s.tmp.apps[t] <= s.tmp.counts[t.who].liveUntil)
      && (HasCounter(s, t.who) ==> GlobalCount(s, t.who) >= 1)
      && |LiveApps(s, t.who)| <= GlobalCount(s, t.who)
  {
    AlwaysSound(start, steps, t.who);
  }

  /** Withdrawing or assigning moves the counter by exactly one and deletes it only when nothing live is left. */
  lemma ConsumeIsExact(start: nat, steps: seq<Step>, step: Step)
    requires step.Invoke? && (step.call.WithdrawApplication? || step.call.AssignIssue?)
    requires Succeeds(After(Genesis(start), steps), step)
    ensures var s, c := After(Genesis(start), steps), step.call.t.who;
      var s' := Next(s, step);
      && GlobalCount(s, c) >= 1 && GlobalCount(s', c) == GlobalCount(s, c) - 1
      && LiveApps(s', c) == LiveApps(s, c) - {step.call.t}
      && (c !in s'.tmp.counts ==> LiveApps(s', c) == {})
  {
    var s, t := After(Genesis(start), steps), step.call.t;
    AlwaysSound(start, steps, t.who);
    TakeSound(s.tmp, s.now, t);
  }

  /**
   * The doc comment's reading of the counter, "pending applications", is right exactly when no
   * admitted application has lapsed since the counter was created.
   */
  lemma CountIsLiveIffNoneLapsed(start: nat, steps: seq<Step>, c: Address)
    ensures var s := After(Genesis(start), steps);
      GlobalCount(s, c) == |LiveApps(s, c)| <==> TallyOf(Genesis(start), steps, c).lapsed == 0
  {
    ExactAccounting(start, steps, c);
  }

  /** One more application on a sound contributor. */
  lemma ApplyEffect(s: State, t: Triple)
    requires s.cfg.admin.Some? && GlobalCount(s, t.who) < GlobalCap(s) && !HasApplied(s, t)
      && Sound(s.tmp, s.now, t.who)
    ensures var s' := Next(s, Invoke(ApplyForIssue(t), {t.who}));
      && s'.now == s.now && s'.cfg == s.cfg && s'.tmp.apps == s.tmp.apps[t := s.now + APP_TTL_LEDGERS]
      && t.who in s'.tmp.counts
      && s'.tmp.counts[t.who] == Counter(GlobalCount(s, t.who) + 1, s.now + APP_TTL_LEDGERS)
  {
  }

  /** The state after one more application and a wait of `n` ledgers. */
  lemma ApplyThenWait(past: seq<Step>, t: Triple, n: nat)
    requires var s := After(Genesis(0), past);
      s.cfg.admin.Some? && GlobalCount(s, t.who) < GlobalCap(s) && !HasApplied(s, t)
    ensures var s, s' := After(Genesis(0), past),
      After(Genesis(0), past + [Invoke(ApplyForIssue(t), {t.who})] + [Advance(n)]);
      && s'.now == s.now + n && s'.cfg == s.cfg
      && s'.tmp.apps == s.tmp.apps[t := s.now + APP_TTL_LEDGERS]
      && t.who in s'.tmp.counts
      && s'.tmp.counts[t.who] == Counter(GlobalCount(s, t.who) + 1, s.now + APP_TTL_LEDGERS)
  {
    var s, apply := After(Genesis(0), past), Invoke(ApplyForIssue(t), {t.who});
    AlwaysSound(0, past, t.who);
    ApplyEffect(s, t);
    hide Exec, Sound, GlobalCount, HasApplied, GlobalCap;
    AfterSnoc(Genesis(0), past, apply);
    AfterSnoc(Genesis(0), past + [apply], Advance(n));
  }

  /** Two applications ten thousand ledgers apart, and a wait of `n` ledgers. */
  lemma TwoApplications(c: Address, t1: Triple, t2: Triple, n: nat) returns (steps: seq<Step>)
    requires t1.who == c && t2.who == c && t1 != t2
    ensures var s := After(Genesis(0), steps);
      && s.now == 10000 + n && s.cfg.admin.Some? && s.tmp.apps == map[t1 := 17280, t2 := 27280]
      && c in s.tmp.counts && s.tmp.counts[c] == Counter(2, 27280)
  {
    var p1 := [] + [Invoke(Initialize(c), {c})];
    var p2 := p1 + [Invoke(ApplyForIssue(t1), {c})] + [Advance(10000)];
    steps := p2 + [Invoke(ApplyForIssue(t2), {c})] + [Advance(n)];
    AfterSnoc(Genesis(0), [], Invoke(Initialize(c), {c}));
    ApplyThenWait(p1, t1, 10000);
    ApplyThenWait(p2, t2, n);
  }

  /** It can be wrong: of two applications the older one runs out, and the count stays at two. */
  lemma LapsedApplicationStaysCharged(c: Address, t1: Triple, t2: Triple)
    requires t1.who == c && t2.who == c && t1 != t2
    ensures exists steps :: var s := After(Genesis(0), steps);
      GlobalCount(s, c) == 2 && LiveApps(s, c) == {t2}
  {
    var steps := TwoApplications(c, t1, t2, 10000);
    assert LiveApps(After(Genesis(0), steps), c) == {t2};
  }

  /** The state after withdrawing one of several applications and a wait of `n` ledgers. */
  lemma WithdrawThenWait(past: seq<Step>, t: Triple, n: nat)
    requires var s := After(Genesis(0), past);
      s.cfg.admin.Some? && HasApplied(s, t) && GlobalCount(s, t.who) > 1
    ensures var s, s' := After(Genesis(0), past),
      After(Genesis(0), past + [Invoke(WithdrawApplication(t), {t.who})] + [Advance(n)]);
      && s'.now == s.now + n && s'.tmp.apps == s.tmp.apps - {t} && t.who in s'.tmp.counts
      && s'.tmp.counts[t.who] == Counter(GlobalCount(s, t.who) - 1, s.tmp.counts[t.who].liveUntil)
  {
    AfterSnoc(Genesis(0), past, Invoke(WithdrawApplication(t), {t.who}));
    AfterSnoc(Genesis(0), past + [Invoke(WithdrawApplication(t), {t.who})], Advance(n));
  }

  /** And the count can be positive with no application left at all: apply, wait, apply again, withdraw that, wait. */
  lemma CountWithoutApplications(c: Address, t1: Triple, t2: Triple)
    requires t1.who == c && t2.who == c && t1 != t2
    ensures exists steps :: var s := After(Genesis(0), steps);
      GlobalCount(s, c) == 1 && LiveApps(s, c) == {}
  {
    var two := TwoApplications(c, t1, t2, 0);
    WithdrawThenWait(two, t2, 10000);
    var steps := two + [Invoke(WithdrawApplication(t2), {c})] + [Advance(10000)];
    assert LiveApps(After(Genesis(0), steps), c) == {};
  }

  // ---------------------------------------------------------------- recovery and keep-alive

  lemma Prefixes(steps: seq<Step>)
    requires steps != []
    ensures var init := steps[..|steps| - 1];
      forall i {:trigger init[..i]} :: 0 <= i <= |init| ==> steps[..i] == init[..i]
  {
    var init := steps[..|steps| - 1];
    forall i | 0 <= i <= |init|
      ensures steps[..i] == init[..i]
    {
      assert forall j | 0 <= j < i :: steps[..i][j] == init[..i][j];
    }
  }

  /** No successful apply or extend for `c` anywhere in the run. */
  ghost predicate Quiet(s: State, steps: seq<Step>, c: Address) {
    forall i :: 0 <= i < |steps| ==>
      !Admits(After(s, steps[..i]), steps[i], c) && !Extends(After(s, steps[..i]), steps[i], c)
  }

  lemma QuietStep(s: State, step: Step, c: Address, bound: nat)
    requires DeadlinesWithin(s.tmp, c, bound) && !Admits(s, step, c) && !Extends(s, step, c)
    ensures DeadlinesWithin(Next(s, step).tmp, c, bound)
  {
    if step.Invoke? && !Touches(s, step, c) {
      UntouchedByOthers(s, step, c);
    }
  }

  lemma {:induction false} QuietKeepsBound(s: State, steps: seq<Step>, c: Address, bound: nat)
    requires DeadlinesWithin(s.tmp, c, bound) && Quiet(s, steps, c)
    ensures DeadlinesWithin(After(s, steps).tmp, c, bound)
  {
    if steps != [] {
      var init := steps[..|steps| - 1];
      Prefixes(steps);
      QuietKeepsBound(s, init, c, bound);
      QuietStep(After(s, init), steps[|steps| - 1], c, bound);
    }
  }

  /** Recovery: one TTL without a new application or extension frees every slot. */
  lemma Recovery(start: nat, past: seq<Step>, quiet: seq<Step>, t: Triple)
    requires Quiet(After(Genesis(start), past), quiet, t.who)
    requires After(Genesis(start), past + quiet).now > After(Genesis(start), past).now + APP_TTL_LEDGERS
    ensures var s := After(Genesis(start), past + quiet);
      GlobalCount(s, t.who) == 0 && !HasApplied(s, t) && LiveApps(s, t.who) == {}
  {
    var s := After(Genesis(start), past);
    AlwaysSound(start, past, t.who);
    AfterConcat(Genesis(start), past, quiet);
    QuietKeepsBound(s, quiet, t.who, s.now + APP_TTL_LEDGERS);
    assert LiveApps(After(s, quiet), t.who) == {};
  }

  predicate ExtendsThis(step: Step, t: Triple) { step.Invoke? && step.call == ExtendApplicationTtl(t) }

  /** The ledger of the latest extension of `t` in the run, or `last` if there is none. */
  ghost function LastExtension(s: State, steps: seq<Step>, t: Triple, last: nat): nat {
    if steps == [] then last
    else
      var init, step := steps[..|steps| - 1], steps[|steps| - 1];
      if ExtendsThis(step, t) then After(s, init).now else LastExtension(s, init, t, last)
  }

  /** `t` is never withdrawn or assigned, and no ledger is more than one TTL after the latest extension. */
  ghost predicate KeptAlive(s: State, steps: seq<Step>, t: Triple, last: nat) {
    && (forall i :: 0 <= i < |steps| ==>
          !(Consumes(After(s, steps[..i]), steps[i], t.who) && steps[i].call.t == t))
    && (forall i :: 0 <= i <= |steps| ==>
          After(s, steps[..i]).now <= LastExtension(s, steps[..i], t, last) + APP_TTL_LEDGERS)
  }

  /** A call that does not consume `t` never brings its deadline forward. */
  lemma DeadlineHolds(s: State, step: Step, t: Triple)
    requires step.Invoke? && HasApplied(s, t) && Sound(s.tmp, s.now, t.who)
    requires !(Consumes(s, step, t.who) && step.call.t == t)
    ensures var s' := Next(s, step);
      && s'.now == s.now && t in s'.tmp.apps
      && s'.tmp.apps[t] >= (if ExtendsThis(step, t) then s.now + APP_TTL_LEDGERS else s.tmp.apps[t])
  {
    if !Touches(s, step, t.who) {
      UntouchedByOthers(s, step, t.who);
    }
  }

  lemma CallsLapseNothing(s: State, step: Step, c: Address)
    requires Sound(s.tmp, s.now, c) && step.Invoke?
    ensures NewlyLapsed(s, Next(s, step), c) == {}
  {
    forall t | t in LiveApps(s, c)
      ensures t !in NewlyLapsed(s, Next(s, step), c)
    {
      if !(Consumes(s, step, c) && step.call.t == t) {
        DeadlineHolds(s, step, t);
      }
    }
  }

  /** A counter that charges for more than what is live outlasts every call. */
  lemma CallsKeepCounter(s: State, step: Step, c: Address)
    requires Sound(s.tmp, s.now, c) && step.Invoke? && GlobalCount(s, c) > |LiveApps(s, c)|
    ensures HasCounter(Next(s, step), c)
  {
    hide Sound, Admit, Take, Prolong;
    if Admits(s, step, c) {
      AdmitSound(s.tmp, s.now, step.call.t);
    } else if Consumes(s, step, c) {
      TakeSound(s.tmp, s.now, step.call.t);
      assert step.call.t in LiveApps(s, c);
    } else if Extends(s, step, c) {
      ProlongSound(s.tmp, s.now, step.call.t);
    } else {
      UntouchedByOthers(s, step, c);
      UntouchedKeeps(s.tmp, Next(s, step).tmp, s.now, c);
    }
  }

  /** Some application of `c` runs out in the next `n` ledgers while the counter does not. */
  ghost predicate OutlastsAnApplication(s: State, n: nat, c: Address) {
    exists t :: t in LiveApps(s, c) && c in s.tmp.counts && s.tmp.apps[t] < s.now + n <= s.tmp.counts[c].liveUntil
  }

  lemma WaitLapses(s: State, n: nat, c: Address)
    requires Sound(s.tmp, s.now, c) && HasCounter(s, c)
    ensures OutlastsAnApplication(s, n, c) <==>
      HasCounter(Next(s, Advance(n)), c) && NewlyLapsed(s, Next(s, Advance(n)), c) != {}
  {
    var s' := Next(s, Advance(n));
    if HasCounter(s', c) && NewlyLapsed(s, s', c) != {} {
      var t :| t in NewlyLapsed(s, s', c);
      assert t in LiveApps(s, c) && s.tmp.apps[t] < s.now + n;
    }
    if OutlastsAnApplication(s, n, c) {
      var t :| t in LiveApps(s, c) && s.tmp.apps[t] < s.now + n <= s.tmp.counts[c].liveUntil;
      assert t in NewlyLapsed(s, s', c);
    }
  }

  /**
   * When the count stops being the number of live applications: from a reachable state where it is
   * that number, a step breaks the equality if and only if ledgers pass so that some live
   * application's deadline is behind them and the counter's is not.
   */
  lemma CountGoesWrongIff(start: nat, past: seq<Step>, step: Step, c: Address)
    requires var s := After(Genesis(start), past); GlobalCount(s, c) == |LiveApps(s, c)|
    ensures var s := After(Genesis(start), past);
      GlobalCount(Next(s, step), c) != |LiveApps(Next(s, step), c)|
      <==> step.Advance? && OutlastsAnApplication(s, step.ledgers, c)
  {
    var s := After(Genesis(start), past);
    AlwaysSound(start, past, c);
    StepAccounting(s, step, c);
    if step.Invoke? {
      CallsLapseNothing(s, step, c);
    } else if HasCounter(s, c) {
      WaitLapses(s, step.ledgers, c);
    } else {
      assert LiveApps(s, c) == {};
    }
  }

  /**
   * When the count comes right again: from a reachable state where it is not the number of live
   * applications, a step makes it so if and only if ledgers pass beyond the counter's deadline.
   */
  lemma CountComesRightIff(start: nat, past: seq<Step>, step: Step, c: Address)
    requires var s := After(Genesis(start), past); GlobalCount(s, c) != |LiveApps(s, c)|
    ensures var s := After(Genesis(start), past);
      && HasCounter(s, c)
      && (GlobalCount(Next(s, step), c) == |LiveApps(Next(s, step), c)|
          <==> step.Advance? && s.tmp.counts[c].liveUntil < s.now + step.ledgers)
  {
    var s := After(Genesis(start), past);
    AlwaysSound(start, past, c);
    assert !HasCounter(s, c) ==> LiveApps(s, c) == {};
    StepAccounting(s, step, c);
    if step.Invoke? {
      CallsLapseNothing(s, step, c);
      CallsKeepCounter(s, step, c);
    }
  }

  lemma {:induction false} KeptAliveInvariant(s: State, steps: seq<Step>, t: Triple, last: nat)
    requires Sound(s.tmp, s.now, t.who) && HasApplied(s, t) && last + APP_TTL_LEDGERS <= s.tmp.apps[t]
      && KeptAlive(s, steps, t, last)
    ensures var s' := After(s, steps);
      && Sound(s'.tmp, s'.now, t.who) && HasApplied(s', t)
      && LastExtension(s, steps, t, last) + APP_TTL_LEDGERS <= s'.tmp.apps[t]
  {
    if steps != [] {
      var init, step := steps[..|steps| - 1], steps[|steps| - 1];
      Prefixes(steps);
      assert steps[..|steps|] == steps;
      KeptAliveInvariant(s, init, t, last);
      var p := After(s, init);
      StepAccounting(p, step, t.who);
      if step.Invoke? {
        DeadlineHolds(p, step, t);
      }
    }
  }

  lemma JustApplied(s: State, apply: Step)
    requires Succeeds(s, apply) && apply.call.ApplyForIssue? && Sound(s.tmp, s.now, apply.call.t.who)
    ensures var s', t := Next(s, apply), apply.call.t;
      && s'.now == s.now && Sound(s'.tmp, s'.now, t.who) && HasApplied(s', t)
      && s'.tmp.apps[t] == s.now + APP_TTL_LEDGERS
  {
    hide Sound, Admit;
    AdmitSound(s.tmp, s.now, apply.call.t);
  }

  /**
   * Keep-alive: from a successful application on, extending at gaps of at most one TTL keeps the
   * application live, its counter positive, until it is withdrawn or assigned.
   */
  lemma KeepAlive(start: nat, past: seq<Step>, apply: Step, later: seq<Step>)
    requires apply.Invoke? && apply.call.ApplyForIssue? && Succeeds(After(Genesis(start), past), apply)
    requires var s := After(Genesis(start), past + [apply]); KeptAlive(s, later, apply.call.t, s.now)
    ensures var s := After(Genesis(start), past + [apply] + later);
      HasApplied(s, apply.call.t) && GlobalCount(s, apply.call.t.who) >= 1
  {
    var t, p, s := apply.call.t, After(Genesis(start), past), After(Genesis(start), past + [apply]);
    AlwaysSound(start, past, t.who);
    AfterSnoc(Genesis(start), past, apply);
    JustApplied(p, apply);
    hide Next, Succeeds, KeptAlive;
    KeptAliveInvariant(s, later, t, s.now);
    AfterConcat(Genesis(start), past + [apply], later);
  }
}
