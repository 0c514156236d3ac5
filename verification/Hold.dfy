/**
 * Who can keep a contributor's slots charged. Extending needs no signature, so as long as one
 * application is live anybody can keep the whole count, lapsed slots included, for as long as they
 * like; once none is live, only the contributor can.
 */
module Hold {
  import opened Prelude
  import opened Contract
  import opened Accounting

  /** Only ledgers passing and extensions that nobody signed. */
  ghost predicate Unsigned(run: seq<Step>) {
    forall i :: 0 <= i < |run| ==> run[i].Advance? || (run[i].call.ExtendApplicationTtl? && run[i].signers == {})
  }

  /** The contributor signs nothing in the run. */
  ghost predicate NotSignedBy(run: seq<Step>, c: Address) {
    forall i :: 0 <= i < |run| ==> run[i].Invoke? ==> c !in run[i].signers
  }

  /** `n` ledgers on, `t` is live, the count is the same, and nothing of `t`'s contributor has come alive. */
  ghost predicate Held(s: State, s': State, t: Triple, n: nat) {
    && s'.now == s.now + n && HasApplied(s', t)
    && GlobalCount(s', t.who) == GlobalCount(s, t.who) && LiveApps(s', t.who) <= LiveApps(s, t.who)
  }

  /** An unsigned extension followed by a wait of at most one TTL. */
  lemma ExtendAndWait(s: State, t: Triple, n: nat)
    requires Sound(s.tmp, s.now, t.who) && HasApplied(s, t) && n <= APP_TTL_LEDGERS
    ensures Held(s, Next(Next(s, Invoke(ExtendApplicationTtl(t), {})), Advance(n)), t, n)
  {
    var s1 := Next(s, Invoke(ExtendApplicationTtl(t), {}));
    ProlongSound(s.tmp, s.now, t);
    assert s1.tmp == Prolong(s.tmp, s.now, t) && s1.now == s.now;
    assert HasApp(s1.tmp, s1.now + n, t);
    ClockSound(s1.tmp, s1.now, s1.now + n, t.who);
  }

  /** From any reachable state with `t` live, anybody can hold `t`'s contributor's count for `n` ledgers. */
  lemma {:induction false} AnyoneCanHold(start: nat, past: seq<Step>, t: Triple, n: nat) returns (run: seq<Step>)
    requires HasApplied(After(Genesis(start), past), t)
    ensures Unsigned(run) && Held(After(Genesis(start), past), After(Genesis(start), past + run), t, n)
    decreases n
  {
    var rest := [];
    if n > APP_TTL_LEDGERS {
      rest := AnyoneCanHold(start, past, t, n - APP_TTL_LEDGERS);
    } else {
      assert past + rest == past;
    }
    var extend, wait := Invoke(ExtendApplicationTtl(t), {}), Advance(Min(n, APP_TTL_LEDGERS));
    AlwaysSound(start, past + rest, t.who);
    ExtendAndWait(After(Genesis(start), past + rest), t, wait.ledgers);
    AfterSnoc(Genesis(start), past + rest, extend);
    AfterSnoc(Genesis(start), past + rest + [extend], wait);
    run := rest + [extend] + [wait];
    assert past + run == past + rest + [extend] + [wait];
  }

  /** Without the contributor's signature nothing lapsed comes alive, so there is nothing to extend. */
  lemma NothingToExtend(s: State, step: Step, c: Address)
    requires LiveApps(s, c) == {} && (step.Invoke? ==> c !in step.signers)
    ensures LiveApps(Next(s, step), c) == {} && !Admits(s, step, c) && !Extends(s, step, c)
  {
    assert forall t :: HasApplied(s, t) && t.who == c ==> t in LiveApps(s, c);
    if step.Invoke? {
      UntouchedByOthers(s, step, c);
      UntouchedKeeps(s.tmp, Next(s, step).tmp, s.now, c);
    } else {
      assert LiveApps(Next(s, step), c) <= LiveApps(s, c);
    }
  }

  lemma {:induction false} OnlyTheContributor(s: State, run: seq<Step>, c: Address)
    requires LiveApps(s, c) == {} && NotSignedBy(run, c)
    ensures LiveApps(After(s, run), c) == {} && Quiet(s, run, c)
  {
    hide LiveApps, Admits, Extends, Next;
    if run != [] {
      var init, step := run[..|run| - 1], run[|run| - 1];
      Prefixes(run);
      assert run[..|init|] == init;
      OnlyTheContributor(s, init, c);
      NothingToExtend(After(s, init), step, c);
    }
  }

  /** Without `c`'s signature the count can be what it is now, `n` ledgers on. */
  ghost predicate CanBeHeld(s: State, c: Address, n: nat) {
    exists run :: NotSignedBy(run, c) && After(s, run).now == s.now + n
      && GlobalCount(After(s, run), c) == GlobalCount(s, c)
  }

  /**
   * From any reachable state with a positive count, others can keep that count for as long as they
   * like without the contributor if and only if some application of the contributor is live.
   */
  lemma HeldForeverIff(start: nat, past: seq<Step>, c: Address)
    requires GlobalCount(After(Genesis(start), past), c) > 0
    ensures var s := After(Genesis(start), past);
      (forall n :: CanBeHeld(s, c, n)) <==> LiveApps(s, c) != {}
  {
    var s := After(Genesis(start), past);
    if LiveApps(s, c) != {} {
      var t :| t in LiveApps(s, c);
      forall n: nat
        ensures CanBeHeld(s, c, n)
      {
        var run := AnyoneCanHold(start, past, t, n);
        AfterConcat(Genesis(start), past, run);
      }
    } else if CanBeHeld(s, c, APP_TTL_LEDGERS + 1) {
      var run :| NotSignedBy(run, c) && After(s, run).now == s.now + APP_TTL_LEDGERS + 1
        && GlobalCount(After(s, run), c) == GlobalCount(s, c);
      OnlyTheContributor(s, run, c);
      AfterConcat(Genesis(start), past, run);
      Recovery(start, past, run, Triple(c, "", 0));
      assert false;
    }
  }
}
