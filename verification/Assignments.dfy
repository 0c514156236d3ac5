/** The persistent side: organisation counters against the assignment sentinels they summarise. */
module Assignments {
  import opened Prelude
  import opened Contract

  ghost function AssignedTo(reg: Registry, c: Address, org: Symbol): set<Triple> {
    set t | t in reg.assignments && t.who == c && t.org == org
  }

  /** The counter is the number of sentinels, and is stored only while it is positive. */
  ghost predicate Tallied(reg: Registry, c: Address, org: Symbol) {
    && OrgCountOf(reg, c, org) == |AssignedTo(reg, c, org)|
    && ((c, org) in reg.orgCounts ==> 1 <= reg.orgCounts[(c, org)])
  }

  lemma BookTallied(reg: Registry, t: Triple, c: Address, org: Symbol)
    requires Tallied(reg, c, org) && t !in reg.assignments && OrgCountOf(reg, t.who, t.org) < 0xFFFF_FFFF
    ensures Tallied(Book(reg, t), c, org)
  {
    var mine := t.who == c && t.org == org;
    assert AssignedTo(Book(reg, t), c, org) == if mine then AssignedTo(reg, c, org) + {t} else AssignedTo(reg, c, org);
  }

  lemma ReleaseTallied(reg: Registry, t: Triple, c: Address, org: Symbol)
    requires Tallied(reg, c, org) && t in reg.assignments
    ensures Tallied(Release(reg, t), c, org)
  {
    assert AssignedTo(Release(reg, t), c, org) == AssignedTo(reg, c, org) - {t};
    if t.who == c && t.org == org {
      assert t in AssignedTo(reg, c, org);
    }
  }

  lemma StepTallied(s: State, step: Step, c: Address, org: Symbol)
    requires Tallied(s.reg, c, org)
    ensures Tallied(Next(s, step).reg, c, org)
  {
    if Succeeds(s, step) {
      match step.call
      case AssignIssue(m, t) => BookTallied(s.reg, t, c, org);
      case CompleteAssignment(m, t) => ReleaseTallied(s.reg, t, c, org);
      case RevokeAssignment(m, t) => ReleaseTallied(s.reg, t, c, org);
      case _ =>
    }
  }

  /** Over all runs: the organisation counter equals the number of assignment sentinels. */
  lemma {:induction false} CounterEqualsReality(start: nat, steps: seq<Step>, c: Address, org: Symbol)
    ensures Tallied(After(Genesis(start), steps).reg, c, org)
  {
    if steps == [] {
      assert AssignedTo(Genesis(start).reg, c, org) == {};
    } else {
      CounterEqualsReality(start, steps[..|steps| - 1], c, org);
      StepTallied(After(Genesis(start), steps[..|steps| - 1]), steps[|steps| - 1], c, org);
    }
  }

  lemma SentinelImpliesCounter(start: nat, steps: seq<Step>, t: Triple)
    requires IsAssigned(After(Genesis(start), steps), t)
    ensures OrgCount(After(Genesis(start), steps), t.who, t.org) >= 1
  {
    CounterEqualsReality(start, steps, t.who, t.org);
    assert t in AssignedTo(After(Genesis(start), steps).reg, t.who, t.org);
  }

  /** Where an assignment has its counter, the debug checks refuse nothing more. */
  lemma RefusalIgnoresBuild(s: State, call: Call, signers: set<Address>, debug: bool)
    requires (call.CompleteAssignment? || call.RevokeAssignment?) && IsAssigned(s, call.t) ==>
      OrgCount(s, call.t.who, call.t.org) >= 1
    ensures Refusal(s, call, signers, debug) == Refusal(s, call, signers, false) != Some(CounterInconsistency)
  {
  }

  /** No reachable call reports `CounterInconsistency`, and debug assertions change no outcome. */
  lemma NoInconsistency(start: nat, steps: seq<Step>, call: Call, signers: set<Address>, debug: bool)
    ensures var s := After(Genesis(start), steps);
      Exec(s, call, signers, debug) != Panic(CounterInconsistency)
        && Exec(s, call, signers, debug) == Exec(s, call, signers, false)
  {
    var s := After(Genesis(start), steps);
    if (call.CompleteAssignment? || call.RevokeAssignment?) && IsAssigned(s, call.t) {
      SentinelImpliesCounter(start, steps, call.t);
    }
    RefusalIgnoresBuild(s, call, signers, debug);
    hide Refusal, ConfigAfter, TemporaryAfter, RegistryAfter, LogAfter;
  }

  function AfterIn(s: State, steps: seq<Step>, debug: bool): State {
    if steps == [] then s else NextIn(AfterIn(s, steps[..|steps| - 1], debug), steps[|steps| - 1], debug)
  }

  /** A debug build and a release build reach the same state on every run. */
  lemma {:induction false} BuildsAgree(start: nat, steps: seq<Step>)
    ensures AfterIn(Genesis(start), steps, true) == After(Genesis(start), steps)
  {
    if steps != [] {
      var init, step := steps[..|steps| - 1], steps[|steps| - 1];
      BuildsAgree(start, init);
      if step.Invoke? {
        NoInconsistency(start, init, step.call, step.signers, true);
      }
    }
  }

  /** Completing and revoking fail alike, and succeed into states that differ in the emitted event only. */
  lemma CompleteMirrorsRevoke(start: nat, steps: seq<Step>, signers: set<Address>, m: Address, t: Triple)
    ensures var s := After(Genesis(start), steps);
      var done, undone := Exec(s, CompleteAssignment(m, t), signers, false),
        Exec(s, RevokeAssignment(m, t), signers, false);
      if done.Panic? then undone == done
      else
        && undone.Done? && done.post.log == s.log + [Completed(m, t)]
        && undone.post == done.post.(log := s.log + [Revoked(m, t)])
  {
    if IsAssigned(After(Genesis(start), steps), t) {
      SentinelImpliesCounter(start, steps, t);
    }
  }

  /** What `check_consistency` looks for: counter zero, yet some probed issue is assigned. */
  predicate Orphaned(s: State, pair: (Address, Symbol), issues: seq<u32>) {
    OrgCount(s, pair.0, pair.1) == 0 &&
    exists i :: 0 <= i < |issues| && IsAssigned(s, Triple(pair.0, pair.1, issues[i]))
  }

  function OrphanedPairs(s: State, pairs: seq<(Address, Symbol)>, issues: seq<u32>): seq<(Address, Symbol)> {
    if pairs == [] then []
    else
      OrphanedPairs(s, pairs[..|pairs| - 1], issues) +
      (if Orphaned(s, pairs[|pairs| - 1], issues) then [pairs[|pairs| - 1]] else [])
  }

  /** The pair's counter is absent or zero, and one of the probed issues has its sentinel. */
  ghost predicate HasOrphan(reg: Registry, pair: (Address, Symbol), issues: seq<u32>) {
    && (pair in reg.orgCounts ==> reg.orgCounts[pair] == 0)
    && exists issue :: issue in issues && Triple(pair.0, pair.1, issue) in reg.assignments
  }

  /** Position `k` of the report comes from position `at[k]` of the probe. */
  ghost predicate Picks(at: seq<nat>, pairs: seq<(Address, Symbol)>, report: seq<(Address, Symbol)>) {
    && |at| == |report| && (forall k :: 0 <= k < |at| ==> at[k] < |pairs| && report[k] == pairs[at[k]])
    && forall j, k :: 0 <= j < k < |at| ==> at[j] < at[k]
  }

  /** Which positions of the probe are reported: those with an orphan. */
  ghost predicate PicksOrphans(at: seq<nat>, reg: Registry, pairs: seq<(Address, Symbol)>, issues: seq<u32>) {
    forall i: nat :: i < |pairs| ==> (i in at <==> HasOrphan(reg, pairs[i], issues))
  }

  lemma OrphanedMeans(s: State, pair: (Address, Symbol), issues: seq<u32>)
    ensures Orphaned(s, pair, issues) <==> HasOrphan(s.reg, pair, issues)
  {
    if HasOrphan(s.reg, pair, issues) {
      var issue :| issue in issues && Triple(pair.0, pair.1, issue) in s.reg.assignments;
      var i :| 0 <= i < |issues| && issues[i] == issue;
      assert IsAssigned(s, Triple(pair.0, pair.1, issues[i]));
    }
  }

  lemma PickOneMore(at: seq<nat>, pairs: seq<(Address, Symbol)>, report: seq<(Address, Symbol)>,
          last: (Address, Symbol))
    requires Picks(at, pairs, report)
    ensures Picks(at, pairs + [last], report) && Picks(at + [|pairs|], pairs + [last], report + [last])
  {
  }

  lemma PositionsOneMore(at: seq<nat>, reg: Registry, pairs: seq<(Address, Symbol)>, issues: seq<u32>,
          last: (Address, Symbol))
    requires PicksOrphans(at, reg, pairs, issues) && forall k :: 0 <= k < |at| ==> at[k] < |pairs|
    ensures PicksOrphans(if HasOrphan(reg, last, issues) then at + [|pairs|] else at, reg, pairs + [last], issues)
  {
    hide HasOrphan;
    forall i: nat | i < |pairs + [last]|
      ensures i in (if HasOrphan(reg, last, issues) then at + [|pairs|] else at)
        <==> HasOrphan(reg, (pairs + [last])[i], issues)
    {
      assert i in at + [|pairs|] <==> i in at || i == |pairs|;
    }
  }

  /**
   * On any state, corrupt ones included, the report lists the probed positions that have an orphan,
   * each once, in the order of the probe.
   */
  lemma {:induction false} ReportsOrphansInOrder(s: State, pairs: seq<(Address, Symbol)>, issues: seq<u32>)
    returns (at: seq<nat>)
    ensures Picks(at, pairs, OrphanedPairs(s, pairs, issues)) && PicksOrphans(at, s.reg, pairs, issues)
  {
    hide Orphaned, HasOrphan;
    at := [];
    if pairs != [] {
      var init, last := pairs[..|pairs| - 1], pairs[|pairs| - 1];
      var before := ReportsOrphansInOrder(s, init, issues);
      assert pairs == init + [last];
      OrphanedMeans(s, last, issues);
      PickOneMore(before, init, OrphanedPairs(s, init, issues), last);
      PositionsOneMore(before, s.reg, init, issues, last);
      at := if HasOrphan(s.reg, last, issues) then before + [|init|] else before;
      assert !HasOrphan(s.reg, last, issues) ==> OrphanedPairs(s, pairs, issues) == OrphanedPairs(s, init, issues);
    }
  }

  /** On every reachable state the diagnostic has nothing to report, whatever it is asked to probe. */
  lemma {:induction false} DiagnosticSilent(start: nat, steps: seq<Step>, pairs: seq<(Address, Symbol)>,
          issues: seq<u32>)
    ensures OrphanedPairs(After(Genesis(start), steps), pairs, issues) == []
  {
    if pairs != [] {
      DiagnosticSilent(start, steps, pairs[..|pairs| - 1], issues);
      var s, pair := After(Genesis(start), steps), pairs[|pairs| - 1];
      if Orphaned(s, pair, issues) {
        var i :| 0 <= i < |issues| && IsAssigned(s, Triple(pair.0, pair.1, issues[i]));
        SentinelImpliesCounter(start, steps, Triple(pair.0, pair.1, issues[i]));
        assert false;
      }
    }
  }
}
