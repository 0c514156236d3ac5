/**
 * From the contract to the database: what the indexer makes of the events the contract emits, and
 * what can be rebuilt from its table.
 */
module IndexedHistory {
  import opened Prelude
  import opened Contract
  import EventLog
  import I = Indexer

  function TripleData(t: Triple): seq<I.Native> { [I.Text(t.org), I.Num(t.issue)] }

  function Addr(a: Address): I.Native { I.Text(a.strkey) }

  /** Topics and data of each emit helper. */
  function Topics(e: Event): seq<I.Native> {
    match e
    case Initialized(a) => [I.Text("init"), Addr(a)]
    case MaintainerRegistered(m, _) => [I.Text("maint_reg"), Addr(m)]
    case MaintainerDeregistered(a, _, _) => [I.Text("maint_drg"), Addr(a)]
    case GlobalCapUpdated(a, _) => [I.Text("cap_upd"), Addr(a)]
    case EmergencyCapUpdated(a, _, _) => [I.Text("emrg_cap"), Addr(a)]
    case OrgCapUpdated(org, _, _) => [I.Text("org_cap"), I.Text(org)]
    case Applied(t) => [I.Text("applied"), Addr(t.who)]
    case Withdrew(t) => [I.Text("withdrew"), Addr(t.who)]
    case Assigned(_, t) => [I.Text("assigned"), Addr(t.who)]
    case Completed(_, t) => [I.Text("completed"), Addr(t.who)]
    case Revoked(_, t) => [I.Text("revoked"), Addr(t.who)]
  }

  function Data(e: Event): I.Native {
    match e
    case Initialized(a) => Addr(a)
    case MaintainerRegistered(_, org) => I.Text(org)
    case MaintainerDeregistered(_, m, org) => I.List([Addr(m), I.Text(org)])
    case GlobalCapUpdated(a, cap) => I.List([Addr(a), I.Num(cap)])
    case EmergencyCapUpdated(_, before, cap) => I.List([I.Num(before), I.Num(cap)])
    case OrgCapUpdated(_, before, cap) => I.List([I.Num(before), I.Num(cap)])
    case Applied(t) => I.List(TripleData(t))
    case Withdrew(t) => I.List(TripleData(t))
    case Assigned(m, t) => I.List([Addr(m)] + TripleData(t))
    case Completed(m, t) => I.List([Addr(m)] + TripleData(t))
    case Revoked(m, t) => I.List([Addr(m)] + TripleData(t))
  }

  const TopicNames := ["init", "maint_reg", "maint_drg", "cap_upd", "emrg_cap", "org_cap", "applied", "withdrew",
    "assigned", "completed", "revoked"]

  function Kind(e: Event): (k: nat)
    ensures k < 11
  {
    match e
    case Initialized(_) => 0
    case MaintainerRegistered(_, _) => 1
    case MaintainerDeregistered(_, _, _) => 2
    case GlobalCapUpdated(_, _) => 3
    case EmergencyCapUpdated(_, _, _) => 4
    case OrgCapUpdated(_, _, _) => 5
    case Applied(_) => 6
    case Withdrew(_) => 7
    case Assigned(_, _) => 8
    case Completed(_, _) => 9
    case Revoked(_, _) => 10
  }

  lemma TopicNamesDiffer()
    ensures forall i, j :: 0 <= i < j < |TopicNames| ==> TopicNames[i] != TopicNames[j]
  {
    var n := TopicNames;
    assert |n[0]| == 4 && |n[1]| == 9 && |n[2]| == 9 && |n[3]| == 7 && |n[4]| == 8 && |n[5]| == 7;
    assert |n[6]| == 7 && |n[7]| == 8 && |n[8]| == 8 && |n[9]| == 9 && |n[10]| == 7;
    assert n[1][0] == 'm' && n[1][6] == 'r' && n[2][6] == 'd' && n[9][0] == 'c' && n[2][0] == 'm';
    assert n[3][0] == 'c' && n[5][0] == 'o' && n[6][0] == 'a' && n[10][0] == 'r';
    assert n[4][0] == 'e' && n[7][0] == 'w' && n[8][0] == 'a';
  }

  /** Topics and data together lose nothing of an event: no two events are rendered alike. */
  lemma RenderingLosesNothing(e1: Event, e2: Event)
    requires Topics(e1) == Topics(e2) && Data(e1) == Data(e2)
    ensures e1 == e2
  {
    assert Topics(e1)[0] == I.Text(TopicNames[Kind(e1)]) && Topics(e2)[0] == I.Text(TopicNames[Kind(e2)]);
    TopicNamesDiffer();
    assert Kind(e1) == Kind(e2);
    assert Topics(e1)[1] == Topics(e2)[1];
    if Data(e1).List? {
      var d1, d2 := Data(e1).items, Data(e2).items;
      assert |d1| == |d2| && d1[0] == d2[0] && d1[1] == d2[1] && (|d1| > 2 ==> d1[2] == d2[2]);
    }
  }

  /** `raw` is the RPC's rendering of the emitted event `e`. */
  predicate Carries(raw: I.RawEvent, e: Event) { raw.isContract && raw.topics == Topics(e) && raw.value == Data(e) }

  function WorkflowName(e: Event): Option<string> {
    match e
    case Applied(_) => Some("applied")
    case Withdrew(_) => Some("withdrew")
    case Assigned(_, _) => Some("assigned")
    case Completed(_, _) => Some("completed")
    case Revoked(_, _) => Some("revoked")
    case _ => None
  }

  /** None of the administrative topics is a name the indexer knows. */
  lemma AdminTopicsUnknown()
    ensures !I.Known("init") && !I.Known("maint_reg") && !I.Known("maint_drg")
    ensures !I.Known("cap_upd") && !I.Known("emrg_cap") && !I.Known("org_cap")
  {
    var reg := "maint_reg";
    assert |reg| == 9;
    var drg := "maint_drg";
    assert |drg| == 9;
    var done := "completed";
    assert |done| == 9 && done[0] == 'c' && reg[0] == 'm' && drg[0] == 'm';
    var cap, upd, org := "emrg_cap", "cap_upd", "org_cap";
    assert cap[0] == 'e' && upd[0] == 'c' && org[0] == 'o';
    var a, w, s, r := "applied", "withdrew", "assigned", "revoked";
    assert a[0] == 'a' && w[0] == 'w' && s[0] == 'a' && r[0] == 'r';
  }

  /**
   * The indexer stores exactly the five workflow events, each with its type, contributor,
   * organisation and issue intact. Maintainer registrations are not among them: the contract emits
   * `maint_reg`, the indexer waits for `maintainer_registered`.
   */
  lemma WorkflowEventsAreIndexed(raw: I.RawEvent, e: Event)
    requires Carries(raw, e)
    ensures I.Parse(raw).Some? <==> WorkflowName(e).Some?
    ensures WorkflowName(e).Some? ==>
      var r := I.Parse(raw).value;
      && r.eventType == WorkflowName(e).value && r.contributor == Some(e.t.who.strkey)
      && r.org == Some(e.t.org) && r.issue == Some(e.t.issue) && I.RowKey(r) == I.KeyOf(raw)
  {
    AdminTopicsUnknown();
    if WorkflowName(e).Some? {
      var done, reg := WorkflowName(e).value, "maintainer_registered";
      assert |reg| == 21 && |done| < 21;
      var name := raw.topics[0].s;
      assert name == done;
    }
  }

  predicate About(r: I.Row, t: Triple) {
    r.contributor == Some(t.who.strkey) && r.org == Some(t.org) && r.issue == Some(t.issue)
  }

  /** Whether the table says `t` is assigned: by its latest assigned, completed or revoked row. */
  predicate AssignedInTable(rows: seq<I.Row>, t: Triple) {
    rows != [] &&
    var r, init := rows[|rows| - 1], rows[..|rows| - 1];
    if About(r, t) && r.eventType == "assigned" then true
    else if About(r, t) && (r.eventType == "completed" || r.eventType == "revoked") then false
    else AssignedInTable(init, t)
  }

  ghost predicate CarriesLog(chain: seq<I.RawEvent>, log: seq<Event>) {
    |chain| == |log| && forall i :: 0 <= i < |log| ==> Carries(chain[i], log[i])
  }

  lemma WorkflowNamesDiffer()
    ensures var names := ["applied", "withdrew", "assigned", "completed", "revoked"];
      forall i, j :: 0 <= i < j < |names| ==> names[i] != names[j]
  {
    var names := ["applied", "withdrew", "assigned", "completed", "revoked"];
    assert |names[0]| == 7 && |names[1]| == 8 && |names[2]| == 8 && |names[3]| == 9 && |names[4]| == 7;
    assert names[0][0] == 'a' && names[4][0] == 'r' && names[1][0] == 'w' && names[2][0] == 'a';
  }

  lemma LastRowDecides(rows: seq<I.Row>, r: I.Row, e: Event, t: Triple)
    requires WorkflowName(e).Some? && r.eventType == WorkflowName(e).value
    requires r.contributor == Some(e.t.who.strkey) && r.org == Some(e.t.org) && r.issue == Some(e.t.issue)
    ensures AssignedInTable(rows + [r], t) ==
      if e.t == t && e.Assigned? then true
      else if e.t == t && (e.Completed? || e.Revoked?) then false
      else AssignedInTable(rows, t)
  {
    WorkflowNamesDiffer();
    var names := ["applied", "withdrew", "assigned", "completed", "revoked"];
    assert names[0] != names[2] && names[0] != names[3] && names[0] != names[4] && names[1] != names[2]
      && names[1] != names[3];
    assert names[1] != names[4] && names[2] != names[3] && names[2] != names[4];
    assert (rows + [r])[..|rows|] == rows;
    assert About(r, t) <==> e.t == t;
  }

  /** The event is from the place of an indexed event in `earlier`, so the table never gets its row. */
  predicate Lost(earlier: seq<I.RawEvent>, raw: I.RawEvent) {
    I.Parse(raw).Some? &&
    exists i :: 0 <= i < |earlier| && I.Parse(earlier[i]).Some? && I.SameSource(earlier[i], raw)
  }

  lemma LostIffStored(earlier: seq<I.RawEvent>, raw: I.RawEvent)
    ensures Lost(earlier, raw) <==> I.Parse(raw).Some? && I.Stored(I.Rows(earlier), I.KeyOf(raw))
  {
    I.KeysAreSources();
    hide I.Parse, I.KeyOf, I.Rows, I.SameSource;
    I.StoredIff(earlier, I.KeyOf(raw));
  }

  /** The log without the lost events. */
  function Surviving(chain: seq<I.RawEvent>, log: seq<Event>): seq<Event>
    requires |chain| == |log|
  {
    if log == [] then []
    else
      var raw, e := chain[|chain| - 1], log[|log| - 1];
      var chain', log' := chain[..|chain| - 1], log[..|log| - 1];
      Surviving(chain', log') + (if Lost(chain', raw) then [] else [e])
  }

  lemma ActiveSnoc(log: seq<Event>, e: Event, t: Triple)
    ensures EventLog.Active(log + [e], t) ==
      if WorkflowName(e).Some? && e.t == t && e.Assigned? then true
      else if WorkflowName(e).Some? && e.t == t && (e.Completed? || e.Revoked?) then false
      else EventLog.Active(log, t)
  {
    EventLog.Snoc(log, e);
  }

  /**
   * The table of an indexed stretch knows of each assignment exactly what the contract's log does,
   * up to the events lost to a shared key. No stream is excluded.
   */
  lemma {:induction false} TableKnowsAssignments(chain: seq<I.RawEvent>, log: seq<Event>, t: Triple)
    requires CarriesLog(chain, log)
    ensures AssignedInTable(I.Rows(chain), t) <==> EventLog.Active(Surviving(chain, log), t)
  {
    hide I.Parse, I.KeyOf, AssignedInTable, EventLog.Active, Lost;
    if log != [] {
      var raw, e := chain[|chain| - 1], log[|log| - 1];
      var chain', log' := chain[..|chain| - 1], log[..|log| - 1];
      LostIffStored(chain', raw);
      TableKnowsAssignments(chain', log', t);
      WorkflowEventsAreIndexed(raw, e);
      ActiveSnoc(Surviving(chain', log'), e, t);
      if I.Parse(raw).Some? && !I.Stored(I.Rows(chain'), I.KeyOf(raw)) {
        LastRowDecides(I.Rows(chain'), I.Parse(raw).value, e, t);
      } else {
        assert I.Rows(chain) == I.Rows(chain');
        assert I.Parse(raw).Some? ==> Surviving(chain, log) == Surviving(chain', log');
      }
    } else {
      assert !AssignedInTable([], t) && !EventLog.Active([], t) by {
        NothingInNothing(t);
      }
    }
  }

  lemma NothingInNothing(t: Triple)
    ensures !AssignedInTable([], t) && !EventLog.Active([], t)
  {
  }

  lemma LastSurvives(chain: seq<I.RawEvent>)
    requires chain != [] && I.DistinctKeys(chain)
    ensures I.DistinctKeys(chain[..|chain| - 1]) && !Lost(chain[..|chain| - 1], chain[|chain| - 1])
  {
    hide I.Parse, I.KeyOf, I.Rows, I.DistinctKeys, Lost;
    I.DistinctSnoc(chain);
    LostIffStored(chain[..|chain| - 1], chain[|chain| - 1]);
  }

  /** Distinct keys lose nothing. */
  lemma {:induction false} AllSurvive(chain: seq<I.RawEvent>, log: seq<Event>)
    requires |chain| == |log| && I.DistinctKeys(chain)
    ensures Surviving(chain, log) == log
  {
    hide I.DistinctKeys, Lost;
    if log != [] {
      LastSurvives(chain);
      AllSurvive(chain[..|chain| - 1], log[..|log| - 1]);
    }
  }

  lemma RowsSnoc(chain: seq<I.RawEvent>, raw: I.RawEvent)
    requires I.Parse(raw).Some?
    ensures I.Rows(chain + [raw])
      == if Lost(chain, raw) then I.Rows(chain) else I.Rows(chain) + [I.Parse(raw).value]
  {
    hide I.Parse, I.KeyOf, Lost;
    LostIffStored(chain, raw);
    assert (chain + [raw])[..|chain|] == chain;
  }

  /**
   * A shared key can mislead the table: when, after any stretch, an assignment and its completion
   * share a key not seen before, the table still shows the assignment.
   */
  lemma CollisionMisleadsTable(chain: seq<I.RawEvent>, log: seq<Event>, first: I.RawEvent, second: I.RawEvent,
          m: Address, t: Triple)
    requires Carries(first, Assigned(m, t)) && Carries(second, Completed(m, t)) && I.KeyOf(first) == I.KeyOf(second)
    requires !I.Stored(I.Rows(chain), I.KeyOf(first))
    ensures AssignedInTable(I.Rows(chain + [first] + [second]), t)
    ensures !EventLog.Active(log + [Assigned(m, t)] + [Completed(m, t)], t)
  {
    WorkflowEventsAreIndexed(first, Assigned(m, t));
    WorkflowEventsAreIndexed(second, Completed(m, t));
    hide I.Parse, I.KeyOf, I.Rows, AssignedInTable, Carries, Lost;
    LostIffStored(chain, first);
    LostIffStored(chain + [first], second);
    RowsSnoc(chain, first);
    var rows := I.Rows(chain + [first]);
    assert I.RowKey(rows[|rows| - 1]) == I.KeyOf(second);
    RowsSnoc(chain + [first], second);
    LastRowDecides(I.Rows(chain), I.Parse(first).value, Assigned(m, t), t);
    ActiveSnoc(log + [Assigned(m, t)], Completed(m, t), t);
  }

  /** The indexer, started on an empty table, has reached the end of the events of the run. */
  ghost predicate CaughtUp(s: State, w: I.World, actions: seq<I.Action>) {
    var w' := I.ActAll(w, actions);
    && w.rows == [] && w.cursor == I.FromGenesis && I.Ordered(w'.chain)
    && CarriesLog(w'.chain, s.log) && I.Passed(w'.chain, w'.cursor) == |w'.chain|
  }

  /**
   * End to end: after any faults, crashes and restarts, whenever the indexer's cursor has reached the
   * end of the events of a run of the contract, its table shows exactly the assignments of the log
   * without the events lost to a shared key; with distinct keys, exactly the contract's assignments.
   */
  lemma TableEqualsContract(start: nat, steps: seq<Step>, w: I.World, actions: seq<I.Action>, t: Triple)
    requires CaughtUp(After(Genesis(start), steps), w, actions)
    ensures var w', s := I.ActAll(w, actions), After(Genesis(start), steps);
      && (AssignedInTable(w'.rows, t) <==> EventLog.Active(Surviving(w'.chain, s.log), t))
      && (I.DistinctKeys(w'.chain) ==> (AssignedInTable(w'.rows, t) <==> IsAssigned(s, t)))
  {
    var chain, log := I.ActAll(w, actions).chain, After(Genesis(start), steps).log;
    I.ExactlyOnce(w, actions);
    I.IdleMeansComplete(I.ActAll(w, actions));
    TableKnowsAssignments(chain, log, t);
    EventLog.LogReplaysToState(start, steps);
    if I.DistinctKeys(chain) {
      AllSurvive(chain, log);
    }
  }

  // ---------------------------------------------------------------- when a table with losses is right

  /** The event decides whether `t` is assigned. */
  predicate Decides(e: Event, t: Triple) { (e.Assigned? || e.Completed? || e.Revoked?) && e.t == t }

  function LatestAbout(log: seq<Event>, t: Triple): Option<Event> {
    if log == [] then None
    else if Decides(log[|log| - 1], t) then Some(log[|log| - 1])
    else LatestAbout(log[..|log| - 1], t)
  }

  predicate EndsAssigned(log: seq<Event>, t: Triple) {
    LatestAbout(log, t).Some? && LatestAbout(log, t).value.Assigned?
  }

  lemma {:induction false} ActiveEndsAssigned(log: seq<Event>, t: Triple)
    ensures EventLog.Active(log, t) <==> EndsAssigned(log, t)
  {
    if log != [] {
      ActiveEndsAssigned(log[..|log| - 1], t);
    }
  }

  /** How many deciding events about `t` were lost since the latest one that survived. */
  function LostSince(chain: seq<I.RawEvent>, log: seq<Event>, t: Triple): nat
    requires |chain| == |log|
  {
    if log == [] then 0
    else
      var raw, e := chain[|chain| - 1], log[|log| - 1];
      var chain', log' := chain[..|chain| - 1], log[..|log| - 1];
      if !Decides(e, t) then LostSince(chain', log', t)
      else if Lost(chain', raw) then LostSince(chain', log', t) + 1
      else 0
  }

  /** On a lawful log assigning and ending alternate, so each lost event turns the table's answer over. */
  lemma {:induction false} LossesAlternate(chain: seq<I.RawEvent>, log: seq<Event>, t: Triple)
    requires |chain| == |log| && EventLog.LawfulLog(log)
    ensures (EventLog.Active(log, t) <==> EventLog.Active(Surviving(chain, log), t))
      <==> LostSince(chain, log, t) % 2 == 0
  {
    hide Lost, EventLog.Active, EventLog.LawfulLog;
    if log != [] {
      var raw, e := chain[|chain| - 1], log[|log| - 1];
      var chain', log' := chain[..|chain| - 1], log[..|log| - 1];
      EventLog.LawfulInitial(log);
      LossesAlternate(chain', log', t);
      assert EventLog.Initial(log) == log' && EventLog.Last(log) == e && log == log' + [e];
      ActiveSnoc(log', e, t);
      ActiveSnoc(Surviving(chain', log'), e, t);
      assert Lost(chain', raw) ==> Surviving(chain, log) == Surviving(chain', log');
    }
  }

  /**
   * Exactly when a caught-up table is right about a triple: if and only if the number of its
   * assigned, completed and revoked events lost since the latest one that survived is even; in other
   * words, if its latest such event and the latest surviving one both are assignments or neither is.
   */
  lemma TableIsRightIff(start: nat, steps: seq<Step>, w: I.World, actions: seq<I.Action>, t: Triple)
    requires CaughtUp(After(Genesis(start), steps), w, actions)
    ensures var w', s := I.ActAll(w, actions), After(Genesis(start), steps);
      && ((AssignedInTable(w'.rows, t) <==> IsAssigned(s, t)) <==> LostSince(w'.chain, s.log, t) % 2 == 0)
      && ((AssignedInTable(w'.rows, t) <==> IsAssigned(s, t))
          <==> (EndsAssigned(s.log, t) <==> EndsAssigned(Surviving(w'.chain, s.log), t)))
  {
    var chain, log := I.ActAll(w, actions).chain, After(Genesis(start), steps).log;
    TableEqualsContract(start, steps, w, actions, t);
    EventLog.LogReplaysToState(start, steps);
    EventLog.EveryEventLawful(start, steps);
    LossesAlternate(chain, log, t);
    ActiveEndsAssigned(log, t);
    ActiveEndsAssigned(Surviving(chain, log), t);
  }

  /** The RPC's rendering of `e` as event number `at` of the stream, from transaction `tx`, with an id in no parts. */
  function Rendered(e: Event, at: nat, tx: string): I.RawEvent {
    I.RawEvent(true, tx, [], at, 0, Some(tx), Topics(e), Data(e))
  }

  /** The contract right after a maintainer has been registered. */
  lemma Setup(admin: Address, m: Address, org: Symbol, signers: set<Address>) returns (steps: seq<Step>)
    requires admin in signers
    ensures var s := After(Genesis(0), steps);
      && s.cfg == Config(Some(admin), Some(GLOBAL_APP_LIMIT), map[], {(m, org)}) && s.tmp == Genesis(0).tmp
      && s.reg == Genesis(0).reg && s.log == [Initialized(admin), MaintainerRegistered(m, org)]
  {
    var init, register := Invoke(Initialize(admin), signers), Invoke(RegisterMaintainer(admin, m, org), signers);
    AfterSnoc(Genesis(0), [], init);
    AfterSnoc(Genesis(0), [] + [init], register);
    steps := [] + [init] + [register];
  }

  /** A workflow on a contract with nothing else in it. */
  lemma ApplyAssignComplete(s: State, m: Address, t: Triple, signers: set<Address>) returns (steps: seq<Step>)
    requires s.cfg.admin.Some? && (m, t.org) in s.cfg.maintainers && m in signers && t.who in signers
    requires GlobalCount(s, t.who) == 0 < GlobalCap(s) && OrgCount(s, t.who, t.org) == 0 < OrgCap(s, t.org)
    requires !HasApplied(s, t) && !IsAssigned(s, t)
    ensures After(s, steps).log == s.log + [Applied(t)] + [Assigned(m, t)] + [Completed(m, t)]
  {
    var apply, assign := Invoke(ApplyForIssue(t), signers), Invoke(AssignIssue(m, t), signers);
    var complete := Invoke(CompleteAssignment(m, t), signers);
    AfterSnoc(s, [], apply);
    AfterSnoc(s, [] + [apply], assign);
    AfterSnoc(s, [] + [apply] + [assign], complete);
    var s1 := Next(s, apply);
    assert s1.log == s.log + [Applied(t)] && HasApplied(s1, t) && s1.cfg == s.cfg && s1.reg == s.reg;
    var s2 := Next(s1, assign);
    assert s2.log == s1.log + [Assigned(m, t)] && IsAssigned(s2, t) && s2.cfg == s.cfg;
    steps := [] + [apply] + [assign] + [complete];
  }

  /** One whole workflow, from initialisation to completion, on the contract. */
  lemma Workflow(admin: Address, m: Address, t: Triple) returns (steps: seq<Step>)
    ensures After(Genesis(0), steps).log
      == [Initialized(admin), MaintainerRegistered(m, t.org), Applied(t), Assigned(m, t), Completed(m, t)]
  {
    var setup := Setup(admin, m, t.org, {admin, m, t.who});
    var rest := ApplyAssignComplete(After(Genesis(0), setup), m, t, {admin, m, t.who});
    AfterConcat(Genesis(0), setup, rest);
    steps := setup + rest;
  }

  /** A fresh indexer that polls once catches up with a short stream. */
  lemma OnePollCatchesUp(chain: seq<I.RawEvent>) returns (actions: seq<I.Action>)
    requires I.Ordered(chain) && |chain| <= I.PAGE_LIMIT
    ensures var w := I.ActAll(I.World([], [], I.FromGenesis), actions);
      w.chain == chain && I.Passed(chain, w.cursor) == |chain| && w.rows == I.Rows(chain)
  {
    var w := I.World([], [], I.FromGenesis);
    var grown := I.World(chain, [], I.FromGenesis);
    actions := [I.Grow(chain), I.Poll(I.PAGE_LIMIT, I.PAGE_LIMIT)];
    assert actions[..1] == [I.Grow(chain)] && actions[..1][..0] == [];
    assert [] + chain == chain;
    assert I.ActAll(w, actions[..1]) == grown;
    I.PollAdvances(grown, I.PAGE_LIMIT, I.PAGE_LIMIT);
    I.ExactlyOnce(w, actions);
    I.IdleMeansComplete(I.ActAll(w, actions));
  }

  /** The run, and an indexer that has read all its events, whose table shows an assignment that has ended. */
  ghost predicate Misled(steps: seq<Step>, w: I.World, actions: seq<I.Action>, t: Triple) {
    && CaughtUp(After(Genesis(0), steps), w, actions)
    && AssignedInTable(I.ActAll(w, actions).rows, t) && !IsAssigned(After(Genesis(0), steps), t)
  }

  /** The stream of a whole workflow, its last two events rendered as of one transaction. */
  function SharedStream(log: seq<Event>): seq<I.RawEvent>
    requires |log| == 5
  {
    [Rendered(log[0], 0, "a"), Rendered(log[1], 1, "b"), Rendered(log[2], 2, "c")]
      + [Rendered(log[3], 3, "d")] + [Rendered(log[4], 4, "d")]
  }

  lemma SharedStreamMisleads(log: seq<Event>, m: Address, t: Triple)
    requires |log| == 5 && log[3] == Assigned(m, t) && log[4] == Completed(m, t)
    ensures CarriesLog(SharedStream(log), log) && I.Ordered(SharedStream(log)) && |SharedStream(log)| == 5
    ensures AssignedInTable(I.Rows(SharedStream(log)), t) && !EventLog.Active(log, t)
  {
    hide AssignedInTable, EventLog.Active, I.Parse, I.Rows;
    var chain := SharedStream(log);
    assert log == log[..3] + [log[3]] + [log[4]] && chain == chain[..3] + [chain[3]] + [chain[4]];
    I.StoredIff(chain[..3], ("d", 0));
    CollisionMisleadsTable(chain[..3], log[..3], chain[3], chain[4], m, t);
  }

  /** From genesis on: a run and an indexer history that end in a misled table. */
  lemma MisledOnARun(admin: Address, m: Address, t: Triple)
    ensures exists steps, w, actions :: Misled(steps, w, actions, t)
  {
    var steps := Workflow(admin, m, t);
    hide After, SharedStream, AssignedInTable, EventLog.Active, I.Rows, I.ActAll, I.Passed, I.Ordered, CarriesLog;
    var log := After(Genesis(0), steps).log;
    SharedStreamMisleads(log, m, t);
    EventLog.LogReplaysToState(0, steps);
    var actions := OnePollCatchesUp(SharedStream(log));
    assert Misled(steps, I.World([], [], I.FromGenesis), actions, t);
  }
}
