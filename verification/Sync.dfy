/**
 * The sync service: one asynchronous queue per organisation, drained one save at a time.
 *
 * JavaScript runs to completion between awaits, so each method here is one such atomic stretch.
 * `inFlight` lists the drains suspended in `saveEvent`; nothing in the code says there is at most
 * one, that is what is proved.
 */
module Sync {
  import opened Prelude

  datatype OrgEvent = OrgEvent(orgId: string, payload: string)
  datatype OrgRecord = OrgRecord(orgId: string, address: string)
  datatype Attempt = Attempt(event: OrgEvent, saved: bool)

  /** A queue as seen at an await point; `accepted` and `settled` are its history. */
  datatype Queue = Queue(
    orgId: string,
    address: string,
    pending: seq<OrgEvent>,
    processing: bool,
    inFlight: seq<OrgEvent>,
    accepted: seq<OrgEvent>,
    settled: seq<Attempt>)

  function NewQueue(orgId: string, address: string): Queue { Queue(orgId, address, [], false, [], [], []) }

  /** Up to the next await: stop when idle, otherwise start saving the head. */
  function DrainNext(q: Queue): Queue {
    if q.pending == [] then q.(processing := false)
    else q.(processing := true, inFlight := q.inFlight + [q.pending[0]])
  }

  function Arrive(q: Queue, e: OrgEvent): Queue {
    if e.orgId != q.orgId then q
    else
      var q1 := q.(pending := q.pending + [e], accepted := q.accepted + [e]);
      if q.processing then q1 else DrainNext(q1)
  }

  /** Array `shift`. */
  function Shift(xs: seq<OrgEvent>): seq<OrgEvent> { if xs == [] then [] else xs[1..] }

  /** The `i`-th suspended drain resumes: saved or not, the head of the queue goes and the drain continues. */
  function Settle(q: Queue, i: nat, saved: bool): Queue {
    if i >= |q.inFlight| then q
    else DrainNext(q.(
      pending := Shift(q.pending),
      inFlight := q.inFlight[..i] + q.inFlight[i + 1..],
      settled := q.settled + [Attempt(q.inFlight[i], saved)]))
  }

  // ---------------------------------------------------------------- one queue

  /** The settled attempts are the first accepted events, each once and in order. */
  ghost predicate AttemptedInOrder(settled: seq<Attempt>, accepted: seq<OrgEvent>) {
    |settled| <= |accepted| && forall i :: 0 <= i < |settled| ==> settled[i].event == accepted[i]
  }

  /** At most one save runs and it is the head; attempted events and the queue are the accepted ones, in order. */
  ghost predicate Safe(q: Queue) {
    && (q.processing <==> q.pending != [])
    && q.inFlight == (if q.pending == [] then [] else [q.pending[0]])
    && AttemptedInOrder(q.settled, q.accepted) && q.pending == q.accepted[|q.settled|..]
    && forall i :: 0 <= i < |q.accepted| ==> q.accepted[i].orgId == q.orgId
  }

  datatype Signal = Arrival(e: OrgEvent) | Settled(i: nat, saved: bool)

  function React(q: Queue, s: Signal): Queue {
    match s
    case Arrival(e) => Arrive(q, e)
    case Settled(i, saved) => Settle(q, i, saved)
  }

  function ReactAll(q: Queue, signals: seq<Signal>): Queue {
    if signals == [] then q else React(ReactAll(q, signals[..|signals| - 1]), signals[|signals| - 1])
  }

  lemma ArriveSafe(q: Queue, e: OrgEvent)
    requires Safe(q)
    ensures Safe(Arrive(q, e)) && Arrive(q, e).orgId == q.orgId
  {
  }

  lemma SettleSafe(q: Queue, i: nat, saved: bool)
    requires Safe(q)
    ensures Safe(Settle(q, i, saved)) && Settle(q, i, saved).orgId == q.orgId
    ensures i < |q.inFlight| ==> i == 0 && Settle(q, i, saved).settled == q.settled + [Attempt(q.pending[0], saved)]
    ensures i < |q.inFlight| ==> Settle(q, i, saved).pending == q.pending[1..]
  {
  }

  /** Queue safety: it holds at every await point of every interleaving, whatever saves fail. */
  lemma {:induction false} AlwaysSafe(orgId: string, address: string, signals: seq<Signal>)
    ensures Safe(ReactAll(NewQueue(orgId, address), signals))
  {
    if signals != [] {
      AlwaysSafe(orgId, address, signals[..|signals| - 1]);
      var q := ReactAll(NewQueue(orgId, address), signals[..|signals| - 1]);
      match signals[|signals| - 1]
      case Arrival(e) => ArriveSafe(q, e);
      case Settled(i, saved) => SettleSafe(q, i, saved);
    }
  }

  /** The events among the signals that carry the organisation's id, in order of arrival. */
  function Heard(signals: seq<Signal>, orgId: string): seq<OrgEvent> {
    if signals == [] then []
    else
      var s := signals[|signals| - 1];
      Heard(signals[..|signals| - 1], orgId) + (if s.Arrival? && s.e.orgId == orgId then [s.e] else [])
  }

  /** A queue accepts every event of its organisation, in any situation, and no other. */
  lemma {:induction false} AcceptsItsEvents(orgId: string, address: string, signals: seq<Signal>)
    ensures var q := ReactAll(NewQueue(orgId, address), signals);
      q.orgId == orgId && q.address == address && q.accepted == Heard(signals, orgId)
  {
    if signals != [] {
      AcceptsItsEvents(orgId, address, signals[..|signals| - 1]);
    }
  }

  /** Only saves settle, nothing arrives: each time the one save in flight. */
  predicate OnlySaves(signals: seq<Signal>) {
    forall k :: 0 <= k < |signals| ==> signals[k].Settled? && signals[k].i == 0
  }

  lemma {:induction false} EachSaveTakesOne(q: Queue, signals: seq<Signal>)
    requires Safe(q) && OnlySaves(signals) && |signals| <= |q.pending|
    ensures var q' := ReactAll(q, signals);
      Safe(q') && q'.accepted == q.accepted && |q'.pending| == |q.pending| - |signals|
  {
    if signals != [] {
      var init, last := signals[..|signals| - 1], signals[|signals| - 1];
      EachSaveTakesOne(q, init);
      SettleSafe(ReactAll(q, init), last.i, last.saved);
    }
  }

  /** Once as many saves settle as events wait, every accepted event has been attempted once, in order. */
  lemma DrainsCompletely(q: Queue, signals: seq<Signal>)
    requires Safe(q) && OnlySaves(signals) && |signals| == |q.pending|
    ensures var q' := ReactAll(q, signals);
      && q'.pending == [] && !q'.processing && q'.accepted == q.accepted
      && |q'.settled| == |q.accepted| && AttemptedInOrder(q'.settled, q.accepted)
  {
    EachSaveTakesOne(q, signals);
  }

  /** The queue object: `queue` and `processing` are its own fields, the ghosts watch the environment. */
  class OrgQueue {
    const orgId: string
    const contractAddress: string
    var queue: seq<OrgEvent>
    var processing: bool
    ghost var inFlight: seq<OrgEvent>
    ghost var accepted: seq<OrgEvent>
    ghost var settled: seq<Attempt>

    ghost function View(): Queue
      reads this
    {
      Queue(orgId, contractAddress, queue, processing, inFlight, accepted, settled)
    }

    constructor (orgId: string, contractAddress: string)
      ensures View() == NewQueue(orgId, contractAddress)
    {
      this.orgId, this.contractAddress := orgId, contractAddress;
      queue, processing, inFlight, accepted, settled := [], false, [], [], [];
    }

    method Enqueue(event: OrgEvent)
      modifies this
      ensures View() == Arrive(old(View()), event)
    {
      if event.orgId != orgId {
        return;
      }
      queue := queue + [event];
      accepted := accepted + [event];
      if !processing {
        ProcessNext();
      }
    }

    /** `processNext` up to the await of `saveEvent`. */
    method ProcessNext()
      modifies this
      ensures View() == DrainNext(old(View()))
    {
      if |queue| == 0 {
        processing := false;
        return;
      }
      processing := true;
      var event := queue[0];
      inFlight := inFlight + [event];
    }

    /** The rest of `processNext`, after the await of the `i`-th suspended save has resolved or rejected. */
    method Resume(ghost i: nat, ghost saved: bool)
      requires i < |inFlight|
      modifies this
      ensures View() == Settle(old(View()), i, saved)
    {
      settled := settled + [Attempt(inFlight[i], saved)];
      inFlight := inFlight[..i] + inFlight[i + 1..];
      if |queue| > 0 {
        queue := queue[1..];
      }
      ProcessNext();
    }
  }

  // ---------------------------------------------------------------- the fleet

  /** The registered queues and, per registered listener, the channel it hears. */
  datatype Fleet = Fleet(queues: map<string, Queue>, listeners: seq<string>)

  datatype FleetStep =
    | Loaded(orgs: seq<OrgRecord>)
    | Emitted(channel: string, e: OrgEvent)
    | SaveSettled(org: string, i: nat, saved: bool)

  function RegisterOne(f: Fleet, org: OrgRecord): Fleet {
    if org.orgId in f.queues then f
    else Fleet(f.queues[org.orgId := NewQueue(org.orgId, org.address)], f.listeners + [org.orgId])
  }

  function RegisterAll(f: Fleet, orgs: seq<OrgRecord>): Fleet {
    if orgs == [] then f else RegisterOne(RegisterAll(f, orgs[..|orgs| - 1]), orgs[|orgs| - 1])
  }

  function Handle(f: Fleet, org: string, e: OrgEvent): Fleet {
    if org in f.queues then f.(queues := f.queues[org := Arrive(f.queues[org], e)]) else f
  }

  /** Every listener on the channel handles the event. */
  function Deliver(f: Fleet, listeners: seq<string>, channel: string, e: OrgEvent): Fleet {
    if listeners == [] then f
    else
      var f1 := Deliver(f, listeners[..|listeners| - 1], channel, e);
      if listeners[|listeners| - 1] == channel then Handle(f1, channel, e) else f1
  }

  function FleetNext(f: Fleet, step: FleetStep): Fleet {
    match step
    case Loaded(orgs) => RegisterAll(f, orgs)
    case Emitted(channel, e) => Deliver(f, f.listeners, channel, e)
    case SaveSettled(org, i, saved) =>
      if org in f.queues then f.(queues := f.queues[org := Settle(f.queues[org], i, saved)]) else f
  }

  function FleetAfter(steps: seq<FleetStep>): Fleet {
    if steps == [] then Fleet(map[], []) else FleetNext(FleetAfter(steps[..|steps| - 1]), steps[|steps| - 1])
  }

  function Occurrences(xs: seq<string>, x: string): nat {
    if xs == [] then 0 else Occurrences(xs[..|xs| - 1], x) + (if xs[|xs| - 1] == x then 1 else 0)
  }

  /** Each registered organisation has exactly one listener, and no other channel has any. */
  ghost predicate OneListenerEach(f: Fleet) {
    && (forall org :: Occurrences(f.listeners, org) == if org in f.queues then 1 else 0)
    && (forall org :: org in f.queues ==> f.queues[org].orgId == org)
  }

  /** The first record for `org`, if the load returned one. */
  function FirstRecord(orgs: seq<OrgRecord>, org: string): Option<OrgRecord> {
    if orgs == [] then None
    else
      var earlier := FirstRecord(orgs[..|orgs| - 1], org);
      if earlier.Some? then earlier else if orgs[|orgs| - 1].orgId == org then Some(orgs[|orgs| - 1]) else None
  }

  /**
   * What `org`'s queue does on its own: created by the first load that names it, then fed its own channel and
   * saves.
   */
  function Alone(steps: seq<FleetStep>, org: string): Option<Queue> {
    if steps == [] then None
    else
      var q := Alone(steps[..|steps| - 1], org);
      match steps[|steps| - 1]
      case Loaded(orgs) =>
        if q.Some? then q
        else if FirstRecord(orgs, org).Some? then Some(NewQueue(org, FirstRecord(orgs, org).value.address))
        else None
      case Emitted(channel, e) => if q.Some? && channel == org then Some(Arrive(q.value, e)) else q
      case SaveSettled(o, i, saved) => if q.Some? && o == org then Some(Settle(q.value, i, saved)) else q
  }

  function QueueOf(f: Fleet, org: string): Option<Queue> { if org in f.queues then Some(f.queues[org]) else None }

  lemma OccurrencesSnoc(xs: seq<string>, y: string, x: string)
    ensures Occurrences(xs + [y], x) == Occurrences(xs, x) + (if y == x then 1 else 0)
  {
    assert (xs + [y])[..|xs|] == xs;
  }

  lemma RegisterOneListens(f: Fleet, org: OrgRecord)
    requires OneListenerEach(f)
    ensures OneListenerEach(RegisterOne(f, org))
  {
    forall o
      ensures Occurrences(RegisterOne(f, org).listeners, o) == if o in RegisterOne(f, org).queues then 1 else 0
    {
      OccurrencesSnoc(f.listeners, org.orgId, o);
    }
  }

  lemma {:induction false} RegisterAllListens(f: Fleet, orgs: seq<OrgRecord>)
    requires OneListenerEach(f)
    ensures OneListenerEach(RegisterAll(f, orgs))
  {
    hide OneListenerEach, RegisterOne;
    if orgs != [] {
      RegisterAllListens(f, orgs[..|orgs| - 1]);
      RegisterOneListens(RegisterAll(f, orgs[..|orgs| - 1]), orgs[|orgs| - 1]);
    }
  }

  lemma {:induction false} RegisterAllEffect(f: Fleet, orgs: seq<OrgRecord>, org: string)
    ensures QueueOf(RegisterAll(f, orgs), org) ==
      if org in f.queues then Some(f.queues[org])
      else if FirstRecord(orgs, org).Some? then Some(NewQueue(org, FirstRecord(orgs, org).value.address))
      else None
  {
    if orgs != [] {
      RegisterAllEffect(f, orgs[..|orgs| - 1], org);
    }
  }

  lemma {:induction false} DeliverEffect(f: Fleet, listeners: seq<string>, channel: string, e: OrgEvent)
    requires Occurrences(listeners, channel) <= 1 && (Occurrences(listeners, channel) == 1 ==> channel in f.queues)
    ensures Deliver(f, listeners, channel, e) == if Occurrences(listeners, channel) == 1 then Handle(f, channel, e)
      else f
  {
    if listeners != [] {
      DeliverEffect(f, listeners[..|listeners| - 1], channel, e);
    }
  }

  /**
   * The fleet is its queues, each on its own: any interleaving of loads, arrivals and save outcomes
   * leaves every organisation's queue where it would be alone, loads never replace a queue, and each
   * organisation has one listener.
   */
  lemma {:induction false} QueuesAreIndependent(steps: seq<FleetStep>, org: string)
    ensures OneListenerEach(FleetAfter(steps))
    ensures QueueOf(FleetAfter(steps), org) == Alone(steps, org)
  {
    if steps != [] {
      QueuesAreIndependent(steps[..|steps| - 1], org);
      var f := FleetAfter(steps[..|steps| - 1]);
      match steps[|steps| - 1]
      case Loaded(orgs) => RegisterAllListens(f, orgs); RegisterAllEffect(f, orgs, org);
      case Emitted(channel, e) => DeliverEffect(f, f.listeners, channel, e);
      case SaveSettled(o, i, saved) =>
    }
  }

  /** So every queue of the fleet is safe, and only ever attempts events of its own organisation. */
  lemma {:induction false} AloneSafe(steps: seq<FleetStep>, org: string)
    ensures var q := Alone(steps, org); q.Some? ==> Safe(q.value) && q.value.orgId == org
  {
    if steps != [] {
      AloneSafe(steps[..|steps| - 1], org);
      var q := Alone(steps[..|steps| - 1], org);
      if q.Some? {
        match steps[|steps| - 1]
        case Loaded(_) =>
        case Emitted(_, e) => ArriveSafe(q.value, e);
        case SaveSettled(_, i, saved) => SettleSafe(q.value, i, saved);
      }
    }
  }

  lemma FleetAttemptsOwnEvents(steps: seq<FleetStep>, org: string, k: nat)
    requires org in FleetAfter(steps).queues && k < |FleetAfter(steps).queues[org].settled|
    ensures var q := FleetAfter(steps).queues[org];
      Safe(q) && q.settled[k].event.orgId == org && q.settled[k].event == q.accepted[k]
  {
    QueuesAreIndependent(steps, org);
    AloneSafe(steps, org);
    var q := FleetAfter(steps).queues[org];
  }

  /** The first record any load has returned for `org`. */
  function Named(steps: seq<FleetStep>, org: string): Option<OrgRecord> {
    if steps == [] then None
    else
      var earlier, step := Named(steps[..|steps| - 1], org), steps[|steps| - 1];
      if earlier.Some? then earlier else if step.Loaded? then FirstRecord(step.orgs, org) else None
  }

  /** What concerns `org` in a run: the events on its channel and its saves, from the first load naming it on. */
  function SignalsFor(steps: seq<FleetStep>, org: string): seq<Signal> {
    if steps == [] then []
    else
      var init := steps[..|steps| - 1];
      SignalsFor(init, org) +
      match steps[|steps| - 1]
      case Emitted(channel, e) => (if channel == org && Named(init, org).Some? then [Arrival(e)] else [])
      case SaveSettled(o, i, saved) => (if o == org && Named(init, org).Some? then [Settled(i, saved)] else [])
      case Loaded(_) => []
  }

  lemma SignalsSnoc(q: Queue, signals: seq<Signal>, s: Signal)
    ensures ReactAll(q, signals + [s]) == React(ReactAll(q, signals), s)
  {
    assert (signals + [s])[..|signals|] == signals;
  }

  lemma {:induction false} AloneReacts(steps: seq<FleetStep>, org: string)
    ensures Alone(steps, org) ==
      if Named(steps, org).None? then None
      else Some(ReactAll(NewQueue(org, Named(steps, org).value.address), SignalsFor(steps, org)))
    ensures Named(steps, org).None? ==> SignalsFor(steps, org) == []
  {
    hide Arrive, Settle, FirstRecord;
    if steps != [] {
      var init := steps[..|steps| - 1];
      AloneReacts(init, org);
      assert SignalsFor(init, org) + [] == SignalsFor(init, org);
      if Named(init, org).Some? {
        var q := NewQueue(org, Named(init, org).value.address);
        match steps[|steps| - 1]
        case Emitted(channel, e) => SignalsSnoc(q, SignalsFor(init, org), Arrival(e));
        case SaveSettled(o, i, saved) => SignalsSnoc(q, SignalsFor(init, org), Settled(i, saved));
        case Loaded(_) =>
      }
    }
  }

  /** The events a run emits on `org`'s channel with `org`'s own id, from the first load naming it on. */
  function EmittedFor(steps: seq<FleetStep>, org: string): seq<OrgEvent> {
    if steps == [] then []
    else
      var init, step := steps[..|steps| - 1], steps[|steps| - 1];
      EmittedFor(init, org) +
      if step.Emitted? && step.channel == org && step.e.orgId == org && Named(init, org).Some? then [step.e] else []
  }

  lemma {:induction false} HeardIsEmitted(steps: seq<FleetStep>, org: string)
    ensures Heard(SignalsFor(steps, org), org) == EmittedFor(steps, org)
  {
    if steps != [] {
      var init := steps[..|steps| - 1];
      HeardIsEmitted(init, org);
      var signals, all := SignalsFor(init, org), SignalsFor(steps, org);
      if all != signals {
        assert all[..|all| - 1] == signals;
      }
    }
  }

  /**
   * A fleet accepts what it should: an organisation has a queue if and only if some load has named
   * it, under the address it was first named with, and the queue has accepted exactly the events of
   * its own id emitted on its channel since then, in order.
   */
  lemma FleetAcceptsExactly(steps: seq<FleetStep>, org: string)
    ensures org in FleetAfter(steps).queues <==> Named(steps, org).Some?
    ensures org in FleetAfter(steps).queues ==>
      var q := FleetAfter(steps).queues[org];
      && q.orgId == org && q.address == Named(steps, org).value.address
      && q.accepted == EmittedFor(steps, org)
      && q == ReactAll(NewQueue(org, q.address), SignalsFor(steps, org))
  {
    QueuesAreIndependent(steps, org);
    AloneReacts(steps, org);
    HeardIsEmitted(steps, org);
    if Named(steps, org).Some? {
      AcceptsItsEvents(org, Named(steps, org).value.address, SignalsFor(steps, org));
    }
  }

  /** The service object. `listeners` is the emitter's: each entry is the channel one listener hears. */
  class SyncService {
    var orgQueues: map<string, OrgQueue>
    var listeners: seq<string>

    /** Every queue sits under its own id, and no queue object sits under two. */
    ghost predicate Valid()
      reads this, orgQueues.Values
    {
      && (forall org :: org in orgQueues ==> orgQueues[org].orgId == org)
      && (forall a, b :: a in orgQueues && b in orgQueues && a != b ==> orgQueues[a] != orgQueues[b])
    }

    ghost function View(): Fleet
      reads this, orgQueues.Values
    {
      Fleet(map org | org in orgQueues :: orgQueues[org].View(), listeners)
    }

    constructor ()
      ensures Valid() && View() == FleetAfter([])
    {
      orgQueues, listeners := map[], [];
    }

    /** The queues there were are all still there, the same objects; any other is new. */
    twostate predicate KeepsQueues()
      reads this
    {
      && (forall org :: org in old(orgQueues) ==> org in orgQueues && orgQueues[org] == old(orgQueues)[org])
      && (forall org :: org in orgQueues && org !in old(orgQueues) ==> fresh(orgQueues[org]))
    }

    /** `loadAndRegisterOrgs` once the database has answered: known organisations are left alone. */
    method LoadAndRegisterOrgs(orgs: seq<OrgRecord>)
      requires Valid()
      modifies this
      ensures Valid() && View() == FleetNext(old(View()), Loaded(orgs)) && KeepsQueues()
    {
      for i := 0 to |orgs|
        invariant Valid() && View() == RegisterAll(old(View()), orgs[..i]) && KeepsQueues()
      {
        assert orgs[..i + 1][..i] == orgs[..i];
        RegisterOrg(orgs[i]);
      }
      assert orgs[..|orgs|] == orgs;
    }

    /** One turn of the loop over the loaded records. */
    method RegisterOrg(org: OrgRecord)
      requires Valid()
      modifies this
      ensures Valid() && View() == RegisterOne(old(View()), org) && KeepsQueues()
    {
      if org.orgId !in orgQueues {
        var queue := new OrgQueue(org.orgId, org.address);
        orgQueues := orgQueues[org.orgId := queue];
        StartOrgListener(org.orgId);
      }
    }

    method StartOrgListener(orgId: string)
      modifies this`listeners
      ensures listeners == old(listeners) + [orgId]
    {
      listeners := listeners + [orgId];
    }

    method HandleEvent(orgId: string, event: OrgEvent)
      requires Valid()
      modifies orgQueues.Values
      ensures Valid() && View() == Handle(old(View()), orgId, event)
    {
      if orgId in orgQueues {
        orgQueues[orgId].Enqueue(event);
      }
    }

    /** A save of one organisation's queue settles: only that queue moves. */
    method SettleSave(org: string, ghost i: nat, ghost saved: bool)
      requires Valid() && org in orgQueues && i < |orgQueues[org].inFlight|
      modifies orgQueues.Values
      ensures Valid() && View() == FleetNext(old(View()), SaveSettled(org, i, saved))
    {
      orgQueues[org].Resume(i, saved);
    }

    /** `emit` on the channel of one organisation calls each listener registered for it. */
    method Emit(channel: string, event: OrgEvent)
      requires Valid()
      modifies orgQueues.Values
      ensures Valid() && View() == FleetNext(old(View()), Emitted(channel, event))
    {
      for i := 0 to |listeners|
        invariant Valid() && View() == Deliver(old(View()), listeners[..i], channel, event)
      {
        assert listeners[..i + 1][..i] == listeners[..i];
        if listeners[i] == channel {
          HandleEvent(channel, event);
        }
      }
      assert listeners[..|listeners|] == listeners;
    }
  }
}
