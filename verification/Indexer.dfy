/**
 * The event indexer: an at-least-once poller made exactly-once by a deduplicating insert.
 *
 * `EventIndexer` is the poller in its own form; `rows` is the `contract_events` table (it survives
 * crashes), `cursor` is memory (it does not). `World` adds the chain and the faults: polls that
 * fail at any event of a batch, crashes, restarts that cannot read the table, and new events.
 */
module Indexer {
  import opened Prelude

  /** A decoded ScVal as the SDK hands it over; `Opaque` is anything else, undecodable values included. */
  datatype Native = Text(s: string) | Num(n: nat) | List(items: seq<Native>) | Opaque

  datatype RawEvent = RawEvent(
    isContract: bool,
    id: string,
    idParts: seq<nat>,
    token: nat,
    ledger: nat,
    txHash: Option<string>,
    topics: seq<Native>,
    value: Native)

  datatype Row = Row(
    eventType: string,
    contributor: Option<string>,
    org: Option<string>,
    issue: Option<nat>,
    txHash: string,
    eventIndex: nat,
    ledger: nat)

  /** The poll's page size. */
  const PAGE_LIMIT: nat := 200

  // ---------------------------------------------------------------- parsing

  predicate Known(name: string) {
    name == "applied" || name == "withdrew" || name == "assigned" || name == "completed" || name == "revoked"
    || name == "maintainer_registered"
  }

  function EventType(topics: seq<Native>): Option<string> {
    if topics != [] && topics[0].Text? && Known(topics[0].s) then Some(topics[0].s) else None
  }

  function AsText(xs: seq<Native>, i: nat): Option<string> {
    if i < |xs| && xs[i].Text? then Some(xs[i].s) else None
  }

  function AsNum(xs: seq<Native>, i: nat): Option<nat> {
    if i < |xs| && xs[i].Num? then Some(xs[i].n) else None
  }

  /** Organisation and issue out of the data value; the maintainer in front is skipped. */
  function ParseData(value: Native, eventType: string): (Option<string>, Option<nat>) {
    if eventType == "maintainer_registered" then (if value.Text? then Some(value.s) else None, None)
    else if !value.List? then (None, None)
    else
      var at := if eventType == "applied" || eventType == "withdrew" then 0 else 1;
      (AsText(value.items, at), AsNum(value.items, at + 1))
  }

  /** The third part of the id; 0 for an id with fewer parts. */
  function EventIndex(raw: RawEvent): nat { if |raw.idParts| >= 3 then raw.idParts[2] else 0 }

  /** The deduplication key: transaction hash (the id when there is none) and event index. */
  function KeyOf(raw: RawEvent): (string, nat) {
    (if raw.txHash.Some? then raw.txHash.value else raw.id, EventIndex(raw))
  }

  function RowKey(r: Row): (string, nat) { (r.txHash, r.eventIndex) }

  function Parse(raw: RawEvent): (r: Option<Row>)
    ensures r.Some? ==> RowKey(r.value) == KeyOf(raw)
  {
    var eventType := EventType(raw.topics);
    if !raw.isContract || eventType.None? then None
    else
      var contributor := if eventType.value == "maintainer_registered" then None else AsText(raw.topics, 1);
      var data := ParseData(raw.value, eventType.value);
      Some(Row(eventType.value, contributor, data.0, data.1, KeyOf(raw).0, KeyOf(raw).1, raw.ledger))
  }

  /** The two events come from one place: the same transaction (or id, without one) and third id part (or 0). */
  predicate SameSource(a: RawEvent, b: RawEvent) {
    && (if a.txHash.Some? then a.txHash.value else a.id) == (if b.txHash.Some? then b.txHash.value else b.id)
    && (if |a.idParts| >= 3 then a.idParts[2] else 0) == (if |b.idParts| >= 3 then b.idParts[2] else 0)
  }

  lemma KeysAreSources()
    ensures forall a, b {:trigger SameSource(a, b)} :: SameSource(a, b) <==> KeyOf(a) == KeyOf(b)
  {
  }

  /** Which events parse, and every field of the record, off the raw event. */
  lemma ParsedFields(raw: RawEvent)
    ensures Parse(raw).Some? <==>
      && raw.isContract && raw.topics != [] && raw.topics[0].Text?
      && raw.topics[0].s in {"applied", "withdrew", "assigned", "completed", "revoked", "maintainer_registered"}
    ensures Parse(raw).Some? ==>
      var r, name := Parse(raw).value, raw.topics[0].s;
      && r.eventType == name && r.ledger == raw.ledger
      && r.txHash == (if raw.txHash.Some? then raw.txHash.value else raw.id)
      && r.eventIndex == (if |raw.idParts| >= 3 then raw.idParts[2] else 0)
      && (name == "maintainer_registered" ==>
            && r.contributor == None && r.issue == None
            && r.org == if raw.value.Text? then Some(raw.value.s) else None)
      && (name != "maintainer_registered" ==>
            && (r.contributor.Some? <==> |raw.topics| >= 2 && raw.topics[1].Text?)
            && (r.contributor.Some? ==> r.contributor.value == raw.topics[1].s))
  {
  }

  /** The list of the data value is read from its front for applications, past the maintainer for the others. */
  lemma ParsedData(raw: RawEvent, items: seq<Native>)
    requires Parse(raw).Some? && raw.topics[0].s != "maintainer_registered" && raw.value == List(items)
    ensures var r, at := Parse(raw).value, if raw.topics[0].s in {"applied", "withdrew"} then 0 else 1;
      && (r.org == if |items| > at && items[at].Text? then Some(items[at].s) else None)
      && (r.issue == if |items| > at + 1 && items[at + 1].Num? then Some(items[at + 1].n) else None)
  {
  }

  // ---------------------------------------------------------------- the table and the cursor

  predicate Stored(rows: seq<Row>, key: (string, nat)) { exists i :: 0 <= i < |rows| && RowKey(rows[i]) == key }

  /** INSERT ... ON CONFLICT (tx_hash, event_index) DO NOTHING. */
  function Insert(rows: seq<Row>, r: Row): seq<Row> { if Stored(rows, RowKey(r)) then rows else rows + [r] }

  /** One event of a batch: unparseable ones are skipped. */
  function StoreNext(rows: seq<Row>, raw: RawEvent): seq<Row> {
    var r := Parse(raw);
    if r.Some? then Insert(rows, r.value) else rows
  }

  function StoreAll(rows: seq<Row>, events: seq<RawEvent>): seq<Row> {
    if events == [] then rows else StoreNext(StoreAll(rows, events[..|events| - 1]), events[|events| - 1])
  }

  /** The table of a stretch of the stream stored once: the first row per key, in order. */
  function Rows(events: seq<RawEvent>): seq<Row> { StoreAll([], events) }

  /** SELECT MAX(ledger_seq); 0 for an empty table, which the resume rule treats alike. */
  function MaxLedger(rows: seq<Row>): nat {
    if rows == [] then 0 else Max(MaxLedger(rows[..|rows| - 1]), rows[|rows| - 1].ledger)
  }

  datatype Cursor = FromGenesis | FromLedger(ledger: nat) | AfterToken(token: nat)

  /** The RPC returns the events a cursor has not passed. */
  predicate Ahead(cursor: Cursor, raw: RawEvent) {
    match cursor
    case FromGenesis => true
    case FromLedger(n) => raw.ledger >= n
    case AfterToken(token) => raw.token > token
  }

  function ResumeCursor(rows: seq<Row>): Cursor {
    if MaxLedger(rows) > 0 then FromLedger(MaxLedger(rows)) else FromGenesis
  }

  /**
   * A batch with a fault at `faultAt` stores the events before it and leaves the cursor; without one, the
   * cursor moves on.
   */
  function RowsAfter(rows: seq<Row>, batch: seq<RawEvent>, faultAt: nat): seq<Row> {
    StoreAll(rows, batch[..Min(faultAt, |batch|)])
  }

  function CursorAfter(cursor: Cursor, batch: seq<RawEvent>, faultAt: nat): Cursor {
    if faultAt < |batch| || batch == [] then cursor else AfterToken(batch[|batch| - 1].token)
  }

  class EventIndexer {
    var cursor: Cursor
    var rows: seq<Row>

    constructor (table: seq<Row>)
      ensures rows == table && cursor == FromGenesis
    {
      cursor, rows := FromGenesis, table;
    }

    /** On start: resume from the highest stored ledger, or from the beginning if the table cannot be read. */
    method InitCursor(readable: bool)
      modifies this`cursor
      ensures cursor == if readable then ResumeCursor(rows) else FromGenesis
    {
      if !readable {
        cursor := FromGenesis;
        return;
      }
      var max := MaxLedger(rows);
      if max > 0 {
        cursor := FromLedger(max);
      } else {
        cursor := FromGenesis;
      }
    }

    method StoreEvent(record: Row) returns (inserted: bool)
      modifies this`rows
      ensures rows == Insert(old(rows), record) && inserted == (old(rows) != rows)
    {
      inserted := !Stored(rows, RowKey(record));
      if inserted {
        rows := rows + [record];
      }
    }

    /**
     * One turn of the poll loop on a fetched batch. `faultAt` is the position at which a store
     * throws or the process dies; from the batch's length on it means no fault. The cursor moves
     * only when the whole batch went through.
     */
    method PollBatch(batch: seq<RawEvent>, faultAt: nat) returns (persisted: nat, skipped: nat)
      modifies this
      ensures rows == RowsAfter(old(rows), batch, faultAt) && cursor == CursorAfter(old(cursor), batch, faultAt)
      ensures |rows| == |old(rows)| + persisted
      ensures faultAt >= |batch| ==> persisted + skipped == |batch|
    {
      persisted, skipped := 0, 0;
      var i := 0;
      while i < |batch|
        invariant 0 <= i <= |batch| && i <= faultAt
        invariant rows == StoreAll(old(rows), batch[..i]) && cursor == old(cursor)
        invariant |rows| == |old(rows)| + persisted && persisted + skipped == i
      {
        if i == faultAt {
          return;
        }
        assert batch[..i + 1][..i] == batch[..i];
        var record := Parse(batch[i]);
        if record.None? {
          skipped := skipped + 1;
        } else {
          var stored := StoreEvent(record.value);
          if stored {
            persisted := persisted + 1;
          } else {
            skipped := skipped + 1;
          }
        }
        i := i + 1;
      }
      assert batch[..|batch|] == batch;
      if batch != [] {
        cursor := AfterToken(batch[|batch| - 1].token);
      }
    }
  }

  // ---------------------------------------------------------------- runs

  predicate Precedes(chain: seq<RawEvent>, i: nat, j: nat)
    requires i < |chain| && j < |chain|
  {
    chain[i].token < chain[j].token && chain[i].ledger <= chain[j].ledger
  }

  /** An ordered stream: paging tokens increase and ledgers never decrease. */
  ghost predicate Ordered(chain: seq<RawEvent>) {
    forall i, j {:trigger Precedes(chain, i, j)} :: 0 <= i < j < |chain| ==> Precedes(chain, i, j)
  }

  datatype World = World(chain: seq<RawEvent>, rows: seq<Row>, cursor: Cursor)

  datatype Action = Grow(events: seq<RawEvent>) | Poll(count: nat, faultAt: nat) | Restart(readable: bool)

  /** How many leading events the cursor has passed. */
  function Passed(chain: seq<RawEvent>, cursor: Cursor): (n: nat)
    ensures n <= |chain|
  {
    if chain == [] || Ahead(cursor, chain[0]) then 0 else 1 + Passed(chain[1..], cursor)
  }

  lemma {:induction false} PassedBound(chain: seq<RawEvent>, cursor: Cursor, i: nat)
    requires i < |chain| && Ahead(cursor, chain[i])
    ensures Passed(chain, cursor) <= i
  {
    if i > 0 && !Ahead(cursor, chain[0]) {
      PassedBound(chain[1..], cursor, i - 1);
    }
  }

  /** The batch the RPC returns: at most a page, and no more than it has or cares to send, from the cursor on. */
  function Fetch(chain: seq<RawEvent>, cursor: Cursor, count: nat): seq<RawEvent> {
    var p := Passed(chain, cursor);
    chain[p..Min(p + Min(count, PAGE_LIMIT), |chain|)]
  }

  function Act(w: World, a: Action): World {
    match a
    case Grow(events) => w.(chain := w.chain + events)
    case Restart(readable) => w.(cursor := if readable then ResumeCursor(w.rows) else FromGenesis)
    case Poll(count, faultAt) =>
      var batch := Fetch(w.chain, w.cursor, count);
      World(w.chain, RowsAfter(w.rows, batch, faultAt), CursorAfter(w.cursor, batch, faultAt))
  }

  function ActAll(w: World, actions: seq<Action>): World {
    if actions == [] then w else Act(ActAll(w, actions[..|actions| - 1]), actions[|actions| - 1])
  }

  /** The table is that of the first `m` events stored once, and the cursor has not passed beyond them. */
  ghost predicate Covers(w: World, m: nat) {
    && m <= |w.chain| && w.rows == Rows(w.chain[..m])
    && match w.cursor
       case FromGenesis => true
       case FromLedger(n) => m > 0 && n <= w.chain[m - 1].ledger
       case AfterToken(token) => m > 0 && token <= w.chain[m - 1].token
  }

  lemma CursorWithin(w: World, m: nat)
    requires Ordered(w.chain) && Covers(w, m)
    ensures Passed(w.chain, w.cursor) <= m
  {
    if m < |w.chain| {
      assert m > 0 ==> Precedes(w.chain, m - 1, m);
      PassedBound(w.chain, w.cursor, m);
    }
  }

  /** A key is stored exactly when the prefix has a parseable event with it. */
  lemma {:induction false} StoredIff(events: seq<RawEvent>, key: (string, nat))
    ensures Stored(Rows(events), key)
      <==> exists i :: 0 <= i < |events| && Parse(events[i]).Some? && KeyOf(events[i]) == key
  {
    hide Parse, KeyOf;
    if events != [] {
      var init, last := events[..|events| - 1], events[|events| - 1];
      StoredIff(init, key);
      StoredAfter(Rows(init), last, key);
      assert forall i | 0 <= i < |init| :: events[i] == init[i];
    }
  }

  lemma StoredAfter(rows: seq<Row>, raw: RawEvent, key: (string, nat))
    ensures Stored(StoreNext(rows, raw), key) <==> Stored(rows, key) || (Parse(raw).Some? && KeyOf(raw) == key)
  {
    hide Parse, KeyOf;
    var after := StoreNext(rows, raw);
    assert forall i | 0 <= i < |rows| :: after[i] == rows[i];
    if after != rows {
      assert after == rows + [Parse(raw).value] && after[|rows|] == Parse(raw).value;
    }
  }

  /** Re-reading a covered event changes nothing; reading the next one adds its row, if its key is new. */
  lemma StoreOne(chain: seq<RawEvent>, done: nat, at: nat)
    requires at <= done <= |chain| && at < |chain|
    ensures StoreNext(Rows(chain[..done]), chain[at]) == Rows(chain[..Max(done, at + 1)])
  {
    hide Parse, KeyOf;
    var prefix := chain[..done];
    if at < done {
      StoredIff(prefix, KeyOf(chain[at]));
      assert prefix[at] == chain[at];
    } else {
      assert chain[..at + 1][..at] == prefix;
    }
  }

  /** `batch` is the stretch of the chain from `p` on. */
  ghost predicate StretchOf(chain: seq<RawEvent>, p: nat, batch: seq<RawEvent>) {
    p + |batch| <= |chain| && forall i :: 0 <= i < |batch| ==> batch[i] == chain[p + i]
  }

  /** Storing a stretch that starts inside the covered prefix extends the prefix and repeats nothing. */
  lemma {:induction false} StoreStretch(chain: seq<RawEvent>, m: nat, p: nat, batch: seq<RawEvent>)
    requires p <= m <= |chain| && StretchOf(chain, p, batch)
    ensures StoreAll(Rows(chain[..m]), batch) == Rows(chain[..Max(m, p + |batch|)])
  {
    if batch != [] {
      var at := p + |batch| - 1;
      StoreStretch(chain, m, p, batch[..|batch| - 1]);
      StoreOne(chain, Max(m, at), at);
    }
  }

  lemma {:induction false} MaxLedgerBound(events: seq<RawEvent>, bound: nat)
    requires forall i :: 0 <= i < |events| ==> events[i].ledger <= bound
    ensures MaxLedger(Rows(events)) <= bound
  {
    if events != [] {
      var init, last := events[..|events| - 1], events[|events| - 1];
      MaxLedgerBound(init, bound);
      if Rows(events) != Rows(init) {
        assert (Rows(init) + [Parse(last).value])[..|Rows(init)|] == Rows(init);
      }
    }
  }

  lemma {:induction false} MaxLedgerReached(rows: seq<Row>)
    ensures forall i :: 0 <= i < |rows| ==> rows[i].ledger <= MaxLedger(rows)
    ensures MaxLedger(rows) > 0 ==> exists i :: 0 <= i < |rows| && rows[i].ledger == MaxLedger(rows)
  {
    if rows != [] {
      MaxLedgerReached(rows[..|rows| - 1]);
    }
  }

  /** A readable restart resumes at the highest ledger stored, from the beginning if there is none above 0. */
  lemma ResumesAtHighest(w: World)
    ensures var cursor := Act(w, Restart(true)).cursor;
      if forall i :: 0 <= i < |w.rows| ==> w.rows[i].ledger == 0 then cursor == FromGenesis
      else
        && cursor.FromLedger? && (forall i :: 0 <= i < |w.rows| ==> w.rows[i].ledger <= cursor.ledger)
        && exists i :: 0 <= i < |w.rows| && w.rows[i].ledger == cursor.ledger
    ensures Act(w, Restart(false)).cursor == FromGenesis
  {
    MaxLedgerReached(w.rows);
  }

  lemma {:induction false} StoredAfterAll(rows: seq<Row>, events: seq<RawEvent>, key: (string, nat))
    ensures Stored(StoreAll(rows, events), key)
      <==> Stored(rows, key) || exists i :: 0 <= i < |events| && Parse(events[i]).Some? && KeyOf(events[i]) == key
  {
    hide Parse, KeyOf;
    if events != [] {
      StoredAfterAll(rows, events[..|events| - 1], key);
      StoredAfter(StoreAll(rows, events[..|events| - 1]), events[|events| - 1], key);
    }
  }

  /** A poll of at most 200 events that breaks off at one of them has stored those before it and no others. */
  lemma BrokenPollStores(w: World, count: nat, faultAt: nat, key: (string, nat))
    ensures var batch := Fetch(w.chain, w.cursor, count);
      && |batch| <= 200
      && (Stored(Act(w, Poll(count, faultAt)).rows, key)
          <==> Stored(w.rows, key) ||
               exists i :: 0 <= i < |batch| && i < faultAt && Parse(batch[i]).Some? && KeyOf(batch[i]) == key)
      && (faultAt < |batch| ==> Act(w, Poll(count, faultAt)).cursor == w.cursor)
  {
    hide Parse, KeyOf, Stored;
    var batch := Fetch(w.chain, w.cursor, count);
    StoredAfterAll(w.rows, batch[..Min(faultAt, |batch|)], key);
  }

  lemma ResumeCovers(w: World, m: nat, readable: bool)
    requires Ordered(w.chain) && Covers(w, m)
    ensures Covers(Act(w, Restart(readable)), m)
  {
    if m > 0 {
      forall i | 0 <= i < m
        ensures w.chain[..m][i].ledger <= w.chain[m - 1].ledger
      {
        assert i < m - 1 ==> Precedes(w.chain, i, m - 1);
      }
      MaxLedgerBound(w.chain[..m], w.chain[m - 1].ledger);
    }
  }

  /** How far a poll gets the table. */
  function PollReach(w: World, m: nat, count: nat, faultAt: nat): nat {
    Max(m, Passed(w.chain, w.cursor) + Min(faultAt, |Fetch(w.chain, w.cursor, count)|))
  }

  lemma PollStores(w: World, m: nat, count: nat, faultAt: nat)
    requires Ordered(w.chain) && Covers(w, m)
    ensures PollReach(w, m, count, faultAt) <= |w.chain|
    ensures Act(w, Poll(count, faultAt)).rows == Rows(w.chain[..PollReach(w, m, count, faultAt)])
  {
    hide StoreNext;
    CursorWithin(w, m);
    var batch := Fetch(w.chain, w.cursor, count);
    StoreStretch(w.chain, m, Passed(w.chain, w.cursor), batch[..Min(faultAt, |batch|)]);
  }

  lemma PollCovers(w: World, m: nat, count: nat, faultAt: nat)
    requires Ordered(w.chain) && Covers(w, m)
    ensures Covers(Act(w, Poll(count, faultAt)), PollReach(w, m, count, faultAt))
  {
    hide Rows, RowsAfter;
    PollStores(w, m, count, faultAt);
    var reach := PollReach(w, m, count, faultAt);
    if 0 < m < reach {
      assert Precedes(w.chain, m - 1, reach - 1);
    }
    var p, batch := Passed(w.chain, w.cursor), Fetch(w.chain, w.cursor, count);
    if batch != [] && p + |batch| < reach {
      assert Precedes(w.chain, p + |batch| - 1, reach - 1);
    }
  }

  lemma StepCovers(w: World, a: Action, m: nat)
    requires Ordered(Act(w, a).chain) && Ordered(w.chain) && Covers(w, m)
    ensures exists m' :: m <= m' && Covers(Act(w, a), m')
  {
    match a
    case Grow(events) =>
      assert (w.chain + events)[..m] == w.chain[..m];
      assert Covers(Act(w, a), m);
    case Restart(readable) =>
      ResumeCovers(w, m, readable);
    case Poll(count, faultAt) =>
      PollCovers(w, m, count, faultAt);
  }

  lemma OrderedPrefix(shorter: seq<RawEvent>, longer: seq<RawEvent>)
    requires shorter <= longer && Ordered(longer)
    ensures Ordered(shorter)
  {
    forall i, j | 0 <= i < j < |shorter|
      ensures Precedes(shorter, i, j)
    {
      assert Precedes(longer, i, j);
    }
  }

  ghost predicate Consistent(w: World) { exists m :: Covers(w, m) && Passed(w.chain, w.cursor) <= m }

  lemma CoversIsConsistent(w: World, m: nat)
    requires Ordered(w.chain) && Covers(w, m)
    ensures Consistent(w)
  {
    CursorWithin(w, m);
  }

  /**
   * Exactly once, without gaps: whatever faults, crashes, restarts and arrivals there have been, the
   * table is that of some prefix of the stream stored once, the first row per key in order, and the
   * cursor has not passed that prefix.
   */
  lemma {:induction false} ExactlyOnce(w: World, actions: seq<Action>)
    requires w.rows == [] && w.cursor == FromGenesis && Ordered(ActAll(w, actions).chain)
    ensures Consistent(ActAll(w, actions))
  {
    if actions == [] {
      CoversIsConsistent(w, 0);
    } else {
      var before, a := ActAll(w, actions[..|actions| - 1]), actions[|actions| - 1];
      OrderedPrefix(before.chain, Act(before, a).chain);
      ExactlyOnce(w, actions[..|actions| - 1]);
      var m0 :| Covers(before, m0);
      StepCovers(before, a, m0);
      var m :| Covers(Act(before, a), m);
      CoversIsConsistent(Act(before, a), m);
    }
  }

  lemma {:induction false} StoreAppends(rows: seq<Row>, events: seq<RawEvent>)
    ensures rows <= StoreAll(rows, events)
  {
    if events != [] {
      StoreAppends(rows, events[..|events| - 1]);
    }
  }

  /** The table only ever grows at its end, whatever polls, faults, restarts and arrivals there are. */
  lemma {:induction false} RowsAppendOnly(w: World, actions: seq<Action>)
    ensures w.rows <= ActAll(w, actions).rows
  {
    if actions != [] {
      var before := ActAll(w, actions[..|actions| - 1]);
      RowsAppendOnly(w, actions[..|actions| - 1]);
      match actions[|actions| - 1]
      case Poll(count, faultAt) =>
        var batch := Fetch(before.chain, before.cursor, count);
        StoreAppends(before.rows, batch[..Min(faultAt, |batch|)]);
      case _ =>
    }
  }

  // ---------------------------------------------------------------- what the table keeps of a stream

  /** Event `i` is parseable and no earlier parseable event is from the same place. */
  ghost predicate FirstOfKey(events: seq<RawEvent>, i: nat) {
    && i < |events| && Parse(events[i]).Some?
    && forall j :: 0 <= j < i && Parse(events[j]).Some? ==> !SameSource(events[j], events[i])
  }

  /** `r` is the row of an event that comes first with its key. */
  ghost predicate FromFirst(events: seq<RawEvent>, r: Row) {
    exists i: nat :: i < |events| && FirstOfKey(events, i) && Parse(events[i]).value == r
  }

  lemma FirstOfKeySnoc(events: seq<RawEvent>, i: nat)
    requires i < |events|
    ensures var init, last := events[..|events| - 1], events[|events| - 1];
      FirstOfKey(events, i) <==>
        if i < |init| then FirstOfKey(init, i) else Parse(last).Some? && !Stored(Rows(init), KeyOf(last))
  {
    KeysAreSources();
    hide Parse, KeyOf, Rows, SameSource;
    var init := events[..|events| - 1];
    StoredIff(init, KeyOf(events[|init|]));
    assert forall j | 0 <= j < |init| :: events[j] == init[j];
  }

  /** The rows are those of the events that come first with their key, and of no others. */
  lemma {:induction false} RowsAreFirstPerKey(events: seq<RawEvent>, r: Row)
    ensures r in Rows(events) <==> FromFirst(events, r)
  {
    hide Parse, KeyOf, FirstOfKey;
    if events != [] {
      var init, last := events[..|events| - 1], events[|events| - 1];
      RowsAreFirstPerKey(init, r);
      FirstOfKeySnoc(events, |init|);
      forall i: nat | i < |init|
        ensures FirstOfKey(events, i) <==> FirstOfKey(init, i)
      {
        FirstOfKeySnoc(events, i);
      }
    }
  }

  /** One row per parseable event, keys or no keys. */
  function AllRows(events: seq<RawEvent>): seq<Row> {
    if events == [] then []
    else
      var r := Parse(events[|events| - 1]);
      AllRows(events[..|events| - 1]) + (if r.Some? then [r.value] else [])
  }

  ghost predicate DistinctKeys(events: seq<RawEvent>) {
    forall i, j :: 0 <= i < j < |events| && Parse(events[i]).Some? && Parse(events[j]).Some? ==>
      !SameSource(events[i], events[j])
  }

  lemma DistinctSnoc(events: seq<RawEvent>)
    requires events != []
    ensures var init, last := events[..|events| - 1], events[|events| - 1];
      DistinctKeys(events) <==> DistinctKeys(init) && !(Parse(last).Some? && Stored(Rows(init), KeyOf(last)))
  {
    KeysAreSources();
    hide Parse, KeyOf, Rows, SameSource;
    var init, last := events[..|events| - 1], events[|events| - 1];
    StoredIff(init, KeyOf(last));
    assert forall i | 0 <= i < |init| :: events[i] == init[i];
  }

  lemma {:induction false} CollisionsShorten(events: seq<RawEvent>)
    ensures |Rows(events)| <= |AllRows(events)|
    ensures DistinctKeys(events) ==> Rows(events) == AllRows(events)
    ensures !DistinctKeys(events) ==> |Rows(events)| < |AllRows(events)|
  {
    hide Parse, KeyOf;
    if events != [] {
      DistinctSnoc(events);
      CollisionsShorten(events[..|events| - 1]);
    }
  }

  /** The table holds every parseable event, each once, if and only if their keys are distinct. */
  lemma NothingLostIff(events: seq<RawEvent>)
    ensures Rows(events) == AllRows(events) <==> DistinctKeys(events)
  {
    CollisionsShorten(events);
  }

  lemma SharedKeyLoses(first: RawEvent, second: RawEvent)
    requires Parse(first).Some? && Parse(second).Some? && KeyOf(first) == KeyOf(second)
    ensures Rows([first, second]) == [Parse(first).value]
  {
    hide Parse, KeyOf;
    var one, two := [first], [first, second];
    assert one[..|one| - 1] == [] && two[..|two| - 1] == one;
    assert Rows(one[..|one| - 1]) == [];
    assert Rows(one) == StoreNext(Rows(one[..|one| - 1]), first) == [Parse(first).value];
    assert RowKey(Rows(one)[0]) == KeyOf(second);
  }

  /** Two events of one transaction with different third id parts are both stored, in order. */
  lemma ThirdPartsTellApart(first: RawEvent, second: RawEvent)
    requires Parse(first).Some? && Parse(second).Some? && first.txHash == second.txHash
    requires |first.idParts| >= 3 && |second.idParts| >= 3 && first.idParts[2] != second.idParts[2]
    ensures Rows([first, second]) == [Parse(first).value, Parse(second).value]
  {
    NothingLostIff([first, second]);
    assert [first, second][..1] == [first] && [first][..0] == [];
    assert AllRows([first]) == [Parse(first).value];
  }

  /** Two events of one transaction whose ids have fewer than three parts collide: the second is lost. */
  lemma ShortIdsCollide(first: RawEvent, second: RawEvent)
    requires Parse(first).Some? && Parse(second).Some?
    requires first.txHash.Some? && first.txHash == second.txHash && |first.idParts| < 3 && |second.idParts| < 3
    ensures Rows([first, second]) == [Parse(first).value]
  {
    SharedKeyLoses(first, second);
  }

  lemma {:induction false} PassedAll(chain: seq<RawEvent>, cursor: Cursor, q: nat)
    requires q <= |chain| && forall i :: 0 <= i < q ==> !Ahead(cursor, chain[i])
    ensures q <= Passed(chain, cursor)
  {
    if q > 0 {
      PassedAll(chain[1..], cursor, q - 1);
    }
  }

  /** A faultless poll moves the cursor past exactly the batch it fetched. */
  lemma PollAdvances(w: World, count: nat, faultAt: nat)
    requires Ordered(w.chain) && faultAt >= PAGE_LIMIT
    ensures var w' := Act(w, Poll(count, faultAt));
      Passed(w'.chain, w'.cursor) == Passed(w.chain, w.cursor) + |Fetch(w.chain, w.cursor, count)|
  {
    var p, batch := Passed(w.chain, w.cursor), Fetch(w.chain, w.cursor, count);
    if batch != [] {
      var q := p + |batch|;
      var cursor := AfterToken(w.chain[q - 1].token);
      forall i | 0 <= i < q
        ensures !Ahead(cursor, w.chain[i])
      {
        assert i < q - 1 ==> Precedes(w.chain, i, q - 1);
      }
      PassedAll(w.chain, cursor, q);
      if q < |w.chain| {
        assert Precedes(w.chain, q - 1, q);
        PassedBound(w.chain, cursor, q);
      }
    }
  }

  /** Whenever the cursor is at the end of the stream, the table is complete. */
  lemma IdleMeansComplete(w: World)
    requires Consistent(w) && Passed(w.chain, w.cursor) == |w.chain|
    ensures w.rows == Rows(w.chain)
  {
    assert w.chain[..|w.chain|] == w.chain;
  }

  /** Full, faultless polls one after another. */
  function PollFully(w: World, polls: nat): World {
    if polls == 0 then w else Act(PollFully(w, polls - 1), Poll(PAGE_LIMIT, PAGE_LIMIT))
  }

  lemma FullPage(w: World)
    requires Ordered(w.chain) && Consistent(w)
    ensures var w' := Act(w, Poll(PAGE_LIMIT, PAGE_LIMIT));
      && w'.chain == w.chain && Consistent(w')
      && Passed(w'.chain, w'.cursor) == Min(Passed(w.chain, w.cursor) + PAGE_LIMIT, |w.chain|)
  {
    hide Covers, Passed, RowsAfter, CursorAfter;
    PollAdvances(w, PAGE_LIMIT, PAGE_LIMIT);
    var m :| Covers(w, m);
    PollCovers(w, m, PAGE_LIMIT, PAGE_LIMIT);
    CoversIsConsistent(Act(w, Poll(PAGE_LIMIT, PAGE_LIMIT)), PollReach(w, m, PAGE_LIMIT, PAGE_LIMIT));
  }

  lemma {:induction false} PollsAdvance(w: World, polls: nat)
    requires Ordered(w.chain) && Consistent(w)
    ensures var w' := PollFully(w, polls);
      && w'.chain == w.chain && Consistent(w')
      && Passed(w'.chain, w'.cursor) >= Min(polls * PAGE_LIMIT, |w.chain|)
  {
    hide Act, Passed, Consistent;
    if polls > 0 {
      PollsAdvance(w, polls - 1);
      FullPage(PollFully(w, polls - 1));
    }
  }

  /** Catching up: after any history of faults, enough faultless pages complete the table. */
  lemma CatchUp(w: World, actions: seq<Action>, polls: nat)
    requires w.rows == [] && w.cursor == FromGenesis && Ordered(ActAll(w, actions).chain)
    requires polls * 200 >= |ActAll(w, actions).chain|
    ensures PollFully(ActAll(w, actions), polls).rows == Rows(ActAll(w, actions).chain)
  {
    ExactlyOnce(w, actions);
    PollsAdvance(ActAll(w, actions), polls);
    IdleMeansComplete(PollFully(ActAll(w, actions), polls));
  }
}
