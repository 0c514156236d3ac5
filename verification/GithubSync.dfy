/** The GitHub reconciliation transaction on the `github_issues` table. */
module GithubSync {
  import opened Prelude

  /** `content` stands for the columns a conflict update overwrites: title, URL, labels, author, update time. */
  datatype Issue = Issue(id: nat, number: nat, content: string, createdAt: nat)

  datatype Row = Row(owner: string, repo: string, number: nat, content: string, createdAt: nat, isOpen: bool)

  type Table = map<nat, Row>

  datatype Outcome = Committed(upserted: nat, closed: nat) | RolledBack

  function Ids(issues: seq<Issue>): set<nat> { set i | i in issues :: i.id }

  predicate Belongs(r: Row, owner: string, repo: string) { r.owner == owner && r.repo == repo }

  function OpenIds(rows: Table, owner: string, repo: string): set<nat> {
    set id | id in rows && Belongs(rows[id], owner, repo) && rows[id].isOpen
  }

  /** INSERT ... ON CONFLICT (id) DO UPDATE: a conflict keeps owner, repo, number and creation time. */
  function Upsert(rows: Table, owner: string, repo: string, issue: Issue): Table {
    rows[issue.id :=
      if issue.id in rows then rows[issue.id].(content := issue.content, isOpen := true)
      else Row(owner, repo, issue.number, issue.content, issue.createdAt, true)]
  }

  function UpsertAll(rows: Table, owner: string, repo: string, issues: seq<Issue>): Table {
    if issues == [] then rows
    else Upsert(UpsertAll(rows, owner, repo, issues[..|issues| - 1]), owner, repo, issues[|issues| - 1])
  }

  /** The rows the closing UPDATE matches; no fetched ids at all means it matches every open row of the repo. */
  function Matched(rows: Table, owner: string, repo: string, ids: set<nat>): set<nat> {
    set id | id in rows && Belongs(rows[id], owner, repo) && rows[id].isOpen && (ids == {} || id !in ids)
  }

  function CloseMissing(rows: Table, owner: string, repo: string, ids: set<nat>): Table {
    map id | id in rows :: if id in Matched(rows, owner, repo, ids) then rows[id].(isOpen := false) else rows[id]
  }

  function Synced(rows: Table, owner: string, repo: string, issues: seq<Issue>): Table {
    CloseMissing(UpsertAll(rows, owner, repo, issues), owner, repo, Ids(issues))
  }

  function ClosedBy(rows: Table, owner: string, repo: string, issues: seq<Issue>): set<nat> {
    Matched(UpsertAll(rows, owner, repo, issues), owner, repo, Ids(issues))
  }

  class IssueDb {
    var rows: Table

    constructor ()
      ensures rows == map[]
    {
      rows := map[];
    }

    /**
     * BEGIN, one upsert per issue, the closing update, COMMIT; ROLLBACK if a statement throws.
     * `faultAt` numbers the throwing statement: the upserts first, then the update, then the commit;
     * beyond those there is no fault.
     */
    method SyncIssuesToDb(owner: string, repo: string, issues: seq<Issue>, faultAt: nat) returns (r: Outcome)
      modifies this
      ensures faultAt <= |issues| + 1 ==> r == RolledBack && rows == old(rows)
      ensures faultAt > |issues| + 1 ==>
        && r == Committed(|issues|, |Vanished(old(rows), owner, repo, issues)|)
        && rows == Synced(old(rows), owner, repo, issues)
    {
      var snapshot := rows;
      var upserted := 0;
      while upserted < |issues|
        invariant 0 <= upserted <= |issues| && upserted <= faultAt
        invariant rows == UpsertAll(old(rows), owner, repo, issues[..upserted])
      {
        if upserted == faultAt {
          rows := snapshot;
          return RolledBack;
        }
        assert issues[..upserted + 1][..upserted] == issues[..upserted];
        rows := Upsert(rows, owner, repo, issues[upserted]);
        upserted := upserted + 1;
      }
      assert issues[..|issues|] == issues;
      var openIds := Ids(issues);
      if faultAt == |issues| {
        rows := snapshot;
        return RolledBack;
      }
      var closed := |Matched(rows, owner, repo, openIds)|;
      rows := CloseMissing(rows, owner, repo, openIds);
      if faultAt == |issues| + 1 {
        rows := snapshot;
        return RolledBack;
      }
      ClosesVanished(old(rows), owner, repo, issues);
      return Committed(upserted, closed);
    }
  }

  // ---------------------------------------------------------------- what a committed sync achieves

  /** The last fetched record with the id. */
  function LatestOf(issues: seq<Issue>, id: nat): Option<Issue> {
    if issues == [] then None
    else if issues[|issues| - 1].id == id then Some(issues[|issues| - 1])
    else LatestOf(issues[..|issues| - 1], id)
  }

  /** The first fetched record with the id. */
  function FirstOf(issues: seq<Issue>, id: nat): Option<Issue> {
    if issues == [] then None
    else
      var earlier := FirstOf(issues[..|issues| - 1], id);
      if earlier.Some? then earlier else if issues[|issues| - 1].id == id then Some(issues[|issues| - 1]) else None
  }

  /** The row a fetched id ends up with: a stored one is updated, a new one is made from its first record. */
  function FetchedRow(rows: Table, owner: string, repo: string, issues: seq<Issue>, id: nat): Row
    requires FirstOf(issues, id).Some? && LatestOf(issues, id).Some?
  {
    var first, latest := FirstOf(issues, id).value, LatestOf(issues, id).value;
    if id in rows then rows[id].(content := latest.content, isOpen := true)
    else Row(owner, repo, first.number, latest.content, first.createdAt, true)
  }

  lemma IdsSnoc(issues: seq<Issue>)
    requires issues != []
    ensures Ids(issues) == Ids(issues[..|issues| - 1]) + {issues[|issues| - 1].id}
  {
    var init, last := issues[..|issues| - 1], issues[|issues| - 1];
    assert issues == init + [last];
    forall id
      ensures id in Ids(issues) <==> id in Ids(init) || id == last.id
    {
      assert last in issues && forall i | i in init :: i in issues;
    }
  }

  /** Upserting opens exactly the fetched ids, gives each its latest content, and touches nothing else. */
  lemma {:induction false} UpsertEffect(rows: Table, owner: string, repo: string, issues: seq<Issue>, id: nat)
    ensures id in UpsertAll(rows, owner, repo, issues) <==> id in rows || id in Ids(issues)
    ensures id in rows && id !in Ids(issues) ==> UpsertAll(rows, owner, repo, issues)[id] == rows[id]
    ensures id in Ids(issues) <==> LatestOf(issues, id).Some?
    ensures LatestOf(issues, id).Some? <==> FirstOf(issues, id).Some?
    ensures id in Ids(issues) ==>
      UpsertAll(rows, owner, repo, issues)[id] == FetchedRow(rows, owner, repo, issues, id)
  {
    if issues != [] {
      UpsertEffect(rows, owner, repo, issues[..|issues| - 1], id);
      IdsSnoc(issues);
    }
  }

  /** No fetched id is stored under another repository. */
  predicate NoneForeign(rows: Table, owner: string, repo: string, issues: seq<Issue>) {
    forall id :: id in Ids(issues) && id in rows ==> Belongs(rows[id], owner, repo)
  }

  /** Each row after the sync, in terms of the row before. */
  lemma SyncedRow(rows: Table, owner: string, repo: string, issues: seq<Issue>, id: nat)
    ensures id in Synced(rows, owner, repo, issues) <==> id in rows || id in Ids(issues)
    ensures id in Ids(issues) ==>
      && FirstOf(issues, id).Some? && LatestOf(issues, id).Some?
      && Synced(rows, owner, repo, issues)[id] == FetchedRow(rows, owner, repo, issues, id)
    ensures id in rows && id !in Ids(issues) ==>
      Synced(rows, owner, repo, issues)[id] == if Belongs(rows[id], owner, repo) then rows[id].(isOpen := false)
        else rows[id]
  {
    UpsertEffect(rows, owner, repo, issues, id);
  }

  /**
   * A committed sync makes the repository's open rows exactly the fetched ids, none if the fetch
   * was empty, if and only if no fetched id was stored under another repository.
   */
  lemma SyncReconciles(rows: Table, owner: string, repo: string, issues: seq<Issue>)
    ensures OpenIds(Synced(rows, owner, repo, issues), owner, repo) == Ids(issues)
      <==> NoneForeign(rows, owner, repo, issues)
  {
    var rows', ids := Synced(rows, owner, repo, issues), Ids(issues);
    forall id
      ensures id in OpenIds(rows', owner, repo) <==> id in ids && (id in rows ==> Belongs(rows[id], owner, repo))
    {
      SyncedRow(rows, owner, repo, issues, id);
    }
  }

  /** Without foreign ids, every other repository's rows stay as they were, and none are added. */
  lemma OtherReposUntouched(rows: Table, owner: string, repo: string, issues: seq<Issue>, id: nat)
    requires NoneForeign(rows, owner, repo, issues)
    ensures var rows' := Synced(rows, owner, repo, issues);
      && (id in rows && !Belongs(rows[id], owner, repo) ==> id in rows' && rows'[id] == rows[id])
      && (id in rows' && !Belongs(rows'[id], owner, repo) ==> id in rows && rows[id] == rows'[id])
  {
    SyncedRow(rows, owner, repo, issues, id);
  }

  /** The sync reports as closed exactly the rows that were open and were not fetched. */
  lemma ReportsWhatItCloses(rows: Table, owner: string, repo: string, issues: seq<Issue>)
    ensures ClosedBy(rows, owner, repo, issues) == OpenIds(rows, owner, repo) - Ids(issues)
  {
    forall id
      ensures id in ClosedBy(rows, owner, repo, issues) <==> id in OpenIds(rows, owner, repo) - Ids(issues)
    {
      UpsertEffect(rows, owner, repo, issues, id);
    }
  }

  /** The open rows with exactly this owner and this repository that the fetch does not list. */
  ghost function Vanished(rows: Table, owner: string, repo: string, issues: seq<Issue>): set<nat> {
    set id | id in rows && rows[id].owner == owner && rows[id].repo == repo && rows[id].isOpen
      && forall i :: i in issues ==> i.id != id
  }

  /**
   * The fate of a stored row that was not fetched, column by column: one of another owner or another
   * repository stays as it was, any other is closed and keeps the rest.
   */
  lemma UnfetchedRow(rows: Table, owner: string, repo: string, issues: seq<Issue>, id: nat)
    requires id in rows && forall i :: i in issues ==> i.id != id
    ensures var rows' := Synced(rows, owner, repo, issues);
      && id in rows'
      && (rows[id].owner != owner || rows[id].repo != repo ==> rows'[id] == rows[id])
      && (rows[id].owner == owner && rows[id].repo == repo ==> rows'[id] == rows[id].(isOpen := false))
  {
    SyncedRow(rows, owner, repo, issues, id);
  }

  /** A row goes from open to closed if and only if it has vanished, and the sync reports how many have. */
  lemma ClosesVanished(rows: Table, owner: string, repo: string, issues: seq<Issue>)
    ensures var rows' := Synced(rows, owner, repo, issues);
      && (forall id :: id in rows && rows[id].isOpen ==>
            id in rows' && (!rows'[id].isOpen <==> id in Vanished(rows, owner, repo, issues)))
      && (forall id :: id in rows' && id !in rows ==> rows'[id].isOpen && exists i :: i in issues && i.id == id)
      && ClosedBy(rows, owner, repo, issues) == Vanished(rows, owner, repo, issues)
  {
    var rows' := Synced(rows, owner, repo, issues);
    forall id
      ensures id in rows && rows[id].isOpen ==>
        id in rows' && (!rows'[id].isOpen <==> id in Vanished(rows, owner, repo, issues))
      ensures id in rows' && id !in rows ==> rows'[id].isOpen && exists i :: i in issues && i.id == id
      ensures id in ClosedBy(rows, owner, repo, issues) <==> id in Vanished(rows, owner, repo, issues)
    {
      SyncedRow(rows, owner, repo, issues, id);
      UpsertEffect(rows, owner, repo, issues, id);
    }
  }

  /** Repeating a sync closes nothing and changes nothing. */
  lemma SyncIsIdempotent(rows: Table, owner: string, repo: string, issues: seq<Issue>)
    ensures var rows' := Synced(rows, owner, repo, issues);
      Synced(rows', owner, repo, issues) == rows' && |ClosedBy(rows', owner, repo, issues)| == 0
  {
    var rows' := Synced(rows, owner, repo, issues);
    var rows'' := Synced(rows', owner, repo, issues);
    forall id
      ensures id in rows'' <==> id in rows'
      ensures id in rows' ==> rows''[id] == rows'[id]
      ensures id !in OpenIds(rows', owner, repo) - Ids(issues)
    {
      SyncedRow(rows, owner, repo, issues, id);
      SyncedRow(rows', owner, repo, issues, id);
    }
    assert rows'' == rows';
    ReportsWhatItCloses(rows', owner, repo, issues);
    assert ClosedBy(rows', owner, repo, issues) == {};
  }

  /** The two halves of the condition are needed: a foreign id is taken for open in the wrong repository. */
  lemma ForeignIdEscapes(id: nat, owner: string, repo: string, other: string, content: string)
    requires other != owner
    ensures var rows := map[id := Row(other, repo, 1, content, 0, false)];
      var rows' := Synced(rows, owner, repo, [Issue(id, 1, content, 0)]);
      OpenIds(rows', owner, repo) == {} && id in OpenIds(rows', other, repo)
  {
    var issues := [Issue(id, 1, content, 0)];
    var rows := map[id := Row(other, repo, 1, content, 0, false)];
    assert issues[0] in issues;
    forall k
      ensures k !in OpenIds(Synced(rows, owner, repo, issues), owner, repo)
    {
      SyncedRow(rows, owner, repo, issues, k);
    }
    SyncedRow(rows, owner, repo, issues, id);
  }

  /** The same with another repository of the same owner. */
  lemma ForeignRepoEscapes(id: nat, owner: string, repo: string, other: string, content: string)
    requires other != repo
    ensures var rows := map[id := Row(owner, other, 1, content, 0, false)];
      var rows' := Synced(rows, owner, repo, [Issue(id, 1, content, 0)]);
      OpenIds(rows', owner, repo) == {} && id in OpenIds(rows', owner, other)
  {
    var issues := [Issue(id, 1, content, 0)];
    var rows := map[id := Row(owner, other, 1, content, 0, false)];
    assert issues[0] in issues;
    forall k
      ensures k !in OpenIds(Synced(rows, owner, repo, issues), owner, repo)
    {
      SyncedRow(rows, owner, repo, issues, k);
    }
    SyncedRow(rows, owner, repo, issues, id);
  }
}
