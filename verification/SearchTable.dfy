/** The search_queue table: each SQL statement of the queue is one atomic change of `rows`.
    The functions say what a statement does to a table; class Database performs it. */
module SearchTable {
  import opened Wrappers
  import opened Seqs

  datatype Status = Pending | Processing | Completed | Retry | Failed

  /** The columns the queue logic reads. `createdAt` is the stamp that orders the queue. */
  datatype Row = Row(status: Status, createdAt: nat, retryCount: nat, listId: Option<nat>)

  type Table = map<nat, Row>

  predicate Waiting(rows: Table, id: nat) {
    id in rows && (rows[id].status.Pending? || rows[id].status.Retry?)
  }

  predicate InProgress(rows: Table, id: nat) {
    id in rows && rows[id].status.Processing?
  }

  /** `id` is a waiting row with the smallest stamp. */
  ghost predicate IsNext(rows: Table, id: nat) {
    && Waiting(rows, id)
    && forall other | Waiting(rows, other) :: rows[id].createdAt <= rows[other].createdAt
  }

  ghost predicate DistinctStamps(rows: Table) {
    forall a, b | a in rows && b in rows && rows[a].createdAt == rows[b].createdAt :: a == b
  }

  /** The waiting rows in front of `id`. */
  ghost function Ahead(rows: Table, id: nat): set<nat>
    requires id in rows
  {
    set other | other in rows && Waiting(rows, other) && rows[other].createdAt < rows[id].createdAt
  }

  ghost function InProgressRows(rows: Table): set<nat> {
    set id | id in rows && InProgress(rows, id)
  }

  function WithStatus(rows: Table, id: nat, status: Status): Table {
    if id in rows then rows[id := rows[id].(status := status)] else rows
  }

  function Requeued(rows: Table, id: nat, now: nat): Table {
    if id in rows then
      rows[id := rows[id].(status := Retry, retryCount := rows[id].retryCount + 1, createdAt := now)]
    else
      rows
  }

  function WithoutIfStatus(rows: Table, id: nat, status: Status): Table {
    if id in rows && rows[id].status == status then rows - {id} else rows
  }

  predicate PendingInList(row: Row, list: nat) {
    row.status.Pending? && row.listId == Some(list)
  }

  function WithoutPendingInList(rows: Table, list: nat): Table {
    map id | id in rows && !PendingInList(rows[id], list) :: rows[id]
  }

  predicate InList(row: Row, list: nat) {
    row.listId == Some(list)
  }

  /** The rows of a deleted list go with it. */
  function WithoutList(rows: Table, list: nat): Table {
    map id | id in rows && !InList(rows[id], list) :: rows[id]
  }

  function Recovered(rows: Table): Table {
    map id | id in rows :: if rows[id].status.Processing? then rows[id].(status := Pending) else rows[id]
  }

  /** With distinct stamps the row that is claimed next is determined by the table. */
  lemma NextIsUnique(rows: Table, a: nat, b: nat)
    requires DistinctStamps(rows) && IsNext(rows, a) && IsNext(rows, b)
    ensures a == b
  {
    assert rows[a].createdAt == rows[b].createdAt;
  }

  /** The database handle. `nextId` is the AUTOINCREMENT counter, so ids are never reused;
      `clock` is the next CURRENT_TIMESTAMP. */
  class Database {
    var rows: Table
    var nextId: nat
    var clock: nat

    ghost predicate Valid()
      reads this
    {
      && (forall id | id in rows :: id < nextId && rows[id].createdAt < clock)
      && DistinctStamps(rows)
    }

    constructor ()
      ensures Valid() && rows == map[]
    {
      rows, nextId, clock := map[], 0, 0;
    }

    method EnqueueSearch(listId: Option<nat>) returns (id: nat)
      requires Valid()
      modifies this
      ensures Valid()
      ensures id == old(nextId) && id !in old(rows)
      ensures rows == old(rows)[id := Row(Pending, old(clock), 0, listId)]
      ensures nextId == old(nextId) + 1 && clock == old(clock) + 1
    {
      id := nextId;
      rows := rows[id := Row(Pending, clock, 0, listId)];
      nextId, clock := nextId + 1, clock + 1;
    }

    /** SELECT the oldest waiting row, then UPDATE it to 'processing', in one transaction. */
    method ClaimNextPendingSearch() returns (claimed: Option<nat>)
      requires Valid()
      modifies `rows
      ensures Valid()
      ensures claimed.None? <==> forall id :: !Waiting(old(rows), id)
      ensures claimed.None? ==> rows == old(rows)
      ensures claimed.Some? ==> IsNext(old(rows), claimed.value)
      ensures claimed.Some? ==> rows == WithStatus(old(rows), claimed.value, Processing)
    {
      claimed := None;
      var unread := rows.Keys;
      while unread != {}
        invariant unread <= rows.Keys
        invariant claimed.Some? ==> Waiting(rows, claimed.value) && claimed.value !in unread
        invariant forall id | Waiting(rows, id) && id !in unread ::
          claimed.Some? && rows[claimed.value].createdAt <= rows[id].createdAt
        decreases unread
      {
        var id :| id in unread;
        unread := unread - {id};
        if Waiting(rows, id) && (claimed.None? || rows[id].createdAt < rows[claimed.value].createdAt) {
          claimed := Some(id);
        }
      }
      if claimed.Some? {
        assert Waiting(rows, claimed.value);
        rows := WithStatus(rows, claimed.value, Processing);
      }
    }

    method MarkSearchCompleted(id: nat)
      requires Valid()
      modifies `rows
      ensures Valid() && rows == WithStatus(old(rows), id, Completed)
    {
      if id in rows {
        rows := rows[id := rows[id].(status := Completed)];
      }
    }

    method MarkSearchForRetry(id: nat)
      requires Valid()
      modifies `rows, `clock
      ensures Valid() && rows == Requeued(old(rows), id, old(clock)) && clock == old(clock) + 1
    {
      if id in rows {
        var row := rows[id];
        rows := rows[id := row.(status := Retry, retryCount := row.retryCount + 1, createdAt := clock)];
      }
      clock := clock + 1;
    }

    method DeleteCompletedSearch(id: nat)
      requires Valid()
      modifies `rows
      ensures Valid() && rows == WithoutIfStatus(old(rows), id, Completed)
    {
      if id in rows && rows[id].status == Completed {
        rows := rows - {id};
      }
    }

    method DeleteSearch(id: nat)
      requires Valid()
      modifies `rows
      ensures Valid() && rows == old(rows) - {id}
    {
      rows := rows - {id};
    }

    /** True exactly when a row was removed, which only a 'pending' row can be. */
    method CancelPendingSearch(id: nat) returns (cancelled: bool)
      requires Valid()
      modifies `rows
      ensures Valid() && rows == WithoutIfStatus(old(rows), id, Pending)
      ensures cancelled <==> id in old(rows) && id !in rows
    {
      cancelled := id in rows && rows[id].status == Pending;
      if cancelled {
        rows := rows - {id};
      }
    }

    method CancelListPendingSearches(list: nat) returns (count: nat)
      requires Valid()
      modifies `rows
      ensures Valid() && rows == WithoutPendingInList(old(rows), list)
      ensures count == |old(rows)| - |rows|
    {
      var before := rows;
      rows := WithoutPendingInList(rows, list);
      assert rows.Keys <= before.Keys;
      SubsetSize(rows.Keys, before.Keys);
      assert |rows| == |rows.Keys| && |before| == |before.Keys|;
      count := |before| - |rows|;
    }

    /** DELETE FROM lists; the foreign key takes the list's rows along, whatever their status. */
    method DeleteList(list: nat)
      requires Valid()
      modifies `rows
      ensures Valid() && rows == WithoutList(old(rows), list)
    {
      rows := WithoutList(rows, list);
    }

    method RecoverProcessingSearches() returns (count: nat)
      requires Valid()
      modifies `rows
      ensures Valid() && rows == Recovered(old(rows))
      ensures count == |InProgressRows(old(rows))|
      ensures InProgressRows(rows) == {}
    {
      count := |set id | id in rows && InProgress(rows, id)|;
      rows := Recovered(rows);
    }
  }
}
