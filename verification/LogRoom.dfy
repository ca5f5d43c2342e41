/**
 * The room in the logs of asynchronous indexes. Each index has a log per slot, a write or a
 * deletion adds at most one entry to each, and the script refuses it when one of the logs it
 * would add to is full. A deletion whose refusal names version 1 is taken for a success.
 */
module LogRoom {
  import opened Wrappers
  import opened WritePath

  /** The length of each log, by index and slot. */
  type Logs = map<(string, nat), nat>

  function LogLen(logs: Logs, id: string, slot: nat): nat { if (id, slot) in logs then logs[(id, slot)] else 0 }

  /** One entry after the other is appended. */
  function Pushed(logs: Logs, entries: seq<LogEntry>, slot: nat): Logs {
    if entries == [] then logs
    else
      var before, id := Pushed(logs, entries[..|entries| - 1], slot), entries[|entries| - 1].id;
      before[(id, slot) := LogLen(before, id, slot) + 1]
  }

  /** The check that comes before any entry is appended. */
  predicate NoRoom(logs: Logs, entries: seq<LogEntry>, slot: nat, capacity: nat) {
    exists e <- entries :: LogLen(logs, e.id, slot) >= capacity
  }

  // ----- what a write appends ---------------------------------------------------------------------

  predicate Logging(idx: IndexDef, row: Row) { idx.async && idx.column in row.cols }

  lemma {:induction false} LogsHas(indexes: seq<IndexDef>, pk: string, row: Option<Row>, after: map<string, string>,
      e: LogEntry)
    ensures e in AllLogs(indexes, pk, row, after) <==> exists idx <- indexes :: e in LogsFor(idx, pk, row, after)
  {
    if indexes != [] {
      var front, last := indexes[..|indexes| - 1], indexes[|indexes| - 1];
      LogsHas(front, pk, row, after, e);
      assert forall x :: x in indexes <==> x in front || x == last;
    }
  }

  predicate LogsOne(indexes: seq<IndexDef>, pk: string, row: Option<Row>, after: map<string, string>, id: string) {
    exists idx <- indexes :: idx.id == id && LogsFor(idx, pk, row, after) != []
  }

  /** Each index concerned gets one entry in the slot's log, and no other log changes. */
  lemma {:induction false} PushedLen(logs: Logs, indexes: seq<IndexDef>, pk: string, row: Option<Row>,
      after: map<string, string>, slot: nat, id: string, s: nat)
    requires DistinctIds(indexes)
    ensures LogLen(Pushed(logs, AllLogs(indexes, pk, row, after), slot), id, s)
            == LogLen(logs, id, s) + if s == slot && LogsOne(indexes, pk, row, after, id) then 1 else 0
  {
    if indexes != [] {
      var front, last := indexes[..|indexes| - 1], indexes[|indexes| - 1];
      PushedLen(logs, front, pk, row, after, slot, id, s);
      LastLogs(indexes, pk, row, after, id);
      PushedMore(logs, AllLogs(front, pk, row, after), LogsFor(last, pk, row, after), slot, id, s);
    }
  }

  /** At most one entry more, for the last index. */
  lemma PushedMore(logs: Logs, before: seq<LogEntry>, own: seq<LogEntry>, slot: nat, id: string, s: nat)
    requires |own| <= 1
    ensures LogLen(Pushed(logs, before + own, slot), id, s)
            == LogLen(Pushed(logs, before, slot), id, s) + if own != [] && own[0].id == id && s == slot then 1 else 0
  {
    assert own == [] ==> before + own == before;
    assert own != [] ==> (before + own)[..|before|] == before;
  }

  lemma LastLogs(indexes: seq<IndexDef>, pk: string, row: Option<Row>, after: map<string, string>, id: string)
    requires DistinctIds(indexes) && indexes != []
    ensures var front, last := indexes[..|indexes| - 1], indexes[|indexes| - 1];
            var own := LogsFor(last, pk, row, after);
            && DistinctIds(front) && |own| <= 1 && (own != [] ==> own[0].id == last.id)
            && (LogsOne(indexes, pk, row, after, id) <==>
                  LogsOne(front, pk, row, after, id) || (own != [] && last.id == id))
            && !(LogsOne(front, pk, row, after, id) && last.id == id)
  {
    var front, last := indexes[..|indexes| - 1], indexes[|indexes| - 1];
    assert forall x :: x in indexes <==> x in front || x == last;
    forall x | x in front ensures x.id != last.id {
      var i :| 0 <= i < |front| && front[i] == x;
      assert indexes[i].id != indexes[|indexes| - 1].id;
    }
  }

  /** Appending within room keeps every log within its capacity. */
  lemma PushedFits(logs: Logs, indexes: seq<IndexDef>, pk: string, row: Option<Row>, after: map<string, string>,
      slot: nat, capacity: nat)
    requires DistinctIds(indexes) && !NoRoom(logs, AllLogs(indexes, pk, row, after), slot, capacity)
    requires forall id: string, s: nat :: LogLen(logs, id, s) <= capacity
    ensures forall id: string, s: nat ::
              LogLen(Pushed(logs, AllLogs(indexes, pk, row, after), slot), id, s) <= capacity
  {
    hide AllLogs;
    forall id: string, s: nat
      ensures LogLen(Pushed(logs, AllLogs(indexes, pk, row, after), slot), id, s) <= capacity
    {
      PushedLen(logs, indexes, pk, row, after, slot, id, s);
      if idx :| idx in indexes && idx.id == id && LogsFor(idx, pk, row, after) != [] {
        var e := LogsFor(idx, pk, row, after)[0];
        LogsHas(indexes, pk, row, after, e);
      }
    }
  }

  // ----- deletions ------------------------------------------------------------------------------------

  /** A deletion of the row would be refused. */
  predicate RefusedIn(indexes: seq<IndexDef>, slotOf: string -> nat, capacity: nat, rows: map<string, Row>, logs: Logs,
      pk: string) {
    && pk in rows
    && exists idx <- indexes :: Logging(idx, rows[pk]) && LogLen(logs, idx.id, slotOf(pk)) >= capacity
  }

  lemma RefusedIff(indexes: seq<IndexDef>, slotOf: string -> nat, capacity: nat, rows: map<string, Row>, logs: Logs,
      pk: string)
    requires pk in rows
    ensures NoRoom(logs, AllLogs(indexes, pk, Some(rows[pk]), map[]), slotOf(pk), capacity)
            <==> RefusedIn(indexes, slotOf, capacity, rows, logs, pk)
  {
    hide AllLogs;
    var entries := AllLogs(indexes, pk, Some(rows[pk]), map[]);
    if e :| e in entries && LogLen(logs, e.id, slotOf(pk)) >= capacity {
      LogsHas(indexes, pk, Some(rows[pk]), map[], e);
    }
    if idx :| idx in indexes && Logging(idx, rows[pk]) && LogLen(logs, idx.id, slotOf(pk)) >= capacity {
      var e := LogsFor(idx, pk, Some(rows[pk]), map[])[0];
      LogsHas(indexes, pk, Some(rows[pk]), map[], e);
    }
  }

  // ----- rows against room ------------------------------------------------------------------------------

  /** The rows whose deletion leaves an entry in the index's log of the slot. */
  function Users(rows: map<string, Row>, slotOf: string -> nat, idx: IndexDef, slot: nat): set<string> {
    set pk <- rows | slotOf(pk) == slot && idx.column in rows[pk].cols
  }

  /** The length that the log will have when all these rows are deleted. */
  function Load(rows: map<string, Row>, logs: Logs, slotOf: string -> nat, idx: IndexDef, slot: nat): nat {
    LogLen(logs, idx.id, slot) + |Users(rows, slotOf, idx, slot)|
  }

  /** Every asynchronous index's logs have room for the deletion of all rows. */
  ghost predicate Fits(indexes: seq<IndexDef>, slotOf: string -> nat, capacity: nat, rows: map<string, Row>,
      logs: Logs) {
    forall idx <- indexes, slot: nat :: idx.async ==> Load(rows, logs, slotOf, idx, slot) <= capacity
  }

  ghost predicate SameLoads(indexes: seq<IndexDef>, slotOf: string -> nat, rows: map<string, Row>, logs: Logs,
      rows': map<string, Row>, logs': Logs) {
    forall idx <- indexes, slot: nat :: idx.async ==>
      Load(rows', logs', slotOf, idx, slot) == Load(rows, logs, slotOf, idx, slot)
  }

  /** A deletion uses the room that its row has taken up, so rows and entries together stay as many. */
  lemma DeletionKeepsLoads(indexes: seq<IndexDef>, slotOf: string -> nat, rows: map<string, Row>, logs: Logs,
      pk: string)
    requires DistinctIds(indexes) && pk in rows
    ensures var logs' := Pushed(logs, AllLogs(indexes, pk, Some(rows[pk]), map[]), slotOf(pk));
            SameLoads(indexes, slotOf, rows, logs, rows - {pk}, logs')
  {
    hide AllLogs, Pushed;
    forall idx, slot: nat | idx in indexes && idx.async
      ensures Load(rows - {pk}, Pushed(logs, AllLogs(indexes, pk, Some(rows[pk]), map[]), slotOf(pk)), slotOf, idx,
          slot)
              == Load(rows, logs, slotOf, idx, slot)
    {
      PushedLen(logs, indexes, pk, Some(rows[pk]), map[], slotOf(pk), idx.id, slot);
      OneLogs(indexes, idx, pk, rows[pk]);
      UsersWithout(rows, slotOf, idx, slot, pk);
    }
  }

  lemma OneLogs(indexes: seq<IndexDef>, idx: IndexDef, pk: string, row: Row)
    requires DistinctIds(indexes) && idx in indexes && idx.async
    ensures LogsOne(indexes, pk, Some(row), map[], idx.id) <==> idx.column in row.cols
  {
    forall other | other in indexes && other.id == idx.id ensures other == idx {
    }
  }

  lemma UsersWithout(rows: map<string, Row>, slotOf: string -> nat, idx: IndexDef, slot: nat, pk: string)
    requires pk in rows
    ensures |Users(rows, slotOf, idx, slot)| == |Users(rows - {pk}, slotOf, idx, slot)| +
        if slotOf(pk) == slot && idx.column in rows[pk].cols then 1 else 0
  {
    var with, less := Users(rows, slotOf, idx, slot), Users(rows - {pk}, slotOf, idx, slot);
    if slotOf(pk) == slot && idx.column in rows[pk].cols {
      assert with == less + {pk};
    } else {
      assert with == less;
    }
  }

  /** With room for all, none is refused. */
  lemma FitsRefusesNone(indexes: seq<IndexDef>, slotOf: string -> nat, capacity: nat, rows: map<string, Row>,
      logs: Logs, pk: string)
    requires Fits(indexes, slotOf, capacity, rows, logs)
    ensures !RefusedIn(indexes, slotOf, capacity, rows, logs, pk)
  {
    forall idx | idx in indexes && pk in rows && Logging(idx, rows[pk])
      ensures LogLen(logs, idx.id, slotOf(pk)) < capacity
    {
      assert Load(rows, logs, slotOf, idx, slotOf(pk)) <= capacity;
      UsersWithout(rows, slotOf, idx, slotOf(pk), pk);
    }
  }

  /** Without it, rows are left as long as no log is longer than its capacity. */
  lemma UnfitLeavesRows(indexes: seq<IndexDef>, slotOf: string -> nat, capacity: nat, rows: map<string, Row>,
      logs: Logs)
    requires !Fits(indexes, slotOf, capacity, rows, logs)
    requires forall id: string, s: nat :: LogLen(logs, id, s) <= capacity
    ensures rows != map[]
  {
    var idx, slot: nat :| idx in indexes && idx.async && Load(rows, logs, slotOf, idx, slot) > capacity;
    assert Users(rows, slotOf, idx, slot) != {};
  }

  lemma LoadsKeepFit(indexes: seq<IndexDef>, slotOf: string -> nat, capacity: nat, rows: map<string, Row>, logs: Logs,
      rows': map<string, Row>, logs': Logs)
    requires SameLoads(indexes, slotOf, rows, logs, rows', logs')
    ensures Fits(indexes, slotOf, capacity, rows, logs) <==> Fits(indexes, slotOf, capacity, rows', logs')
  {
    hide Load;
  }
}
