/**
 * A table with its expiry registry, its receipts and the room in its logs: serial writes and
 * deletions, the passing of time, the sweeper that clears up after expired rows, and the job that
 * empties a dropped table.
 */
module TableStore {
  import opened Wrappers
  import opened BucketMap
  import opened WritePath
  import opened TableShape
  import opened LogRoom

  /** The registry's score of a key: the second after which it may be swept. */
  datatype Due = Never | Sec(at: nat)

  /** What a write does to the row's time to live. */
  datatype Life = Keep | Forever | For(ms: nat)

  function Old(rows: map<string, Row>, pk: string): Option<Row> { if pk in rows then Some(rows[pk]) else None }

  /** The keys of the list that have no living row. */
  function Dead(rows: map<string, Row>, pks: seq<string>): set<string> { set pk <- pks | pk !in rows }

  function Without(index: Index, gone: set<string>): Index { map e <- index | e.1.pk !in gone :: index[e] }

  /**
   * What the registry, the receipts and the index know of a key that has a living row. A row is
   * leaked when a deletion was refused and taken for a success: its registry entry and its
   * members may be missing.
   */
  ghost predicate LivingOK(cx: Codec, indexes: seq<IndexDef>, docs: map<string, Doc>, now: nat, pk: string, row: Row,
                           expires: map<string, nat>, registry: map<string, Due>, receipts: map<string, seq<Undo>>,
                           index: Index, leaked: set<string>)
    requires ValidDocs(docs)
  {
    && RowOK(cx, indexes, row) && Within(cx, indexes, docs, index, pk, row)
    && (pk !in leaked ==> pk in registry && Exact(cx, indexes, docs, index, pk, row))
    && (pk in expires ==> now < expires[pk] && pk in receipts)
    && (pk in registry ==>
          if pk in expires then registry[pk].Sec? && registry[pk].at * 1000 <= expires[pk] else registry[pk].Never?)
    && (pk in receipts ==> receipts[pk] == ReceiptOf(cx, indexes, pk, row, docs))
  }

  /** And of one that has none: its receipt lists every member that is left. */
  ghost predicate GoneOK(now: nat, pk: string, registry: map<string, Due>, receipts: map<string, seq<Undo>>,
      index: Index, leaked: set<string>) {
    && (pk in registry ==> registry[pk].Sec? && registry[pk].at * 1000 <= now)
    && (pk in receipts ==> (pk in leaked || pk in registry) && forall u <- receipts[pk] :: u.member.pk == pk)
    && (forall k: Key, m: Member :: m.pk == pk && (k, m) in index ==> pk in receipts && Undo(k, m) in receipts[pk])
  }

  function DueAt(registry: map<string, Due>, shardOf: string -> nat, shard: nat, now: nat): set<string> {
    set pk <- registry | shardOf(pk) == shard && registry[pk].Sec? && registry[pk].at < now / 1000
  }

  function NewExpires(expires: map<string, nat>, pk: string, life: Life, now: nat): map<string, nat> {
    match life
    case Keep => expires
    case Forever => expires - {pk}
    case For(ms) => expires[pk := now + ms]
  }

  function NewRegistry(registry: map<string, Due>, pk: string, isNew: bool, life: Life, now: nat): map<string, Due> {
    match life
    case Keep => if isNew then registry[pk := Never] else registry
    case Forever => registry[pk := Never]
    case For(ms) => registry[pk := Sec(now / 1000 + ms / 1000)]
  }

  function NewReceipts(receipts: map<string, seq<Undo>>, pk: string, life: Life,
      receipt: seq<Undo>): map<string, seq<Undo>> {
    if life.Forever? then receipts - {pk} else receipts[pk := receipt]
  }

  /**
   * When the key's row ends, and the second at which the registry has it: a time to live runs
   * from now, a row that lives forever is due never, and one whose time is kept is due as before.
   */
  ghost predicate Timed(expires: map<string, nat>, expires': map<string, nat>, registry: map<string, Due>,
      registry': map<string, Due>, pk: string, isNew: bool, life: Life, now: nat) {
    && (pk in expires' <==> life.For? || (life.Keep? && pk in expires))
    && (pk in expires' ==> expires'[pk] == if life.For? then now + life.ms else expires[pk])
    && (life.For? ==> pk in registry' && registry'[pk] == Sec(now / 1000 + life.ms / 1000))
    && (life.Forever? || (life.Keep? && isNew) ==> pk in registry' && registry'[pk] == Never)
    && (life.Keep? && !isNew ==>
          (pk in registry' <==> pk in registry) && (pk in registry ==> registry'[pk] == registry[pk]))
    && (forall p: string :: p != pk ==>
          && (p in expires' <==> p in expires) && (p in expires ==> expires'[p] == expires[p])
          && (p in registry' <==> p in registry) && (p in registry ==> registry'[p] == registry[p]))
  }

  lemma IsTimed(expires: map<string, nat>, registry: map<string, Due>, pk: string, isNew: bool, life: Life, now: nat)
    ensures Timed(expires, NewExpires(expires, pk, life, now), registry, NewRegistry(registry, pk, isNew, life, now),
                  pk, isNew, life, now)
  {
  }

  lemma OnlyOneKey(rows: map<string, Row>, expires: map<string, nat>, registry: map<string, Due>,
      receipts: map<string, seq<Undo>>, pk: string, row: Row,
                   isNew: bool, life: Life, now: nat, receipt: seq<Undo>)
    ensures rows[pk := row] - {pk} == rows - {pk}
    ensures NewExpires(expires, pk, life, now) - {pk} == expires - {pk}
    ensures NewRegistry(registry, pk, isNew, life, now) - {pk} == registry - {pk}
    ensures NewReceipts(receipts, pk, life, receipt) - {pk} == receipts - {pk}
    ensures NewExpires(expires, pk, life, now).Keys <= expires.Keys + {pk}
    ensures pk in NewReceipts(receipts, pk, life, receipt) <==> !life.Forever?
    ensures pk in NewReceipts(receipts, pk, life, receipt) ==> NewReceipts(receipts, pk, life, receipt)[pk] == receipt
  {
  }

  /** A write to a row that is there leaves what it has lost; a new row is complete. */
  predicate StillLeaked(rows: map<string, Row>, leaked: set<string>, pk: string) { pk in rows && pk in leaked }

  function LeakedAfter(rows: map<string, Row>, leaked: set<string>, pk: string): set<string> {
    if pk in rows then leaked else leaked - {pk}
  }

  /** The row just written is in order, whatever its life. */
  lemma WriteIsLiving(cx: Codec, indexes: seq<IndexDef>, docs: map<string, Doc>, now: nat, rows: map<string, Row>,
      pk: string, after: map<string, string>, life: Life,
                      expires: map<string, nat>, registry: map<string, Due>, receipts: map<string, seq<Undo>>,
                      index: Index, index': Index, leaked: set<string>)
    requires TableOK(cx, indexes, docs) && (life.For? ==> life.ms > 0)
    requires AllOK(cx, indexes, docs, now, rows, expires, registry, receipts, index, leaked)
    requires Within(cx, indexes, docs, index', pk, RowAfter(cx, indexes, Old(rows, pk), after))
    requires StillLeaked(rows, leaked, pk)
             || Exact(cx, indexes, docs, index', pk, RowAfter(cx, indexes, Old(rows, pk), after))
    ensures var row := Old(rows, pk);
            var receipt := AllReceipts(cx, indexes, pk, row, after, docs);
            && LivingOK(cx, indexes, docs, now, pk, RowAfter(cx, indexes, row, after),
                        NewExpires(expires, pk, life, now), NewRegistry(registry, pk, row.None?, life, now),
                        NewReceipts(receipts, pk, life, receipt), index', LeakedAfter(rows, leaked, pk))
            && receipt == ReceiptOf(cx, indexes, pk, RowAfter(cx, indexes, row, after), docs)
  {
    hide TableOK, Exact, Within, RowOK, ReceiptOf, RowAfter, AllReceipts;
    var row := Old(rows, pk);
    RowStaysOK(cx, indexes, row, after);
    ReceiptIsOfRow(cx, indexes, |indexes|, docs, pk, row, after);
    assert indexes[..|indexes|] == indexes;
  }

  ghost predicate AllOK(cx: Codec, indexes: seq<IndexDef>, docs: map<string, Doc>, now: nat, rows: map<string, Row>,
                        expires: map<string, nat>, registry: map<string, Due>, receipts: map<string, seq<Undo>>,
                        index: Index, leaked: set<string>)
    requires ValidDocs(docs)
  {
    && expires.Keys <= rows.Keys
    && (forall pk <- rows :: LivingOK(cx, indexes, docs, now, pk, rows[pk], expires, registry, receipts, index, leaked))
    && (forall pk: string :: pk !in rows ==> GoneOK(now, pk, registry, receipts, index, leaked))
  }

  /** A change elsewhere in the index does not concern the key. */
  lemma LivingFrame(cx: Codec, indexes: seq<IndexDef>, docs: map<string, Doc>, now: nat, pk: string, row: Row,
                    expires: map<string, nat>, registry: map<string, Due>, receipts: map<string, seq<Undo>>,
                    index: Index, leaked: set<string>,
                    expires': map<string, nat>, registry': map<string, Due>, receipts': map<string, seq<Undo>>,
                    index': Index, leaked': set<string>)
    requires ValidDocs(docs) && LivingOK(cx, indexes, docs, now, pk, row, expires, registry, receipts, index, leaked)
    requires pk in expires <==> pk in expires'
    requires pk in expires ==> expires'[pk] == expires[pk]
    requires pk in registry <==> pk in registry'
    requires pk in registry ==> registry'[pk] == registry[pk]
    requires pk in receipts <==> pk in receipts'
    requires pk in receipts ==> receipts'[pk] == receipts[pk]
    requires pk in leaked <==> pk in leaked'
    requires forall k: Key, m: Member :: m.pk == pk ==> ((k, m) in index' <==> (k, m) in index)
    requires forall k: Key, m: Member :: m.pk == pk && (k, m) in index ==> index'[(k, m)] == index[(k, m)]
    ensures LivingOK(cx, indexes, docs, now, pk, row, expires', registry', receipts', index', leaked')
  {
    hide CallsFor, RowOK, ReceiptOf;
  }

  lemma GoneFrame(now: nat, pk: string, registry: map<string, Due>, receipts: map<string, seq<Undo>>, index: Index,
                  leaked: set<string>,
                  registry': map<string, Due>, receipts': map<string, seq<Undo>>, index': Index, leaked': set<string>)
    requires GoneOK(now, pk, registry, receipts, index, leaked)
    requires pk in registry <==> pk in registry'
    requires pk in registry ==> registry'[pk] == registry[pk]
    requires pk in receipts <==> pk in receipts'
    requires pk in receipts ==> receipts'[pk] == receipts[pk]
    requires pk in leaked <==> pk in leaked'
    requires forall k: Key, m: Member :: m.pk == pk ==> ((k, m) in index' <==> (k, m) in index)
    ensures GoneOK(now, pk, registry', receipts', index', leaked')
  {
  }

  class Table {
    const cx: Codec
    const indexes: seq<IndexDef>
    const docs: map<string, Doc>
    const shardOf: string -> nat
    const shards: nat
    const slotOf: string -> nat
    const capacity: nat                       // of each log
    var now: nat                              // milliseconds
    var rows: map<string, Row>
    var expires: map<string, nat>
    var registry: map<string, Due>
    var receipts: map<string, seq<Undo>>
    var index: Index
    var logs: Logs
    ghost var leaked: set<string>

    constructor (cx: Codec, indexes: seq<IndexDef>, docs: map<string, Doc>, shardOf: string -> nat, shards: nat,
                 slotOf: string -> nat, capacity: nat)
      requires TableOK(cx, indexes, docs) && shards > 0 && forall pk: string :: shardOf(pk) < shards
      ensures Valid() && rows == map[] && registry == map[] && index == map[] && now == 0
      ensures logs == map[] && leaked == {}
      ensures this.cx == cx && this.indexes == indexes && this.docs == docs && this.shardOf == shardOf
      ensures this.shards == shards && this.slotOf == slotOf && this.capacity == capacity
    {
      this.cx, this.indexes, this.docs, this.shardOf, this.shards := cx, indexes, docs, shardOf, shards;
      this.slotOf, this.capacity := slotOf, capacity;
      now, rows, expires, registry, receipts, index := 0, map[], map[], map[], map[], map[];
      logs, leaked := map[], {};
    }

    ghost predicate Valid()
      reads this
    {
      && TableOK(cx, indexes, docs) && shards > 0 && (forall pk: string :: shardOf(pk) < shards)
      && AllOK(cx, indexes, docs, now, rows, expires, registry, receipts, index, leaked)
      && (forall id: string, slot: nat :: LogLen(logs, id, slot) <= capacity)
    }

    /** A deletion of the row would be refused. */
    predicate Refused(pk: string)
      reads this
    {
      RefusedIn(indexes, slotOf, capacity, rows, logs, pk)
    }

    /** The check before the script writes anything. */
    method LogsFull(entries: seq<LogEntry>, slot: nat) returns (full: bool)
      ensures full == NoRoom(logs, entries, slot, capacity)
    {
      for i := 0 to |entries|
        invariant forall e <- entries[..i] :: LogLen(logs, e.id, slot) < capacity
      {
        if LogLen(logs, entries[i].id, slot) >= capacity {
          return true;
        }
        assert entries[..i + 1] == entries[..i] + [entries[i]];
      }
      assert entries[..|entries|] == entries;
      full := false;
    }

    method Append(entries: seq<LogEntry>, slot: nat)
      modifies this`logs
      ensures logs == Pushed(old(logs), entries, slot)
    {
      for i := 0 to |entries|
        invariant logs == Pushed(old(logs), entries[..i], slot)
      {
        assert entries[..i + 1][..i] == entries[..i];
        logs := logs[(entries[i].id, slot) := LogLen(logs, entries[i].id, slot) + 1];
      }
      assert entries[..|entries|] == entries;
    }

    /** The second stage: every removal, then every insertion. */
    method RunCommands(undos: seq<Undo>, redos: seq<Redo>)
      modifies this`index
      ensures index == Written(old(index), undos, redos)
    {
      for i := 0 to |undos|
        invariant index == Removed(old(index), undos[..i])
      {
        index := index - {(undos[i].key, undos[i].member)};
        assert undos[..i + 1] == undos[..i] + [undos[i]];
      }
      assert undos[..|undos|] == undos;
      ghost var left := index;
      for i := 0 to |redos|
        invariant index == Inserted(left, redos[..i])
      {
        index := index[(redos[i].key, redos[i].member) := redos[i].score];
        assert redos[..i + 1][..i] == redos[..i];
      }
      assert redos[..|redos|] == redos;
    }

    /** INSERT and UPDATE, run to the end, unless a log is full. */
    method WriteRow(pk: string, after: map<string, string>, life: Life) returns (ok: bool)
      requires Valid() && (life.For? ==> life.ms > 0)
      modifies this
      ensures Valid() && now == old(now)
      ensures ok <==> !NoRoom(old(logs), AllLogs(indexes, pk, Old(old(rows), pk), after), slotOf(pk), capacity)
      ensures !ok ==>
                && rows == old(rows) && expires == old(expires) && registry == old(registry)
                && receipts == old(receipts) && index == old(index) && logs == old(logs) && leaked == old(leaked)
      ensures ok ==>
                && rows == old(rows)[pk := RowAfter(cx, indexes, Old(old(rows), pk), after)]
                && (pk !in leaked ==> Exact(cx, indexes, docs, index, pk, rows[pk])) &&
                    OthersSame(old(index), index, pk)
                && leaked == LeakedAfter(old(rows), old(leaked), pk)
                && (pk in receipts <==> !life.Forever?)
                && (pk in receipts ==> receipts[pk] == ReceiptOf(cx, indexes, pk, rows[pk], docs))
                && expires == NewExpires(old(expires), pk, life, now)
                && registry == NewRegistry(old(registry), pk, pk !in old(rows), life, now)
                && Timed(old(expires), expires, old(registry), registry, pk, pk !in old(rows), life, now)
                && logs == Pushed(old(logs), AllLogs(indexes, pk, Old(old(rows), pk), after), slotOf(pk))
    {
      TableParts(cx, indexes, docs);
      hide *;
      hide Exact, OthersSame;
      var row := Old(rows, pk);
      var ops := BuildIndexOps(cx, indexes, pk, row, after, docs);
      var full := LogsFull(ops.logs, slotOf(pk));
      if full {
        return false;
      }
      PushedFits(logs, indexes, pk, row, after, slotOf(pk), capacity);
      IsTimed(expires, registry, pk, row.None?, life, now);
      StoreRow(pk, after, life, ops);
      Append(ops.logs, slotOf(pk));
      ok := true;
    }

    /** The row, its receipt and its registry entry are stored, and the index commands are run. */
    method StoreRow(pk: string, after: map<string, string>, life: Life, ops: Ops)
      requires TableOK(cx, indexes, docs) && ValidDocs(docs) && (life.For? ==> life.ms > 0)
      requires AllOK(cx, indexes, docs, now, rows, expires, registry, receipts, index, leaked)
      requires ops.undos == AllUndos(cx, indexes, pk, Old(rows, pk), after, docs)
      requires ops.redos == AllRedos(cx, indexes, pk, Old(rows, pk), after, docs)
      requires ops.receipts == AllReceipts(cx, indexes, pk, Old(rows, pk), after, docs)
      modifies this`rows, this`expires, this`registry, this`receipts, this`index, this`leaked
      ensures AllOK(cx, indexes, docs, now, rows, expires, registry, receipts, index, leaked)
      ensures rows == old(rows)[pk := RowAfter(cx, indexes, Old(old(rows), pk), after)]
      ensures (pk !in leaked ==> Exact(cx, indexes, docs, index, pk, rows[pk])) && OthersSame(old(index), index, pk)
      ensures leaked == LeakedAfter(old(rows), old(leaked), pk)
      ensures pk in receipts <==> !life.Forever?
      ensures pk in receipts ==> receipts[pk] == ReceiptOf(cx, indexes, pk, rows[pk], docs)
      ensures expires == NewExpires(old(expires), pk, life, now)
      ensures registry == NewRegistry(old(registry), pk, pk !in old(rows), life, now)
    {
      hide TableOK, AllOK, Exact, Within, OthersSame, RowOK, Written, ReceiptOf, RowAfter, LivingOK, NewExpires,
           NewRegistry, NewReceipts, AllReceipts, AllRedos, AllUndos, ValidDocs;
      var row := Old(rows, pk);
      var undos := ops.undos;
      if row.None? && pk in receipts {
        undos := receipts[pk];
      }
      WriteIsExact(cx, indexes, docs, now, rows, pk, after, expires, registry, receipts, index, leaked);
      RunCommands(undos, ops.redos);
      WriteIsLiving(cx, indexes, docs, now, rows, pk, after, life, expires, registry, receipts, old(index), index,
          leaked);
      leaked := LeakedAfter(rows, leaked, pk);
      rows := rows[pk := RowAfter(cx, indexes, row, after)];
      expires := NewExpires(expires, pk, life, now);
      registry := NewRegistry(registry, pk, row.None?, life, now);
      receipts := NewReceipts(receipts, pk, life, ops.receipts);
      OnlyOneKey(old(rows), old(expires), old(registry), old(receipts), pk, rows[pk], row.None?, life,
          now, ops.receipts);
      OthersStayOK(old(rows), pk, old(expires), old(registry), old(receipts), old(index), old(leaked));
    }

    /** A row that is written and then left alone: it ends when its time is up, and not before. */
    method WriteAndWait(pk: string, after: map<string, string>, life: Life, d: nat) returns (ok: bool)
      requires Valid() && (life.For? ==> life.ms > 0)
      modifies this
      ensures Valid() && now == old(now) + d
      ensures ok && life.For? ==> (pk in rows <==> d < life.ms)
      ensures ok && life.Forever? ==> pk in rows
      ensures ok && life.Keep? ==> (pk in rows <==> (pk in old(expires) ==> now < old(expires)[pk]))
      ensures ok && pk in rows ==> rows[pk] == RowAfter(cx, indexes, Old(old(rows), pk), after)
    {
      hide Valid, NoRoom, AllLogs, Pushed, RowAfter, Exact, ReceiptOf, OthersSame, NewExpires, NewRegistry;
      ok := WriteRow(pk, after, life);
      Tick(d);
    }

    /** Time passes; rows whose time is up are gone. */
    method Tick(d: nat)
      requires Valid()
      modifies this`now, this`rows, this`expires
      ensures Valid() && now == old(now) + d
      ensures rows == old(rows) - (set pk <- old(expires) | old(expires)[pk] <= now)
      ensures expires == old(expires) - (set pk <- old(expires) | old(expires)[pk] <= now)
    {
      hide LivingOK, GoneOK, TableOK;
      var up := set pk <- expires | expires[pk] <= now + d;
      now := now + d;
      rows := rows - up;
      expires := expires - up;
      assert ValidDocs(docs) by { TableParts(cx, indexes, docs); }
      forall pk | pk in rows
        ensures LivingOK(cx, indexes, docs, now, pk, rows[pk], expires, registry, receipts, index, leaked)
      {
        StillLiving(cx, indexes, docs, old(now), now, pk, rows[pk], old(expires), expires, registry, receipts, index,
            leaked);
      }
      forall pk: string | pk !in rows ensures GoneOK(now, pk, registry, receipts, index, leaked) {
        if pk in up {
          ExpiredIsGone(cx, indexes, docs, old(now), now, pk, old(rows)[pk], old(expires), registry, receipts, index,
              leaked);
        } else {
          StillGone(old(now), now, pk, registry, receipts, index, leaked);
        }
      }
    }

    /**
     * DELETE, run to the end; a key without a row is left to the sweeper. When a log is full the
     * script changes nothing and replies with the version: a 1 is taken for a deleted row, so
     * that the members and the registry entry of a living row go.
     */
    method DeleteRow(pk: string) returns (deleted: bool)
      requires Valid()
      modifies this
      ensures Valid() && now == old(now)
      ensures deleted <==> pk in old(rows) && (old(Refused(pk)) ==> old(rows)[pk].ver == 1)
      ensures !deleted ==>
                && rows == old(rows) && registry == old(registry) && receipts == old(receipts) && index == old(index)
                && expires == old(expires) && logs == old(logs) && leaked == old(leaked)
      ensures deleted ==> registry == old(registry) - {pk} && index == Without(old(index), {pk})
      ensures deleted && !old(Refused(pk)) ==>
                && rows == old(rows) - {pk} && expires == old(expires) - {pk} && receipts == old(receipts) - {pk}
                && logs == Pushed(old(logs), AllLogs(indexes, pk, Some(old(rows)[pk]), map[]), slotOf(pk))
                && leaked == old(leaked) - {pk}
      ensures deleted && old(Refused(pk)) ==>
                && rows == old(rows) && expires == old(expires) && receipts == old(receipts) && logs == old(logs)
                && leaked == old(leaked) + {pk}
    {
      hide LivingOK, GoneOK, TableOK, AllOK, ValidDocs, LogLen, RefusedIn, NoRoom, AllLogs, Pushed, Without, AllUndos,
           AllRedos, AllReceipts, AllStamps;
      if pk !in rows {
        return false;
      }
      TableParts(cx, indexes, docs);
      RefusedIff(indexes, slotOf, capacity, rows, logs, pk);
      var row := rows[pk];
      var ops := BuildIndexOps(cx, indexes, pk, Some(row), map[], docs);
      var full := LogsFull(ops.logs, slotOf(pk));
      if full {
        if row.ver != 1 {
          return false;
        }
        LeakRow(pk, ops.undos);
      } else {
        PushedFits(logs, indexes, pk, Some(row), map[], slotOf(pk), capacity);
        TakeRow(pk, ops.undos);
        Append(ops.logs, slotOf(pk));
      }
      deleted := true;
    }

    /** The row and its receipt go, and then its members and its registry entry. */
    method TakeRow(pk: string, undos: seq<Undo>)
      requires TableOK(cx, indexes, docs) && ValidDocs(docs) && pk in rows
      requires AllOK(cx, indexes, docs, now, rows, expires, registry, receipts, index, leaked)
      requires undos == AllUndos(cx, indexes, pk, Some(rows[pk]), map[], docs)
      modifies this`rows, this`expires, this`registry, this`receipts, this`index, this`leaked
      ensures AllOK(cx, indexes, docs, now, rows, expires, registry, receipts, index, leaked)
      ensures rows == old(rows) - {pk} && expires == old(expires) - {pk} && receipts == old(receipts) - {pk}
      ensures registry == old(registry) - {pk} && index == Without(old(index), {pk}) && leaked == old(leaked) - {pk}
    {
      hide TableOK, LivingOK, GoneOK, Without, AllUndos, Written;
      MembersGo(cx, indexes, docs, now, pk, rows[pk], expires, registry, receipts, index, leaked);
      DeletedStaysOK(cx, indexes, docs, now, rows, expires, registry, receipts, index, pk, leaked);
      rows, expires, receipts, leaked := rows - {pk}, expires - {pk}, receipts - {pk}, leaked - {pk};
      RunCommands(undos, []);
      registry := registry - {pk};
    }

    /** The row stays, and its members and its registry entry go. */
    method LeakRow(pk: string, undos: seq<Undo>)
      requires TableOK(cx, indexes, docs) && ValidDocs(docs) && pk in rows
      requires AllOK(cx, indexes, docs, now, rows, expires, registry, receipts, index, leaked)
      requires undos == AllUndos(cx, indexes, pk, Some(rows[pk]), map[], docs)
      modifies this`registry, this`index, this`leaked
      ensures AllOK(cx, indexes, docs, now, rows, expires, registry, receipts, index, leaked)
      ensures registry == old(registry) - {pk} && index == Without(old(index), {pk}) && leaked == old(leaked) + {pk}
    {
      hide TableOK, LivingOK, GoneOK, Without, AllUndos, Written;
      MembersGo(cx, indexes, docs, now, pk, rows[pk], expires, registry, receipts, index, leaked);
      LeakedStaysOK(cx, indexes, docs, now, rows, expires, registry, receipts, index, pk, leaked);
      RunCommands(undos, []);
      leaked, registry := leaked + {pk}, registry - {pk};
    }

    /**
     * The keys' receipts are read, those without a living row lose their receipt in one
     * script, and then the members their receipts list and their place in the registry.
     */
    method SweepPks(pks: seq<string>) returns (n: nat)
      requires Valid()
      modifies this`receipts, this`registry, this`index
      ensures Valid() && n <= |pks| && ((forall pk <- pks :: pk !in rows) ==> n == |pks|)
      ensures var gone := Dead(rows, pks);
              receipts == old(receipts) - gone && registry == old(registry) - gone && index == Without(old(index), gone)
    {
      hide LivingOK, GoneOK, TableOK, Without, Dead;
      var receipts0 := receipts;
      ghost var registry0, index0 := registry, index;
      var lists := seq(|pks|, i requires 0 <= i < |pks| => if pks[i] in receipts0 then receipts0[pks[i]] else []);
      NoneYet(registry0, receipts0, index0, rows, pks);
      n := 0;
      var cleaned: seq<bool> := [];
      for i := 0 to |pks|
        invariant n <= i == |cleaned| && ((forall j :: 0 <= j < i ==> pks[j] !in rows) ==> n == i)
        invariant forall j :: 0 <= j < i ==> cleaned[j] == (pks[j] !in rows)
        invariant receipts == receipts0 - Dead(rows, pks[..i]) && registry == registry0 && index == index0
      {
        OneMore(rows, pks, i);
        if pks[i] !in rows {
          receipts := receipts - {pks[i]};
          cleaned := cleaned + [true];
          n := n + 1;
        } else {
          cleaned := cleaned + [false];
        }
      }
      for i := 0 to |pks|
        invariant receipts == receipts0 - Dead(rows, pks)
        invariant registry == registry0 - Dead(rows, pks[..i]) && index == Without(index0, Dead(rows, pks[..i]))
      {
        OneMore(rows, pks, i);
        if cleaned[i] {
          ghost var before := index;
          RemoveAll(lists[i]);
          ListedAreAll(now, pks[i], registry0, receipts0, index0, before, index, lists[i], Dead(rows, pks[..i]),
              leaked);
          registry := registry - {pks[i]};
        }
      }
      ClearedStaysOK(cx, indexes, docs, now, rows, expires, registry0, receipts0, index0, Dead(rows, pks), leaked);
    }

    method RemoveAll(list: seq<Undo>)
      modifies this`index
      ensures index == Removed(old(index), list)
    {
      for j := 0 to |list|
        invariant index == Removed(old(index), list[..j])
      {
        index := index - {(list[j].key, list[j].member)};
        assert list[..j + 1] == list[..j] + [list[j]];
      }
      assert list[..|list|] == list;
    }

    // ----- the sweeper --------------------------------------------------------------------------

    /** The keys of a shard whose time is up by the registry. */
    function DueKeys(shard: nat): set<string>
      reads this
    {
      DueAt(registry, shardOf, shard, now)
    }

    /** A key is due once the second that the registry has for it is over, and never before. */
    lemma DueWhenOver(shard: nat, pk: string)
      ensures pk in DueKeys(shard) <==>
              pk in registry && shardOf(pk) == shard && registry[pk].Sec? && (registry[pk].at + 1) * 1000 <= now
    {
    }

    /** As many of the keys as a page holds, in whatever order the registry has them. */
    method PageOf(keys: set<string>, count: nat) returns (page: seq<string>)
      ensures |page| == if |keys| < count then |keys| else count
      ensures NoRepeats(page) && Listed(page) <= keys && |Listed(page)| == |page|
      ensures |keys| <= count ==> Listed(page) == keys
    {
      hide NoRepeats, Listed;
      page := [];
      var rest := keys;
      PageStarts(keys);
      while rest != {} && |page| < count
        invariant OnPage(keys, page, rest) && |page| <= count
        decreases |rest|
      {
        var pk :| pk in rest;
        PageGrows(keys, page, rest, pk);
        page := page + [pk];
        rest := rest - {pk};
      }
      assert |keys| <= count ==> rest == {};
    }

    method SweepBatch(shard: nat, batch: nat) returns (n: nat, ghost gone: set<string>)
      requires Valid() && batch > 0
      modifies this`receipts, this`registry, this`index
      ensures Valid() && gone <= old(DueKeys(shard)) && gone !! rows.Keys
      ensures receipts == old(receipts) - gone && registry == old(registry) - gone && index == Without(old(index), gone)
      ensures DueKeys(shard) == old(DueKeys(shard)) - gone
      ensures n <= batch
      ensures old(DueKeys(shard)) !! rows.Keys ==>
                n == |gone| == if |old(DueKeys(shard))| < batch then |old(DueKeys(shard))| else batch
    {
      hide LivingOK, GoneOK, TableOK;
      var pks := PageOf(DueKeys(shard), batch);
      gone := Dead(rows, pks);
      DeadAre(rows, pks);
      if |pks| == 0 {
        NothingCleared(registry, receipts, index);
        return 0, {};
      }
      n := SweepPks(pks);
    }

    /** Batches until one comes up short, or the tick's share is used up. */
    method SweepShard(shard: nat, batch: nat, maxBatches: nat) returns (total: nat, ghost gone: set<string>)
      requires Valid() && batch > 0
      modifies this`receipts, this`registry, this`index
      ensures Valid() && gone <= old(DueKeys(shard)) && gone !! rows.Keys
      ensures receipts == old(receipts) - gone && registry == old(registry) - gone && index == Without(old(index), gone)
      ensures gone == old(DueKeys(shard))
              <==> old(DueKeys(shard)) !! rows.Keys && |old(DueKeys(shard))| <= Share(batch, maxBatches)
      ensures DueKeys(shard) == old(DueKeys(shard)) - gone
    {
      hide *;
      total, gone := 0, {};
      ghost var due := DueKeys(shard);
      SweepingStarts(due, rows, batch, maxBatches, registry, receipts, index);
      var b := 0;
      var more := true;
      while b < maxBatches && more
        invariant Valid() && b <= maxBatches && DueKeys(shard) == due - gone
        invariant Sweeping(due, gone, rows, batch, maxBatches - b, more, Share(batch, maxBatches), old(registry),
            old(receipts), old(index), registry, receipts, index)
        decreases maxBatches - b
      {
        ghost var registry1, receipts1, index1 := registry, receipts, index;
        var n, g := SweepBatch(shard, batch);
        SweepingGoes(due, gone, g, rows, batch, maxBatches - b, n, Share(batch, maxBatches), old(registry),
            old(receipts),
            old(index), registry1, receipts1, index1);
        gone := gone + g;
        total := total + n;
        more := n >= batch;
        b := b + 1;
      }
      SweepingEnds(due, gone, rows, batch, maxBatches - b, more, Share(batch, maxBatches), old(registry), old(receipts),
          old(index), registry, receipts, index);
    }

    /**
     * A sweep leaves nothing due exactly when the batches suffice and no living row's registry
     * second is already over; otherwise some key stays behind for a later tick. It has then
     * removed every member, the receipt and the registry entry of every row that expired a
     * second ago or more and was not leaked, and a second sweep finds nothing to do.
     */
    method ExpireAndSweep(shard: nat, wait: nat, batch: nat, maxBatches: nat)
      requires Valid() && batch > 0
      modifies this
      ensures Valid() && now == old(now) + wait
      ensures var due := DueAt(old(registry), shardOf, shard, now);
              && (DueKeys(shard) == {} <==> due !! rows.Keys && |due| <= Share(batch, maxBatches))
              && (DueKeys(shard) == {} ==>
                    forall pk <- old(expires) ::
                      Lapsed(old(expires), shardOf, shard, now, pk) && pk !in leaked ==>
                          pk !in rows && Cleared(pk, registry, receipts, index))
    {
      ExpiriesAreRegistered();
      hide *;
      ghost var expires0, registry0, index0 := expires, registry, index;
      Tick(wait);
      var n, gone := SweepShard(shard, batch, maxBatches);
      AllGone(DueAt(registry0, shardOf, shard, now), gone);
      LapsedAreCleared(registry0, shardOf, shard, now, expires0 - leaked, index0, gone, receipts);
    }

    lemma ExpiriesAreRegistered()
      requires Valid()
      ensures expires.Keys <= rows.Keys
      ensures forall pk <- expires - leaked ::
                pk in registry && registry[pk].Sec? && registry[pk].at * 1000 <= expires[pk]
    {
      TableParts(cx, indexes, docs);
      hide GoneOK, TableOK, Exact, Within, RowOK, ReceiptOf;
      forall pk | pk in expires - leaked
        ensures pk in registry && registry[pk].Sec? && registry[pk].at * 1000 <= expires[pk]
      {
        assert pk in rows && LivingOK(cx, indexes, docs, now, pk, rows[pk], expires, registry, receipts, index, leaked);
      }
    }

    // ----- the drop job -----------------------------------------------------------------------------

    ghost function State(): DropState
      reads this
    {
      DropState(rows, logs, registry, leaked)
    }

    /** What the job has done since `a`. */
    ghost predicate Dropped(a: DropState, refused: set<string>)
      reads this
    {
      DroppedIn(indexes, slotOf, capacity, a, State(), refused)
    }

    lemma IndexesDiffer()
      requires Valid()
      ensures DistinctIds(indexes)
    {
      TableParts(cx, indexes, docs);
    }

    /** Each key is deleted where a row lives, and those without one are swept. */
    method DropPage(pks: seq<string>) returns (ghost refused: set<string>)
      requires Valid() && NoRepeats(pks) && Listed(pks) <= registry.Keys
      modifies this
      ensures Valid() && Dropped(old(State()), refused) && refused <= Listed(pks)
      ensures registry == old(registry) - (Listed(pks) - Stuck(rows, refused))
    {
      hide Valid, DroppedIn, OnJobPage, Stuck, NoRepeats, Without, Dead, Listed, Pushed, AllLogs, DistinctIds;
      IndexesDiffer();
      ghost var a := State();
      refused := {};
      var dead: seq<string> := [];
      DroppedNothing(indexes, slotOf, capacity, a);
      JobPageBegins(a);
      assert pks[..0] == [];
      for i := 0 to |pks|
        invariant Valid() && DroppedIn(indexes, slotOf, capacity, a, State(), refused)
        invariant OnJobPage(a.registry, pks[..i], dead, refused, State())
      {
        ghost var b, no := State(), Refused(pks[i]);
        NextIsRegistered(a.registry, pks, i, dead, refused, b);
        var deleted := DeleteRow(pks[i]);
        assert DeleteStep(indexes, slotOf, b, State(), pks[i], deleted, no);
        DeleteDrops(indexes, slotOf, capacity, b, State(), pks[i], deleted, no);
        JobPageGoesOn(indexes, slotOf, a.registry, pks, i, dead, refused, b, State(), deleted, no);
        DroppedMore(indexes, slotOf, capacity, a, b, State(), refused, IfRefused(no, pks[i]));
        refused := refused + IfRefused(no, pks[i]);
        if !deleted {
          dead := dead + [pks[i]];
        }
      }
      assert pks[..|pks|] == pks;
      ghost var b := State();
      JobPageIsSwept(a.registry, pks, dead, refused, b);
      var n := SweepPks(dead);
      SweepDrops(indexes, slotOf, capacity, b, Dead(rows, dead));
      DroppedMore(indexes, slotOf, capacity, a, b, State(), refused, {});
      assert refused + {} == refused;
    }

    function ShardKeys(shard: nat): set<string>
      reads this
    {
      set pk <- registry | shardOf(pk) == shard
    }

    /** One shard, page after page from the front, while the budget lasts. */
    method DropShard(shard: nat, budget: nat, batch: nat) returns (left: nat, ghost refused: set<string>)
      requires Valid() && batch > 0
      modifies this
      ensures Valid() && Dropped(old(State()), refused) && left <= budget
      ensures NoneStuck(rows, refused) ==> |registry| + (budget - left) <= |old(registry)|
      ensures left > 0 ==> ShardKeys(shard) <= Stuck(rows, refused)
    {
      hide Valid, DroppedIn, Stuck, NoRepeats, Listed;
      ghost var a := State();
      left, refused := budget, {};
      DroppedNothing(indexes, slotOf, capacity, a);
      var more := true;
      while left > 0 && more
        invariant Valid() && Dropped(a, refused) && left <= budget
        invariant NoneStuck(rows, refused) ==> |registry| + (budget - left) <= |a.registry|
        invariant !more && left > 0 ==> ShardKeys(shard) <= Stuck(rows, refused)
        decreases left, more
      {
        var page := PageOf(ShardKeys(shard), batch);
        if |page| == 0 {
          assert ShardKeys(shard) == {};
          more := false;
        } else {
          var take := if |page| < left then |page| else left;
          ghost var keys, b := ShardKeys(shard), State();
          PrefixDifferent(page, take);
          ghost var no := DropPage(page[..take]);
          DroppedMore(indexes, slotOf, capacity, a, b, State(), refused, no);
          StuckGrows(indexes, slotOf, capacity, a, b, State(), refused, no);
          refused := refused + no;
          TakenOff(b.registry, registry, Listed(page[..take]), Stuck(rows, no));
          left := left - take;
          if |page| < batch {
            more := false;
            assert page[..|page|] == page;
          }
        }
      }
    }

    /** The sweep of a shard, as far as it concerns the job. */
    method SweepFirst(shard: nat, sweepBatch: nat, maxBatches: nat)
      requires Valid() && sweepBatch > 0
      modifies this`receipts, this`registry, this`index
      ensures Valid() && Dropped(old(State()), {}) && |registry| <= |old(registry)|
    {
      hide Valid, DroppedIn, Stuck, NoneStuck, DueKeys, Share, Without;
      ghost var a := State();
      var n, gone := SweepShard(shard, sweepBatch, maxBatches);
      FewerKeys(a.registry, gone);
      SweepDrops(indexes, slotOf, capacity, a, gone);
      assert State() == a.(registry := a.registry - gone);
    }

    /** What is left over of a shard's expired rows is swept before its rows are deleted. */
    method SweepAndDrop(shard: nat, budget: nat, batch: nat, sweepBatch: nat, maxBatches: nat)
        returns (left: nat, ghost refused: set<string>)
      requires Valid() && batch > 0 && sweepBatch > 0
      modifies this
      ensures Valid() && Dropped(old(State()), refused) && left <= budget
      ensures NoneStuck(rows, refused) ==> |registry| + (budget - left) <= |old(registry)|
      ensures left > 0 ==> ShardKeys(shard) <= Stuck(rows, refused)
    {
      hide Valid, DroppedIn, Stuck, NoneStuck, ShardKeys;
      ghost var a := State();
      SweepFirst(shard, sweepBatch, maxBatches);
      ghost var b := State();
      left, refused := DropShard(shard, budget, batch);
      DroppedMore(indexes, slotOf, capacity, a, b, State(), {}, refused);
      assert {} + refused == refused;
    }

    /** One tick: the sweep and then the rows of each shard, within the tick's budget. */
    method StepDrop(rowsPerTick: nat, batch: nat, sweepBatch: nat, maxBatches: nat)
        returns (finished: bool, ghost refused: set<string>)
      requires Valid() && batch > 0 && sweepBatch > 0
      modifies this
      ensures Valid() && Dropped(old(State()), refused)
      ensures NoneStuck(rows, refused) ==> |registry| == 0 || |registry| + rowsPerTick <= |old(registry)|
      ensures finished <==> |registry| == 0
      ensures finished ==> OnlyLeaked()
    {
      hide Valid, DroppedIn, Stuck, OnlyLeaked;
      ghost var a := State();
      var budget := rowsPerTick;
      refused := {};
      DroppedNothing(indexes, slotOf, capacity, a);
      var shard := 0;
      while shard < shards && budget > 0
        invariant Valid() && Dropped(a, refused) && shard <= shards && budget <= rowsPerTick
        invariant NoneStuck(rows, refused) ==> |registry| + (rowsPerTick - budget) <= |a.registry|
        invariant budget > 0 ==> forall pk <- registry :: shardOf(pk) >= shard || pk in Stuck(rows, refused)
        decreases shards - shard
      {
        ghost var b := State();
        ghost var no;
        budget, no := SweepAndDrop(shard, budget, batch, sweepBatch, maxBatches);
        DroppedMore(indexes, slotOf, capacity, a, b, State(), refused, no);
        StuckGrows(indexes, slotOf, capacity, a, b, State(), refused, no);
        KeysShrink(indexes, slotOf, capacity, b, State(), no);
        refused := refused + no;
        if budget > 0 {
          forall pk | pk in registry ensures shardOf(pk) >= shard + 1 || pk in Stuck(rows, refused) {
            assert shardOf(pk) == shard ==> pk in ShardKeys(shard);
          }
        }
        shard := shard + 1;
      }
      if budget > 0 && NoneStuck(rows, refused) {
        NoneFurther();
        assert registry.Keys == {};
      }
      finished := |registry| == 0;
      if finished {
        OnlyLeakedLeft();
      }
    }

    lemma NoneFurther()
      requires Valid()
      ensures forall pk: string :: shardOf(pk) < shards
    {
    }

    /** Nothing but leaked rows, with their receipts and members. */
    ghost predicate OnlyLeaked()
      reads this
    {
      && rows.Keys <= leaked && receipts.Keys <= leaked
      && (leaked == {} ==> rows == map[] && receipts == map[] && index == map[])
    }

    /** That is what is left with nothing registered. */
    lemma OnlyLeakedLeft()
      requires Valid() && |registry| == 0
      ensures OnlyLeaked()
    {
      hide TableOK, Exact, Within, RowOK, ReceiptOf;
      assert registry == map[];
      TableParts(cx, indexes, docs);
      forall pk | pk in rows ensures pk in leaked {
        LivingIsRegistered(cx, indexes, docs, now, pk, rows[pk], expires, registry, receipts, index, leaked);
      }
      forall pk | pk in receipts ensures pk in leaked {
        assert pk !in rows ==> GoneOK(now, pk, registry, receipts, index, leaked);
      }
      if leaked == {} {
        assert rows == map[] && receipts == map[];
        forall e: (Key, Member) ensures e !in index {
          assert e == (e.0, e.1) && GoneOK(now, e.1.pk, registry, receipts, index, leaked);
        }
      }
    }

    /** All logs have room for the deletion of all rows. */
    ghost predicate Roomy()
      reads this
    {
      Fits(indexes, slotOf, capacity, rows, logs)
    }

    /** The job's ticks, by whichever runner, until it is done or for as long as one cares to wait. */
    method RunTicks(rowsPerTick: nat, batch: nat, sweepBatch: nat, maxBatches: nat, ticks: nat)
        returns (used: nat, finished: bool, ghost refused: set<string>)
      requires Valid() && rowsPerTick > 0 && batch > 0 && sweepBatch > 0
      modifies this
      ensures Valid() && Dropped(old(State()), refused) && used <= ticks
      ensures finished ==> |registry| == 0 && OnlyLeaked()
      ensures NoneStuck(rows, refused) ==>
                if finished then used == 1 || (used > 1 && (used - 1) * rowsPerTick < |old(registry)|)
                else used == ticks && (ticks > 0 ==> ticks * rowsPerTick < |old(registry)|)
    {
      hide Valid, DroppedIn, Stuck, NoneStuck, OnlyLeaked, Ticked;
      ghost var a := State();
      NoTickYet(|a.registry|, rowsPerTick);
      used, finished, refused := 0, false, {};
      DroppedNothing(indexes, slotOf, capacity, a);
      while !finished && used < ticks
        invariant Valid() && Dropped(a, refused) && used <= ticks
        invariant finished ==> |registry| == 0 && OnlyLeaked()
        invariant NoneStuck(rows, refused) ==> Ticked(|a.registry|, |registry|, used, rowsPerTick, finished)
        decreases !finished, ticks - used
      {
        ghost var b, done := State(), refused;
        ghost var no;
        finished, no := StepDrop(rowsPerTick, batch, sweepBatch, maxBatches);
        DroppedMore(indexes, slotOf, capacity, a, b, State(), refused, no);
        StuckGrows(indexes, slotOf, capacity, a, b, State(), refused, no);
        refused := refused + no;
        OneMoreTick(|a.registry|, |b.registry|, |registry|, used, rowsPerTick, finished);
        used := used + 1;
      }
      if NoneStuck(rows, refused) {
        TicksEnd(|a.registry|, |registry|, used, rowsPerTick, finished);
      }
    }

    /**
     * With no row leaked before and as many ticks as the registered keys need, the job leaves no
     * row exactly when the logs have room for all deletions, which is when none is refused. It is
     * done exactly when none is refused at another version than 1; rows that are refused at
     * version 1 live on.
     */
    method RunDrop(rowsPerTick: nat, batch: nat, sweepBatch: nat, maxBatches: nat, ticks: nat)
        returns (used: nat, finished: bool, ghost refused: set<string>)
      requires Valid() && rowsPerTick > 0 && batch > 0 && sweepBatch > 0
      modifies this
      ensures Valid() && Dropped(old(State()), refused)
      ensures finished ==> registry == map[] && OnlyLeaked()
      ensures finished ==> used == 1 || (used > 1 && (used - 1) * rowsPerTick < |old(registry)|)
      ensures ticks > 0 && ticks * rowsPerTick >= |old(registry)| ==> (finished <==> NoneStuck(rows, refused))
      ensures old(leaked) == {} && ticks > 0 && ticks * rowsPerTick >= |old(registry)| ==>
                && (old(Roomy()) <==> finished && rows == map[])
                && (old(Roomy()) <==> refused == {})
                && (old(Roomy()) ==> registry == map[] && receipts == map[] && index == map[])
      ensures (exists pk <- old(registry) :: old(Refused(pk)) && old(rows)[pk].ver != 1) ==> !finished
      ensures (forall pk <- old(rows) :: old(rows)[pk].ver == 1) ==> NoneStuck(rows, refused)
      ensures !old(Roomy()) ==> rows != map[]
    {
      ghost var a := State();
      used, finished, refused := RunTicks(rowsPerTick, batch, sweepBatch, maxBatches, ticks);
      hide LivingOK, GoneOK, TableOK, AllOK, DroppedIn, Stuck, NoneStuck, LogLen, RefusedIn, Fits;
      JobOutcome(indexes, slotOf, capacity, a, State(), refused);
    }

    /** Everything about other keys is as it was. */
    lemma OthersStayOK(rows0: map<string, Row>, pk: string, expires0: map<string, nat>, registry0: map<string, Due>,
        receipts0: map<string, seq<Undo>>, index0: Index, leaked0: set<string>)
      requires ValidDocs(docs) && rows - {pk} == rows0 - {pk} && leaked - {pk} == leaked0 - {pk}
      requires AllOK(cx, indexes, docs, now, rows0, expires0, registry0, receipts0, index0, leaked0)
      requires OthersSame(index0, index, pk)
      requires expires - {pk} == expires0 - {pk} && registry - {pk} == registry0 - {pk}
      requires receipts - {pk} == receipts0 - {pk}
      requires pk in rows && expires.Keys <= expires0.Keys + {pk}
      requires LivingOK(cx, indexes, docs, now, pk, rows[pk], expires, registry, receipts, index, leaked)
      ensures AllOK(cx, indexes, docs, now, rows, expires, registry, receipts, index, leaked)
    {
      hide LivingOK, GoneOK;
      forall p | p in expires ensures p in rows {
        if p != pk {
          SameElsewhere(rows0, rows, pk, p);
          SameElsewhere(expires0, expires, pk, p);
        }
      }
      forall p | p in rows && p != pk
        ensures LivingOK(cx, indexes, docs, now, p, rows[p], expires, registry, receipts, index, leaked)
      {
        SameElsewhere(rows0, rows, pk, p);
        SameElsewhere(expires0, expires, pk, p);
        SameElsewhere(registry0, registry, pk, p);
        SameElsewhere(receipts0, receipts, pk, p);
        assert p in leaked <==> p in leaked - {pk};
        assert p in leaked0 <==> p in leaked0 - {pk};
        LivingFrame(cx, indexes, docs, now, p, rows[p], expires0, registry0, receipts0, index0, leaked0,
            expires, registry, receipts, index, leaked);
      }
      forall p: string | p != pk && p !in rows ensures GoneOK(now, p, registry, receipts, index, leaked) {
        SameElsewhere(rows0, rows, pk, p);
        SameElsewhere(registry0, registry, pk, p);
        SameElsewhere(receipts0, receipts, pk, p);
        assert p in leaked <==> p in leaked - {pk};
        assert p in leaked0 <==> p in leaked0 - {pk};
        assert p !in rows0;
        GoneFrame(now, p, registry0, receipts0, index0, leaked0, registry, receipts, index, leaked);
      }
    }
  }

  lemma LivingIsRegistered(cx: Codec, indexes: seq<IndexDef>, docs: map<string, Doc>, now: nat, pk: string, row: Row,
                           expires: map<string, nat>, registry: map<string, Due>, receipts: map<string, seq<Undo>>,
                           index: Index, leaked: set<string>)
    requires ValidDocs(docs) && LivingOK(cx, indexes, docs, now, pk, row, expires, registry, receipts, index, leaked)
    ensures RowOK(cx, indexes, row) && Within(cx, indexes, docs, index, pk, row)
    ensures pk !in leaked ==> pk in registry && Exact(cx, indexes, docs, index, pk, row)
  {
  }

  lemma StillLiving(cx: Codec, indexes: seq<IndexDef>, docs: map<string, Doc>, now: nat, now': nat, pk: string,
      row: Row, expires: map<string, nat>,
                    expires': map<string, nat>, registry: map<string, Due>, receipts: map<string, seq<Undo>>,
                    index: Index, leaked: set<string>)
    requires ValidDocs(docs) && LivingOK(cx, indexes, docs, now, pk, row, expires, registry, receipts, index, leaked)
    requires (pk in expires <==> pk in expires') && (pk in expires ==> expires'[pk] == expires[pk] > now')
    ensures LivingOK(cx, indexes, docs, now', pk, row, expires', registry, receipts, index, leaked)
  {
    hide Exact, Within, RowOK, ReceiptOf;
  }

  /** When a row's time is up its receipt lists all its members. */
  lemma ExpiredIsGone(cx: Codec, indexes: seq<IndexDef>, docs: map<string, Doc>, now: nat, now': nat, pk: string,
      row: Row, expires: map<string, nat>,
                      registry: map<string, Due>, receipts: map<string, seq<Undo>>, index: Index, leaked: set<string>)
    requires TableOK(cx, indexes, docs) &&
        LivingOK(cx, indexes, docs, now, pk, row, expires, registry, receipts, index, leaked)
    requires pk in expires && expires[pk] <= now'
    ensures GoneOK(now', pk, registry, receipts, index, leaked)
  {
    ReceiptCovers(cx, indexes, docs, pk, row);
    hide TableOK, CallsFor, RowOK, ReceiptOf;
  }

  lemma StillGone(now: nat, now': nat, pk: string, registry: map<string, Due>,
      receipts: map<string, seq<Undo>>, index: Index, leaked: set<string>)
    requires GoneOK(now, pk, registry, receipts, index, leaked) && now <= now'
    ensures GoneOK(now', pk, registry, receipts, index, leaked)
  {
  }

  lemma NothingLeft(now: nat, pk: string, registry: map<string, Due>, receipts: map<string, seq<Undo>>, index: Index,
      leaked: set<string>)
    requires pk !in registry && pk !in receipts && forall k: Key, m: Member :: m.pk == pk ==> (k, m) !in index
    ensures GoneOK(now, pk, registry, receipts, index, leaked)
  {
  }

  /** The removals of a deletion take every member of the key, also if some were gone before. */
  lemma MembersGo(cx: Codec, indexes: seq<IndexDef>, docs: map<string, Doc>, now: nat, pk: string, row: Row,
      expires: map<string, nat>, registry: map<string, Due>, receipts: map<string, seq<Undo>>, index: Index,
      leaked: set<string>)
    requires TableOK(cx, indexes, docs) && ValidDocs(docs)
    requires LivingOK(cx, indexes, docs, now, pk, row, expires, registry, receipts, index, leaked)
    ensures Written(index, AllUndos(cx, indexes, pk, Some(row), map[], docs), []) == Without(index, {pk})
  {
    LivingIsRegistered(cx, indexes, docs, now, pk, row, expires, registry, receipts, index, leaked);
    hide TableOK, Exact, Within, RowOK, Written, LivingOK, AllUndos, Without, OthersSame;
    DeleteIsExact(cx, indexes, docs, index, pk, row);
    LeftWithout(index, Written(index, AllUndos(cx, indexes, pk, Some(row), map[], docs), []), pk);
  }

  lemma LeftWithout(index: Index, index': Index, pk: string)
    requires (forall k: Key, m: Member :: m.pk == pk ==> (k, m) !in index') && OthersSame(index, index', pk)
    ensures index' == Without(index, {pk})
  {
    forall e: (Key, Member) ensures e in index' <==> e in index && e.1.pk != pk {
      assert e == (e.0, e.1);
    }
  }

  /** What the receipt lists is all that the index holds of the key, and nothing of any other. */
  lemma ListedAreAll(now: nat, pk: string, registry0: map<string, Due>, receipts0: map<string, seq<Undo>>,
      index0: Index, before: Index, after: Index, list: seq<Undo>, gone: set<string>, leaked: set<string>)
    requires GoneOK(now, pk, registry0, receipts0, index0, leaked) &&
        list == (if pk in receipts0 then receipts0[pk] else [])
    requires before == Without(index0, gone) && after == Removed(before, list)
    ensures after == Without(index0, gone + {pk})
  {
    forall e: (Key, Member) ensures e in after <==> e in index0 && e.1.pk !in gone + {pk} {
      assert e == (e.0, e.1);
    }
  }

  lemma DeletedStaysOK(cx: Codec, indexes: seq<IndexDef>, docs: map<string, Doc>, now: nat, rows: map<string, Row>,
      expires: map<string, nat>,
                       registry: map<string, Due>, receipts: map<string, seq<Undo>>, index: Index, pk: string,
                           leaked: set<string>)
    requires TableOK(cx, indexes, docs) && ValidDocs(docs)
    requires AllOK(cx, indexes, docs, now, rows, expires, registry, receipts, index, leaked)
    ensures AllOK(cx, indexes, docs, now, rows - {pk}, expires - {pk}, registry - {pk}, receipts - {pk},
        Without(index, {pk}), leaked - {pk})
  {
    hide LivingOK, GoneOK, TableOK;
    forall p | p in rows - {pk}
      ensures LivingOK(cx, indexes, docs, now, p, rows[p], expires - {pk}, registry - {pk}, receipts - {pk},
          Without(index, {pk}), leaked - {pk})
    {
      LivingFrame(cx, indexes, docs, now, p, rows[p], expires, registry, receipts, index, leaked, expires - {pk},
          registry - {pk}, receipts - {pk}, Without(index, {pk}), leaked - {pk});
    }
    forall p: string | p !in rows - {pk}
      ensures GoneOK(now, p, registry - {pk}, receipts - {pk}, Without(index, {pk}), leaked - {pk})
    {
      if p == pk {
        NothingLeft(now, pk, registry - {pk}, receipts - {pk}, Without(index, {pk}), leaked - {pk});
      } else {
        GoneFrame(now, p, registry, receipts, index, leaked, registry - {pk}, receipts - {pk}, Without(index, {pk}),
            leaked - {pk});
      }
    }
  }

  /** A living row without members and registry entry is leaked. */
  lemma LeakedStaysOK(cx: Codec, indexes: seq<IndexDef>, docs: map<string, Doc>, now: nat, rows: map<string, Row>,
      expires: map<string, nat>, registry: map<string, Due>, receipts: map<string, seq<Undo>>, index: Index,
      pk: string, leaked: set<string>)
    requires TableOK(cx, indexes, docs) && ValidDocs(docs) && pk in rows
    requires AllOK(cx, indexes, docs, now, rows, expires, registry, receipts, index, leaked)
    ensures AllOK(cx, indexes, docs, now, rows, expires, registry - {pk}, receipts, Without(index, {pk}), leaked + {pk})
  {
    hide LivingOK, GoneOK, TableOK;
    forall p | p in rows
      ensures LivingOK(cx, indexes, docs, now, p, rows[p], expires, registry - {pk}, receipts, Without(index, {pk}),
          leaked + {pk})
    {
      if p == pk {
        LeakedIsLiving(cx, indexes, docs, now, pk, rows[pk], expires, registry, receipts, index, leaked);
      } else {
        LivingFrame(cx, indexes, docs, now, p, rows[p], expires, registry, receipts, index, leaked, expires,
            registry - {pk}, receipts, Without(index, {pk}), leaked + {pk});
      }
    }
    forall p: string | p !in rows
      ensures GoneOK(now, p, registry - {pk}, receipts, Without(index, {pk}), leaked + {pk})
    {
      GoneFrame(now, p, registry, receipts, index, leaked, registry - {pk}, receipts, Without(index, {pk}),
          leaked + {pk});
    }
  }

  lemma LeakedIsLiving(cx: Codec, indexes: seq<IndexDef>, docs: map<string, Doc>, now: nat, pk: string, row: Row,
      expires: map<string, nat>, registry: map<string, Due>, receipts: map<string, seq<Undo>>, index: Index,
      leaked: set<string>)
    requires ValidDocs(docs) && LivingOK(cx, indexes, docs, now, pk, row, expires, registry, receipts, index, leaked)
    ensures LivingOK(cx, indexes, docs, now, pk, row, expires, registry - {pk}, receipts, Without(index, {pk}),
        leaked + {pk})
  {
    hide RowOK, ReceiptOf, CallsFor;
  }

  lemma NoneYet(registry: map<string, Due>, receipts: map<string, seq<Undo>>, index: Index, rows: map<string, Row>,
      pks: seq<string>)
    ensures Dead(rows, pks[..0]) == {} && registry - Dead(rows, pks[..0]) == registry
    ensures receipts - Dead(rows, pks[..0]) == receipts
    ensures Dead(rows, pks) !! rows.Keys && Without(index, Dead(rows, pks[..0])) == index
    ensures Dead(rows, pks[..|pks|]) == Dead(rows, pks)
  {
    assert pks[..|pks|] == pks;
  }

  lemma OneMore(rows: map<string, Row>, pks: seq<string>, i: nat)
    requires i < |pks|
    ensures pks[i] in rows ==> Dead(rows, pks[..i + 1]) == Dead(rows, pks[..i])
    ensures pks[i] !in rows ==> Dead(rows, pks[..i + 1]) == Dead(rows, pks[..i]) + {pks[i]}
  {
    assert pks[..i + 1] == pks[..i] + [pks[i]];
  }

  /** Clearing keys that have no row keeps the table in order. */
  lemma ClearedStaysOK(cx: Codec, indexes: seq<IndexDef>, docs: map<string, Doc>, now: nat, rows: map<string, Row>,
      expires: map<string, nat>,
                       registry: map<string, Due>, receipts: map<string, seq<Undo>>, index: Index, gone: set<string>,
                           leaked: set<string>)
    requires TableOK(cx, indexes, docs) && gone !! rows.Keys
    requires forall pk <- rows :: LivingOK(cx, indexes, docs, now, pk, rows[pk], expires, registry, receipts, index,
        leaked)
    requires forall pk: string :: pk !in rows ==> GoneOK(now, pk, registry, receipts, index, leaked)
    ensures forall pk <- rows :: LivingOK(cx, indexes, docs, now, pk, rows[pk], expires, registry - gone,
        receipts - gone, Without(index, gone), leaked)
    ensures forall pk: string :: pk !in rows ==>
        GoneOK(now, pk, registry - gone, receipts - gone, Without(index, gone), leaked)
  {
    TableParts(cx, indexes, docs);
    hide LivingOK, GoneOK, TableOK;
    forall pk | pk in rows
      ensures LivingOK(cx, indexes, docs, now, pk, rows[pk], expires, registry - gone, receipts - gone,
          Without(index, gone), leaked)
    {
      LivingFrame(cx, indexes, docs, now, pk, rows[pk], expires, registry, receipts, index, leaked, expires,
          registry - gone, receipts - gone, Without(index, gone), leaked);
    }
    forall pk: string | pk !in rows ensures GoneOK(now, pk, registry - gone, receipts - gone, Without(index, gone),
        leaked) {
      if pk in gone {
        NothingLeft(now, pk, registry - gone, receipts - gone, Without(index, gone), leaked);
      } else {
        GoneFrame(now, pk, registry, receipts, index, leaked, registry - gone, receipts - gone, Without(index, gone),
            leaked);
      }
    }
  }

  /** The write's commands leave exactly what the new row calls for, also over the remains of an expired one. */
  lemma WriteIsExact(cx: Codec, indexes: seq<IndexDef>, docs: map<string, Doc>, now: nat, rows: map<string, Row>,
      pk: string, after: map<string, string>,
                     expires: map<string, nat>, registry: map<string, Due>, receipts: map<string, seq<Undo>>,
                     index: Index, leaked: set<string>)
    requires TableOK(cx, indexes, docs)
    requires AllOK(cx, indexes, docs, now, rows, expires, registry, receipts, index, leaked)
    ensures var row := Old(rows, pk);
            var undos :=
              if row.None? && pk in receipts then receipts[pk] else AllUndos(cx, indexes, pk, row, after, docs);
            var index' := Written(index, undos, AllRedos(cx, indexes, pk, row, after, docs));
            var row' := RowAfter(cx, indexes, row, after);
            && (StillLeaked(rows, leaked, pk) || Exact(cx, indexes, docs, index', pk, row'))
            && Within(cx, indexes, docs, index', pk, row') && OthersSame(index, index', pk)
  {
    hide TableOK, Written, RowAfter, Exact, Within, OthersSame, AllRedos;
    TableParts(cx, indexes, docs);
    if pk in rows {
      LivingIsRegistered(cx, indexes, docs, now, pk, rows[pk], expires, registry, receipts, index, leaked);
      UpdateIsExact(cx, indexes, docs, index, pk, rows[pk], after);
    } else {
      NoUndosForNew(cx, indexes, docs, pk, after);
      var receipt := if pk in receipts then receipts[pk] else [];
      InsertIsExact(cx, indexes, docs, index, pk, after, receipt);
      ExactIsWithin(cx, indexes, docs, Written(index, receipt, AllRedos(cx, indexes, pk, None, after, docs)), pk,
          RowAfter(cx, indexes, None, after));
    }
  }

  lemma ExactIsWithin(cx: Codec, indexes: seq<IndexDef>, docs: map<string, Doc>, index: Index, pk: string, row: Row)
    requires ValidDocs(docs) && Exact(cx, indexes, docs, index, pk, row)
    ensures Within(cx, indexes, docs, index, pk, row)
  {
  }

  lemma {:induction false} NoUndosForNew(cx: Codec, indexes: seq<IndexDef>, docs: map<string, Doc>, pk: string,
      after: map<string, string>)
    ensures AllUndos(cx, indexes, pk, None, after, docs) == []
  {
    if indexes != [] {
      NoUndosForNew(cx, indexes[..|indexes| - 1], docs, pk, after);
    }
  }

  lemma SameElsewhere<V>(a: map<string, V>, b: map<string, V>, pk: string, p: string)
    requires a - {pk} == b - {pk} && p != pk
    ensures p in a <==> p in b
    ensures p in a ==> a[p] == b[p]
  {
    assert p in a <==> p in a - {pk};
    assert p in b <==> p in b - {pk};
    assert p in a ==> (a - {pk})[p] == (b - {pk})[p];
  }

  function Listed(s: seq<string>): set<string> { set x <- s }

  /** A page under way: what is on it and what is not make up the keys. */
  ghost predicate OnPage(keys: set<string>, page: seq<string>, rest: set<string>) {
    && NoRepeats(page) && rest == keys - Listed(page) && Listed(page) <= keys
    && |page| + |rest| == |keys| && |Listed(page)| == |page|
  }

  lemma PageStarts(keys: set<string>)
    ensures OnPage(keys, [], keys)
  {
  }

  lemma PageGrows(keys: set<string>, page: seq<string>, rest: set<string>, pk: string)
    requires OnPage(keys, page, rest) && pk in rest
    ensures OnPage(keys, page + [pk], rest - {pk})
  {
    assert Listed(page + [pk]) == Listed(page) + {pk};
  }

  lemma DeadAre(rows: map<string, Row>, pks: seq<string>)
    ensures Dead(rows, pks) <= Listed(pks) && Dead(rows, pks) !! rows.Keys
    ensures Listed(pks) !! rows.Keys ==> Dead(rows, pks) == Listed(pks) && forall pk <- pks :: pk !in rows
  {
    if Listed(pks) !! rows.Keys {
      forall pk | pk in pks ensures pk !in rows {
        assert pk in Listed(pks);
      }
    }
  }

  lemma NothingCleared(registry: map<string, Due>, receipts: map<string, seq<Undo>>, index: Index)
    ensures registry - {} == registry && receipts - {} == receipts && Without(index, {}) == index
  {
  }

  /** The state after the sweeps so far have cleared the keys `gone`. */
  ghost predicate SweptSoFar(registry0: map<string, Due>, receipts0: map<string, seq<Undo>>, index0: Index,
                             registry: map<string, Due>, receipts: map<string, seq<Undo>>, index: Index,
                             gone: set<string>) {
    registry == registry0 - gone && receipts == receipts0 - gone && index == Without(index0, gone)
  }

  lemma SweptNothing(registry: map<string, Due>, receipts: map<string, seq<Undo>>, index: Index)
    ensures SweptSoFar(registry, receipts, index, registry, receipts, index, {})
  {
    NothingCleared(registry, receipts, index);
  }

  lemma SweptMore(registry0: map<string, Due>, receipts0: map<string, seq<Undo>>, index0: Index,
                  registry: map<string, Due>, receipts: map<string, seq<Undo>>, index: Index, a: set<string>,
                  b: set<string>)
    requires SweptSoFar(registry0, receipts0, index0, registry, receipts, index, a)
    ensures SweptSoFar(registry0, receipts0, index0, registry - b, receipts - b, Without(index, b), a + b)
  {
  }

  /** A row of the shard expired a second ago or more. */
  predicate Lapsed(expires: map<string, nat>, shardOf: string -> nat, shard: nat, now: nat, pk: string) {
    pk in expires && shardOf(pk) == shard && expires[pk] + 1000 <= now
  }

  /** Nothing is left of the key: no registry entry, no receipt, no member. */
  ghost predicate Cleared(pk: string, registry: map<string, Due>, receipts: map<string, seq<Undo>>, index: Index) {
    pk !in registry && pk !in receipts && forall k: Key, m: Member :: m.pk == pk ==> (k, m) !in index
  }

  lemma LapsedAreCleared(registry0: map<string, Due>, shardOf: string -> nat, shard: nat, now: nat,
      expires0: map<string, nat>,
                         index0: Index, gone: set<string>, receipts: map<string, seq<Undo>>)
    requires forall pk <- expires0 :: pk in registry0 && registry0[pk].Sec? && registry0[pk].at * 1000 <= expires0[pk]
    requires gone <= DueAt(registry0, shardOf, shard, now) && gone !! receipts.Keys
    ensures gone == DueAt(registry0, shardOf, shard, now) ==>
              && (forall pk <- expires0 ::
                    Lapsed(expires0, shardOf, shard, now, pk) ==>
                        pk in gone && Cleared(pk, registry0 - gone, receipts, Without(index0, gone)))
              && DueAt(registry0 - gone, shardOf, shard, now) == {}
  {
    if gone == DueAt(registry0, shardOf, shard, now) {
      NoneDue(registry0, shardOf, shard, now);
      forall pk | pk in expires0 && Lapsed(expires0, shardOf, shard, now, pk)
        ensures pk in gone && Cleared(pk, registry0 - gone, receipts, Without(index0, gone))
      {
        assert registry0[pk].at < now / 1000;
        ClearedHasNone(index0, gone, pk);
      }
    }
  }

  lemma ClearedHasNone(index: Index, gone: set<string>, pk: string)
    requires pk in gone
    ensures forall k: Key, m: Member :: m.pk == pk ==> (k, m) !in Without(index, gone)
  {
  }

  lemma NoneDue(registry: map<string, Due>, shardOf: string -> nat, shard: nat, now: nat)
    ensures DueAt(registry - DueAt(registry, shardOf, shard, now), shardOf, shard, now) == {}
  {
  }

  /** As many keys as one tick can clear. */
  function Share(batch: nat, maxBatches: nat): nat { batch * maxBatches }

  lemma AllGone(due: set<string>, gone: set<string>)
    requires gone <= due
    ensures due - gone == {} <==> gone == due
  {
    if due - gone == {} {
      assert forall x <- due :: x !in due - gone;
    }
  }

  /** With no key both due and alive, each batch so far was full, or the last one has cleared the rest. */
  ghost predicate Clearing(due: set<string>, gone: set<string>, rows: map<string, Row>, batch: nat, left: nat,
      more: bool, all: nat) {
    due !! rows.Keys ==> if more then |gone| == all - batch * left else gone == due && |due| <= all
  }

  lemma ClearingStarts(due: set<string>, rows: map<string, Row>, batch: nat, max: nat)
    ensures Clearing(due, {}, rows, batch, max, true, Share(batch, max))
  {
  }

  lemma ClearingGoes(due: set<string>, gone: set<string>, g: set<string>, rows: map<string, Row>, batch: nat,
      left: nat, n: nat, all: nat)
    requires Clearing(due, gone, rows, batch, left, true, all) && left > 0 && gone <= due && g <= due - gone
    requires (due - gone) !! rows.Keys ==> n == |g| == if |due - gone| < batch then |due - gone| else batch
    ensures Clearing(due, gone + g, rows, batch, left - 1, n >= batch, all)
  {
    if due !! rows.Keys {
      OneLess(batch, left);
      Joined(gone, g);
      if n < batch {
        RestJoins(due, gone, g);
      }
    }
  }

  lemma OneLess(batch: nat, left: nat)
    requires left > 0
    ensures batch * left == batch * (left - 1) + batch && batch * (left - 1) >= 0
  {
  }

  lemma Joined(a: set<string>, b: set<string>)
    requires a !! b
    ensures |a + b| == |a| + |b|
  {
    SmallerBy(a + b, b);
    assert a + b - b == a;
  }

  lemma RestJoins(due: set<string>, gone: set<string>, g: set<string>)
    requires gone <= due && g <= due - gone && |g| == |due - gone|
    ensures gone + g == due
  {
    SmallerBy(due - gone, g);
    AllGone(due - gone, g);
    assert gone + (due - gone) == due;
  }

  lemma ClearingEnds(due: set<string>, gone: set<string>, rows: map<string, Row>, batch: nat, left: nat,
      more: bool, all: nat)
    requires Clearing(due, gone, rows, batch, left, more, all) && (left == 0 || !more) && gone <= due
    ensures due !! rows.Keys ==> (gone == due <==> |due| <= all)
  {
    if due !! rows.Keys && more {
      SmallerBy(due, gone);
      if |due| <= all {
        assert due - gone == {};
        AllGone(due, gone);
      }
    }
  }

  ghost predicate Sweeping(due: set<string>, gone: set<string>, rows: map<string, Row>, batch: nat, left: nat,
      more: bool, all: nat,
                           registry0: map<string, Due>, receipts0: map<string, seq<Undo>>, index0: Index,
                           registry: map<string, Due>, receipts: map<string, seq<Undo>>, index: Index) {
    && gone <= due && gone !! rows.Keys && Clearing(due, gone, rows, batch, left, more, all)
    && SweptSoFar(registry0, receipts0, index0, registry, receipts, index, gone)
  }

  lemma SweepingStarts(due: set<string>, rows: map<string, Row>, batch: nat, max: nat, registry: map<string, Due>,
      receipts: map<string, seq<Undo>>, index: Index)
    ensures Sweeping(due, {}, rows, batch, max, true, Share(batch, max), registry, receipts, index, registry, receipts,
        index)
    ensures due - {} == due
  {
    ClearingStarts(due, rows, batch, max);
    SweptNothing(registry, receipts, index);
  }

  lemma SweepingGoes(due: set<string>, gone: set<string>, g: set<string>, rows: map<string, Row>, batch: nat,
      left: nat, n: nat, all: nat,
                     registry0: map<string, Due>, receipts0: map<string, seq<Undo>>, index0: Index,
                     registry: map<string, Due>, receipts: map<string, seq<Undo>>, index: Index)
    requires Sweeping(due, gone, rows, batch, left, true, all, registry0, receipts0, index0, registry, receipts, index)
    requires left > 0 && g <= due - gone && g !! rows.Keys
    requires (due - gone) !! rows.Keys ==> n == |g| == if |due - gone| < batch then |due - gone| else batch
    ensures Sweeping(due, gone + g, rows, batch, left - 1, n >= batch, all, registry0, receipts0, index0, registry - g,
        receipts - g, Without(index, g))
    ensures due - gone - g == due - (gone + g)
  {
    ClearingGoes(due, gone, g, rows, batch, left, n, all);
    SweptMore(registry0, receipts0, index0, registry, receipts, index, gone, g);
  }

  lemma SweepingEnds(due: set<string>, gone: set<string>, rows: map<string, Row>, batch: nat, left: nat,
      more: bool, all: nat,
                     registry0: map<string, Due>, receipts0: map<string, seq<Undo>>, index0: Index,
                     registry: map<string, Due>, receipts: map<string, seq<Undo>>, index: Index)
    requires Sweeping(due, gone, rows, batch, left, more, all, registry0, receipts0, index0, registry, receipts, index)
    requires (left == 0 || !more)
    ensures registry == registry0 - gone && receipts == receipts0 - gone && index == Without(index0, gone)
    ensures gone <= due && gone !! rows.Keys && (gone == due <==> due !! rows.Keys && |due| <= all)
  {
    ClearingEnds(due, gone, rows, batch, left, more, all);
  }

  // ----- what the drop job does to rows, room and registry --------------------------------------------

  datatype DropState = DropState(rows: map<string, Row>, logs: Logs, registry: map<string, Due>, leaked: set<string>)

  /** Those whose deletion is refused for good: nothing takes them off the registry. */
  function Stuck(rows: map<string, Row>, refused: set<string>): set<string> {
    set pk <- refused | pk in rows && rows[pk].ver != 1
  }

  predicate NoneStuck(rows: map<string, Row>, refused: set<string>) { Stuck(rows, refused) == {} }

  /**
   * Rows go by deletions that are not refused, and use up the room in the logs. A row whose
   * deletion would be refused stays, at version 1 without its registry entry.
   */
  ghost predicate DroppedIn(indexes: seq<IndexDef>, slotOf: string -> nat, capacity: nat, a: DropState, b: DropState,
      refused: set<string>) {
    && b.rows.Keys <= a.rows.Keys && (forall pk <- b.rows :: b.rows[pk] == a.rows[pk])
    && b.registry.Keys <= a.registry.Keys && b.leaked <= a.leaked + refused
    && (forall id: string, slot: nat :: LogLen(a.logs, id, slot) <= LogLen(b.logs, id, slot))
    && SameLoads(indexes, slotOf, a.rows, a.logs, b.rows, b.logs)
    && (forall pk <- a.rows :: RefusedIn(indexes, slotOf, capacity, a.rows, a.logs, pk) ==>
          pk in b.rows && (a.rows[pk].ver != 1 && pk in a.registry ==> pk in b.registry))
    && (forall pk <- refused :: RefusedIn(indexes, slotOf, capacity, b.rows, b.logs, pk))
    && Stuck(b.rows, refused) <= b.registry.Keys
  }

  lemma DroppedNothing(indexes: seq<IndexDef>, slotOf: string -> nat, capacity: nat, a: DropState)
    ensures DroppedIn(indexes, slotOf, capacity, a, a, {})
  {
  }

  /** Logs only grow, so a deletion that was refused once is refused again. */
  lemma StillRefused(indexes: seq<IndexDef>, slotOf: string -> nat, capacity: nat, a: DropState, b: DropState,
      refused: set<string>, pk: string)
    requires DroppedIn(indexes, slotOf, capacity, a, b, refused)
    requires RefusedIn(indexes, slotOf, capacity, a.rows, a.logs, pk)
    ensures RefusedIn(indexes, slotOf, capacity, b.rows, b.logs, pk)
  {
  }

  lemma DroppedMore(indexes: seq<IndexDef>, slotOf: string -> nat, capacity: nat, a: DropState, b: DropState,
      c: DropState, refused: set<string>, more: set<string>)
    requires DroppedIn(indexes, slotOf, capacity, a, b, refused) && DroppedIn(indexes, slotOf, capacity, b, c, more)
    ensures DroppedIn(indexes, slotOf, capacity, a, c, refused + more)
  {
    hide RefusedIn, Load;
    forall pk | RefusedIn(indexes, slotOf, capacity, b.rows, b.logs, pk)
      ensures RefusedIn(indexes, slotOf, capacity, c.rows, c.logs, pk)
    {
      StillRefused(indexes, slotOf, capacity, b, c, more, pk);
    }
    forall pk | RefusedIn(indexes, slotOf, capacity, a.rows, a.logs, pk)
      ensures RefusedIn(indexes, slotOf, capacity, b.rows, b.logs, pk)
    {
      StillRefused(indexes, slotOf, capacity, a, b, refused, pk);
    }
  }

  /** What a deletion makes of the state. */
  ghost predicate DeleteStep(indexes: seq<IndexDef>, slotOf: string -> nat, b: DropState, c: DropState, pk: string,
      deleted: bool, refused: bool) {
    && (deleted <==> pk in b.rows && (refused ==> b.rows[pk].ver == 1))
    && (!deleted ==> c == b)
    && (deleted && refused ==> c == b.(registry := b.registry - {pk}, leaked := b.leaked + {pk}))
    && (deleted && !refused ==>
          c == DropState(b.rows - {pk}, Pushed(b.logs, AllLogs(indexes, pk, Some(b.rows[pk]), map[]), slotOf(pk)),
                         b.registry - {pk}, b.leaked - {pk}))
  }

  function IfRefused(refused: bool, pk: string): set<string> { if refused then {pk} else {} }

  lemma DeleteDrops(indexes: seq<IndexDef>, slotOf: string -> nat, capacity: nat, b: DropState, c: DropState,
      pk: string, deleted: bool, refused: bool)
    requires DistinctIds(indexes) && refused == RefusedIn(indexes, slotOf, capacity, b.rows, b.logs, pk)
    requires DeleteStep(indexes, slotOf, b, c, pk, deleted, refused) && pk in b.registry
    ensures DroppedIn(indexes, slotOf, capacity, b, c, IfRefused(refused, pk))
  {
    hide AllLogs, Load, RefusedIn, Pushed, LogLen;
    if deleted && !refused {
      DeletionKeepsLoads(indexes, slotOf, b.rows, b.logs, pk);
      LogsGrow(indexes, b.logs, pk, b.rows[pk], slotOf(pk));
    } else {
      StillThere(indexes, slotOf, capacity, b, c, pk, refused);
    }
  }

  lemma LogsGrow(indexes: seq<IndexDef>, logs: Logs, pk: string, row: Row, s: nat)
    requires DistinctIds(indexes)
    ensures forall id: string, slot: nat ::
              LogLen(logs, id, slot) <= LogLen(Pushed(logs, AllLogs(indexes, pk, Some(row), map[]), s), id, slot)
  {
    hide AllLogs, Pushed;
    forall id: string, slot: nat
      ensures LogLen(logs, id, slot) <= LogLen(Pushed(logs, AllLogs(indexes, pk, Some(row), map[]), s), id, slot)
    {
      PushedLen(logs, indexes, pk, Some(row), map[], s, id, slot);
    }
  }

  /** A deletion that takes no row: at most the row is leaked. */
  lemma StillThere(indexes: seq<IndexDef>, slotOf: string -> nat, capacity: nat, b: DropState, c: DropState,
      pk: string, refused: bool)
    requires refused == RefusedIn(indexes, slotOf, capacity, b.rows, b.logs, pk) && pk in b.registry
    requires c.rows == b.rows && c.logs == b.logs
    requires c == b || (c == b.(registry := b.registry - {pk}, leaked := b.leaked + {pk}) && refused &&
                        b.rows[pk].ver == 1)
    ensures DroppedIn(indexes, slotOf, capacity, b, c, IfRefused(refused, pk))
  {
    hide Load, LogLen;
  }

  lemma SweepDrops(indexes: seq<IndexDef>, slotOf: string -> nat, capacity: nat, b: DropState, gone: set<string>)
    requires gone !! b.rows.Keys
    ensures DroppedIn(indexes, slotOf, capacity, b, b.(registry := b.registry - gone), {})
  {
  }

  /** A page under way: what has been taken off the registry, and what is left to the sweep. */
  ghost predicate OnJobPage(registry: map<string, Due>, page: seq<string>, dead: seq<string>, refused: set<string>,
      b: DropState) {
    && refused <= Listed(page) && Listed(dead) <= Listed(page)
    && b.registry == registry - (Listed(page) - Listed(dead))
    && (forall pk <- dead :: pk in b.rows ==> pk in Stuck(b.rows, refused))
    && Stuck(b.rows, refused) <= Listed(dead)
  }

  lemma JobPageBegins(b: DropState)
    ensures OnJobPage(b.registry, [], [], {}, b)
  {
  }

  lemma JobPageGoesOn(indexes: seq<IndexDef>, slotOf: string -> nat, registry: map<string, Due>, pks: seq<string>,
      i: nat, dead: seq<string>, refused: set<string>, b: DropState, c: DropState, deleted: bool, no: bool)
    requires i < |pks| && NoRepeats(pks) && OnJobPage(registry, pks[..i], dead, refused, b)
    requires DeleteStep(indexes, slotOf, b, c, pks[i], deleted, no) && (no ==> pks[i] in b.rows)
    ensures OnJobPage(registry, pks[..i + 1], if deleted then dead else dead + [pks[i]],
                      refused + IfRefused(no, pks[i]), c)
  {
    hide AllLogs, Pushed;
    var pk := pks[i];
    assert pks[..i + 1] == pks[..i] + [pk];
    assert Listed(pks[..i + 1]) == Listed(pks[..i]) + {pk} && pk !in Listed(pks[..i]);
    assert Listed(dead + [pk]) == Listed(dead) + {pk};
    var refused' := refused + IfRefused(no, pk);
    if !deleted {
      assert Listed(pks[..i + 1]) - Listed(dead + [pk]) == Listed(pks[..i]) - Listed(dead);
      assert Stuck(c.rows, refused') == Stuck(b.rows, refused) + IfRefused(no, pk);
    } else {
      assert Listed(pks[..i + 1]) - Listed(dead) == (Listed(pks[..i]) - Listed(dead)) + {pk};
      assert Stuck(c.rows, refused') == Stuck(b.rows, refused);
    }
  }

  lemma NextIsRegistered(registry: map<string, Due>, pks: seq<string>, i: nat, dead: seq<string>, refused: set<string>,
      b: DropState)
    requires i < |pks| && NoRepeats(pks) && Listed(pks) <= registry.Keys
    requires OnJobPage(registry, pks[..i], dead, refused, b)
    ensures pks[i] in b.registry
  {
    assert pks[i] in Listed(pks) && pks[i] !in Listed(pks[..i]);
  }

  lemma JobPageIsSwept(registry: map<string, Due>, pks: seq<string>, dead: seq<string>, refused: set<string>,
      b: DropState)
    requires OnJobPage(registry, pks, dead, refused, b)
    ensures refused <= Listed(pks) && Dead(b.rows, dead) !! b.rows.Keys
    ensures b.registry - Dead(b.rows, dead) == registry - (Listed(pks) - Stuck(b.rows, refused))
  {
    assert Dead(b.rows, dead) == Listed(dead) - Stuck(b.rows, refused);
    assert (Listed(pks) - Listed(dead)) + (Listed(dead) - Stuck(b.rows, refused))
        == Listed(pks) - Stuck(b.rows, refused);
  }

  lemma StuckGrows(indexes: seq<IndexDef>, slotOf: string -> nat, capacity: nat, a: DropState, b: DropState,
      c: DropState, refused: set<string>, more: set<string>)
    requires DroppedIn(indexes, slotOf, capacity, a, b, refused) && DroppedIn(indexes, slotOf, capacity, b, c, more)
    ensures Stuck(b.rows, refused) <= Stuck(c.rows, refused + more)
    ensures Stuck(c.rows, more) <= Stuck(c.rows, refused + more)
    ensures NoneStuck(c.rows, refused + more) ==> NoneStuck(b.rows, refused) && NoneStuck(c.rows, more)
  {
    hide RefusedIn, Load;
  }

  lemma KeysShrink(indexes: seq<IndexDef>, slotOf: string -> nat, capacity: nat, a: DropState, b: DropState,
      refused: set<string>)
    requires DroppedIn(indexes, slotOf, capacity, a, b, refused)
    ensures b.registry.Keys <= a.registry.Keys
  {
  }

  lemma TakenOff(registry: map<string, Due>, registry': map<string, Due>, taken: set<string>, stuck: set<string>)
    requires registry' == registry - (taken - stuck) && taken <= registry.Keys
    ensures stuck == {} ==> |registry'| + |taken| == |registry|
    ensures forall pk <- taken :: pk in registry' ==> pk in stuck
  {
    if stuck == {} {
      assert taken - stuck == taken;
      assert registry'.Keys == registry.Keys - taken;
      SmallerBy(registry.Keys, taken);
    }
  }

  lemma StuckStays(indexes: seq<IndexDef>, slotOf: string -> nat, capacity: nat, a: DropState, b: DropState,
      refused: set<string>)
    requires DroppedIn(indexes, slotOf, capacity, a, b, refused)
    ensures (exists pk <- a.registry :: RefusedIn(indexes, slotOf, capacity, a.rows, a.logs, pk) && a.rows[pk].ver != 1)
            ==> b.registry != map[]
  {
  }

  /** The registry's size after so many ticks, each within its budget and none in vain. */
  predicate Ticked(first: nat, size: nat, used: nat, rowsPerTick: nat, finished: bool) {
    if finished then used == 1 || (used > 1 && (used - 1) * rowsPerTick < first)
    else if used == 0 then size <= first
    else size > 0 && size + used * rowsPerTick <= first
  }

  lemma NoTickYet(first: nat, rowsPerTick: nat)
    ensures Ticked(first, first, 0, rowsPerTick, false)
  {
  }

  lemma TicksEnd(first: nat, size: nat, used: nat, rowsPerTick: nat, finished: bool)
    requires Ticked(first, size, used, rowsPerTick, finished)
    ensures if finished then used == 1 || (used > 1 && (used - 1) * rowsPerTick < first)
            else used > 0 ==> used * rowsPerTick < first
  {
  }

  lemma OneMoreTick(first: nat, before: nat, size: nat, used: nat, rowsPerTick: nat, finished: bool)
    requires finished <==> size == 0
    ensures Ticked(first, before, used, rowsPerTick, false) && (size == 0 || size + rowsPerTick <= before) ==>
              Ticked(first, size, used + 1, rowsPerTick, finished)
  {
    assert (used + 1) * rowsPerTick == used * rowsPerTick + rowsPerTick;
  }

  /** What is left of the job, seen from its start. */
  lemma JobOutcome(indexes: seq<IndexDef>, slotOf: string -> nat, capacity: nat, a: DropState, b: DropState,
      refused: set<string>)
    requires DroppedIn(indexes, slotOf, capacity, a, b, refused)
    requires forall id: string, s: nat :: LogLen(b.logs, id, s) <= capacity
    ensures var fits := Fits(indexes, slotOf, capacity, a.rows, a.logs);
            && (fits ==> refused == {}) && (!fits ==> b.rows != map[])
            && (refused == {} ==> b.leaked <= a.leaked && NoneStuck(b.rows, refused))
            && (b.registry == map[] ==> NoneStuck(b.rows, refused))
    ensures (exists pk <- a.registry :: RefusedIn(indexes, slotOf, capacity, a.rows, a.logs, pk) && a.rows[pk].ver != 1)
            ==> b.registry != map[]
    ensures (forall pk <- a.rows :: a.rows[pk].ver == 1) ==> NoneStuck(b.rows, refused)
  {
    StuckStays(indexes, slotOf, capacity, a, b, refused);
    hide RefusedIn, Load, Fits;
    LoadsKeepFit(indexes, slotOf, capacity, a.rows, a.logs, b.rows, b.logs);
    if Fits(indexes, slotOf, capacity, a.rows, a.logs) {
      forall pk | pk in refused ensures false {
        FitsRefusesNone(indexes, slotOf, capacity, b.rows, b.logs, pk);
      }
    } else {
      UnfitLeavesRows(indexes, slotOf, capacity, b.rows, b.logs);
    }
  }

  lemma SmallerBy(a: set<string>, b: set<string>)
    ensures b <= a ==> |a - b| == |a| - |b|
  {
    if b <= a {
      assert a == (a - b) + b;
    }
  }

  lemma FewerKeys(registry: map<string, Due>, gone: set<string>)
    ensures |registry - gone| <= |registry| && (registry - gone).Keys <= registry.Keys
  {
    assert (registry - gone).Keys == registry.Keys - gone;
    SmallerBy(registry.Keys, registry.Keys * gone);
    assert registry.Keys - gone == registry.Keys - registry.Keys * gone;
  }

  lemma PrefixDifferent(page: seq<string>, n: nat)
    requires NoRepeats(page) && n <= |page|
    ensures NoRepeats(page[..n]) && Listed(page[..n]) <= Listed(page) && |Listed(page[..n])| == n
    decreases n
  {
    if n > 0 {
      PrefixDifferent(page, n - 1);
      assert page[..n] == page[..n - 1] + [page[n - 1]];
      assert Listed(page[..n]) == Listed(page[..n - 1]) + {page[n - 1]};
      assert page[n - 1] !in page[..n - 1];
    } else {
      assert Listed(page[..0]) == {};
    }
  }
}
