/**
 * The write path's expansion of one row change into index commands: exact removals of
 * the old members, stamped insertions of the new ones, the receipt that a later sweep
 * works from, and the entries of the asynchronous indexes' log.
 */
module WritePath {
  import opened Wrappers
  import opened BucketMap

  datatype Kind = Eq | Unique | Range
  datatype IndexDef = IndexDef(id: string, kind: Kind, column: string, async: bool, prefixCopy: bool,
      covering: seq<string>)

  /** Index buckets by address, and the stamped members they hold. */
  datatype Key = EqKey(id: string, enc: string, sub: nat) | RangeKey(id: string, sub: nat) |
      LexKey(id: string, sub: nat)
  datatype Member = Plain(pk: string, ver: nat) | Cover(pk: string, ver: nat, covers: seq<string>) |
      Lex(value: string, pk: string, ver: nat)

  /** A stored row: `_ver`, the columns, and the `_iv:` stamp of each index. */
  datatype Row = Row(ver: nat, cols: map<string, string>, iv: map<string, nat>)

  datatype Undo = Undo(key: Key, member: Member)
  datatype Redo = Redo(key: Key, member: Member, score: Score)
  datatype LogEntry = LogEntry(id: string, pk: string, oldVal: string, newVal: string, oldIV: nat)

  datatype Ops = Ops(undos: seq<Undo>, redos: seq<Redo>, receipts: seq<Undo>, logs: seq<LogEntry>,
                     stamps: map<string, nat>)

  /** Functions of the libraries underneath: xxhash64, value escaping, number parsing. */
  datatype Codec = Codec(hash: Hash, esc: string -> string, parse: string -> Option<Score>)

  // ----- reading the old row ------------------------------------------------------------

  function OldVer(row: Option<Row>): nat { if row.Some? then row.value.ver else 0 }

  function Columns(row: Option<Row>): map<string, string> { if row.Some? then row.value.cols else map[] }

  /** The stamp of the index's current member; a row without one falls back to its version. */
  function IvOf(row: Option<Row>, id: string): nat {
    if row.Some? && id in row.value.iv && row.value.iv[id] > 0 then row.value.iv[id] else OldVer(row)
  }

  predicate Undone(idx: IndexDef, before: map<string, string>, after: map<string, string>) {
    idx.column in before && (idx.column !in after || before[idx.column] != after[idx.column])
  }

  predicate Redone(idx: IndexDef, before: map<string, string>, after: map<string, string>) {
    idx.column in after && (idx.column !in before || before[idx.column] != after[idx.column])
  }

  // ----- addresses and members ----------------------------------------------------------

  predicate ValidDoc(d: Option<Doc>) { d.Some? ==> ValidEq(d.value) && d.value.ranges != [] }

  function EqReadSet(d: Option<Doc>, enc: string): seq<nat> {
    if d.None? then [0] else ReadBucketsEq(d.value, enc)
  }

  function EqWriteSet(cx: Codec, d: Option<Doc>, enc: string, pk: string): seq<nat>
    requires ValidDoc(d)
  {
    if d.None? then [0] else WriteTargetsEq(d.value, cx.hash, enc, pk)
  }

  function RangeReadSet(d: Option<Doc>, s: Score): seq<nat> {
    if d.None? then [0] else ReadBucketsRange(d.value, s, s)
  }

  function RangeWriteSet(d: Option<Doc>, s: Score): seq<nat>
    requires ValidDoc(d)
  {
    if d.None? then [0] else WriteTargetsRange(d.value, s)
  }

  function EqKeys(id: string, enc: string, bs: seq<nat>): (ks: seq<Key>)
    ensures |ks| == |bs|
  {
    seq(|bs|, i requires 0 <= i < |bs| => EqKey(id, enc, bs[i]))
  }

  function RangeKeys(id: string, bs: seq<nat>): (ks: seq<Key>)
    ensures |ks| == |bs|
  {
    seq(|bs|, i requires 0 <= i < |bs| => RangeKey(id, bs[i]))
  }

  function LexKeys(id: string, bs: seq<nat>): (ks: seq<Key>)
    ensures |ks| == |bs|
  {
    seq(|bs|, i requires 0 <= i < |bs| => LexKey(id, bs[i]))
  }

  function Covers(columns: seq<string>, fields: map<string, string>): seq<string> {
    seq(|columns|, i requires 0 <= i < |columns| => if columns[i] in fields then fields[columns[i]] else "")
  }

  function CoveringMember(pk: string, ver: nat, idx: IndexDef, fields: map<string, string>): Member {
    if idx.covering == [] then Plain(pk, ver) else Cover(pk, ver, Covers(idx.covering, fields))
  }

  // ----- the commands of one index ------------------------------------------------------

  function Undos(keys: seq<Key>, m: Member): seq<Undo> {
    seq(|keys|, i requires 0 <= i < |keys| => Undo(keys[i], m))
  }

  function Redos(keys: seq<Key>, m: Member, s: Score): seq<Redo> {
    seq(|keys|, i requires 0 <= i < |keys| => Redo(keys[i], m, s))
  }

  function UndosFor(cx: Codec, idx: IndexDef, pk: string, row: Option<Row>, after: map<string, string>,
      d: Option<Doc>): seq<Undo> {
    var before := Columns(row);
    if idx.async || !Undone(idx, before, after) then []
    else
      var v, iv := before[idx.column], IvOf(row, idx.id);
      if idx.kind.Range? then
        if cx.parse(v).None? then []
        else Undos(RangeKeys(idx.id, RangeReadSet(d, cx.parse(v).value)), CoveringMember(pk, iv, idx, before))
      else
        Undos(EqKeys(idx.id, cx.esc(v), EqReadSet(d, cx.esc(v))), CoveringMember(pk, iv, idx, before))
        + (if idx.prefixCopy then Undos(LexKeys(idx.id, EqReadSet(d, "l")), Lex(v, pk, iv)) else [])
  }

  function RedosFor(cx: Codec, idx: IndexDef, pk: string, row: Option<Row>, after: map<string, string>,
      d: Option<Doc>): seq<Redo>
    requires ValidDoc(d)
  {
    if idx.async || !Redone(idx, Columns(row), after) then []
    else
      var v, newVer := after[idx.column], OldVer(row) + 1;
      if idx.kind.Range? then
        if cx.parse(v).None? then []
        else Redos(RangeKeys(idx.id, RangeWriteSet(d, cx.parse(v).value)), CoveringMember(pk, newVer, idx, after),
            cx.parse(v).value)
      else
        Redos(EqKeys(idx.id, cx.esc(v), EqWriteSet(cx, d, cx.esc(v), pk)), CoveringMember(pk, newVer, idx, after),
            Fin(0.0))
        + (if idx.prefixCopy then Redos(LexKeys(idx.id, EqWriteSet(cx, d, "l", pk)), Lex(v, pk, newVer), Fin(0.0))
            else [])
  }

  /** Whether the write stamps the index with the new version. */
  predicate Stamped(cx: Codec, idx: IndexDef, row: Option<Row>, after: map<string, string>) {
    var before := Columns(row);
    if idx.async then idx.column in after && Redone(idx, before, after)
    else Redone(idx, before, after) && (idx.kind.Range? ==> cx.parse(after[idx.column]).Some?)
  }

  function LogsFor(idx: IndexDef, pk: string, row: Option<Row>, after: map<string, string>): seq<LogEntry> {
    var before := Columns(row);
    if !idx.async || (!Undone(idx, before, after) && !Redone(idx, before, after)) then []
    else [LogEntry(idx.id, pk, Field(before, idx.column), Field(after, idx.column), IvOf(row, idx.id))]
  }

  function Field(fields: map<string, string>, column: string): string {
    if column in fields then fields[column] else ""
  }

  /** The receipt names the current member in every bucket a reader could find it in. */
  function ReceiptsFor(cx: Codec, idx: IndexDef, pk: string, live: nat, after: map<string, string>,
      d: Option<Doc>): seq<Undo> {
    if idx.async || idx.column !in after then []
    else
      var v := after[idx.column];
      var m := CoveringMember(pk, live, idx, after);
      if idx.kind.Range? then
        if cx.parse(v).None? then [] else Undos(RangeKeys(idx.id, RangeReadSet(d, cx.parse(v).value)), m)
      else
        Undos(EqKeys(idx.id, cx.esc(v), EqReadSet(d, cx.esc(v))), m)
        + (if idx.prefixCopy then Undos(LexKeys(idx.id, EqReadSet(d, "l")), Lex(v, pk, live)) else [])
  }

  function LiveStamp(cx: Codec, idx: IndexDef, row: Option<Row>, after: map<string, string>): nat {
    if Stamped(cx, idx, row, after) then OldVer(row) + 1 else IvOf(row, idx.id)
  }

  function DocOf(docs: map<string, Doc>, id: string): Option<Doc> {
    if id in docs then Some(docs[id]) else None
  }

  predicate ValidDocs(docs: map<string, Doc>) {
    forall id <- docs :: ValidDoc(Some(docs[id]))
  }

  // ----- the commands of all indexes ----------------------------------------------------

  function AllUndos(cx: Codec, indexes: seq<IndexDef>, pk: string, row: Option<Row>, after: map<string, string>,
      docs: map<string, Doc>): seq<Undo> {
    if indexes == [] then []
    else
      var last := indexes[|indexes| - 1];
      AllUndos(cx, indexes[..|indexes| - 1], pk, row, after, docs) +
          UndosFor(cx, last, pk, row, after, DocOf(docs, last.id))
  }

  function AllRedos(cx: Codec, indexes: seq<IndexDef>, pk: string, row: Option<Row>, after: map<string, string>,
      docs: map<string, Doc>): seq<Redo>
    requires ValidDocs(docs)
  {
    if indexes == [] then []
    else
      var last := indexes[|indexes| - 1];
      AllRedos(cx, indexes[..|indexes| - 1], pk, row, after, docs) +
          RedosFor(cx, last, pk, row, after, DocOf(docs, last.id))
  }

  function AllReceipts(cx: Codec, indexes: seq<IndexDef>, pk: string, row: Option<Row>, after: map<string, string>,
      docs: map<string, Doc>): seq<Undo> {
    if indexes == [] then []
    else
      var last := indexes[|indexes| - 1];
      AllReceipts(cx, indexes[..|indexes| - 1], pk, row, after, docs)
      + ReceiptsFor(cx, last, pk, LiveStamp(cx, last, row, after), after, DocOf(docs, last.id))
  }

  function AllLogs(indexes: seq<IndexDef>, pk: string, row: Option<Row>, after: map<string, string>): seq<LogEntry> {
    if indexes == [] then []
    else AllLogs(indexes[..|indexes| - 1], pk, row, after) + LogsFor(indexes[|indexes| - 1], pk, row, after)
  }

  /** The `_iv:` fields the write sets. */
  function AllStamps(cx: Codec, indexes: seq<IndexDef>, row: Option<Row>,
      after: map<string, string>): map<string, nat> {
    if indexes == [] then map[]
    else
      var last := indexes[|indexes| - 1];
      var stamps := AllStamps(cx, indexes[..|indexes| - 1], row, after);
      if Stamped(cx, last, row, after) then stamps[last.id := OldVer(row) + 1] else stamps
  }

  lemma {:induction false} StampHas(cx: Codec, indexes: seq<IndexDef>, row: Option<Row>,
      after: map<string, string>, id: string)
    ensures id in AllStamps(cx, indexes, row, after)
            <==> exists idx <- indexes :: idx.id == id && Stamped(cx, idx, row, after)
    ensures id in AllStamps(cx, indexes, row, after) ==> AllStamps(cx, indexes, row, after)[id] == OldVer(row) + 1
  {
    if indexes != [] {
      var front, last := indexes[..|indexes| - 1], indexes[|indexes| - 1];
      StampHas(cx, front, row, after, id);
      assert forall x :: x in indexes <==> x in front || x == last;
    }
  }

  predicate DistinctIds(indexes: seq<IndexDef>) {
    forall i, j :: 0 <= i < j < |indexes| ==> indexes[i].id != indexes[j].id
  }

  /** The first pass over one index: removals, insertions, log entry, and whether it is stamped. */
  method ExpandIndex(cx: Codec, idx: IndexDef, pk: string, row: Option<Row>, after: map<string, string>, d: Option<Doc>)
    returns (undos: seq<Undo>, redos: seq<Redo>, logs: seq<LogEntry>, stamped: bool)
    requires ValidDoc(d)
    ensures undos == UndosFor(cx, idx, pk, row, after, d)
    ensures redos == RedosFor(cx, idx, pk, row, after, d)
    ensures logs == LogsFor(idx, pk, row, after)
    ensures stamped == Stamped(cx, idx, row, after)
  {
    hide EqReadSet, EqWriteSet, RangeReadSet, RangeWriteSet, EqKeys, LexKeys, RangeKeys, Undos, Redos, CoveringMember;
    undos, redos, logs, stamped := [], [], [], false;
    var before, newVer, oldIV := Columns(row), OldVer(row) + 1, IvOf(row, idx.id);
    var undone, redone := Undone(idx, before, after), Redone(idx, before, after);
    if idx.async {
      if undone || redone {
        logs := [LogEntry(idx.id, pk, Field(before, idx.column), Field(after, idx.column), oldIV)];
        stamped := idx.column in after;
      }
    } else if idx.kind.Range? {
      if undone && cx.parse(before[idx.column]).Some? {
        var bs := RangeReadSet(d, cx.parse(before[idx.column]).value);
        undos := AppendUndos(undos, RangeKeys(idx.id, bs), CoveringMember(pk, oldIV, idx, before));
      }
      if redone && cx.parse(after[idx.column]).Some? {
        var s := cx.parse(after[idx.column]).value;
        redos := AppendRedos(redos, RangeKeys(idx.id, RangeWriteSet(d, s)), CoveringMember(pk, newVer, idx, after), s);
        stamped := true;
      }
    } else {
      if undone {
        var enc := cx.esc(before[idx.column]);
        undos := AppendUndos(undos, EqKeys(idx.id, enc, EqReadSet(d, enc)), CoveringMember(pk, oldIV, idx, before));
      }
      if redone {
        var enc := cx.esc(after[idx.column]);
        redos := AppendRedos(redos, EqKeys(idx.id, enc, EqWriteSet(cx, d, enc, pk)),
            CoveringMember(pk, newVer, idx, after), Fin(0.0));
        stamped := true;
      }
      if idx.prefixCopy {
        if undone {
          undos := AppendUndos(undos, LexKeys(idx.id, EqReadSet(d, "l")), Lex(before[idx.column], pk, oldIV));
        }
        if redone {
          redos := AppendRedos(redos, LexKeys(idx.id, EqWriteSet(cx, d, "l", pk)),
              Lex(after[idx.column], pk, newVer), Fin(0.0));
        }
      }
    }
  }

  /** The second pass over one index: its share of the receipt. */
  method ReceiptIndex(cx: Codec, idx: IndexDef, pk: string, live: nat, after: map<string, string>, d: Option<Doc>)
    returns (receipts: seq<Undo>)
    ensures receipts == ReceiptsFor(cx, idx, pk, live, after, d)
  {
    receipts := [];
    if !idx.async && idx.column in after {
      var v := after[idx.column];
      var m := CoveringMember(pk, live, idx, after);
      if idx.kind.Range? {
        if cx.parse(v).Some? {
          receipts := AppendUndos(receipts, RangeKeys(idx.id, RangeReadSet(d, cx.parse(v).value)), m);
        }
      } else {
        receipts := AppendUndos(receipts, EqKeys(idx.id, cx.esc(v), EqReadSet(d, cx.esc(v))), m);
        if idx.prefixCopy {
          receipts := AppendUndos(receipts, LexKeys(idx.id, EqReadSet(d, "l")), Lex(v, pk, live));
        }
      }
    }
  }

  /** What the two passes have collected after the indexes seen so far. */
  ghost predicate Collected(cx: Codec, indexes: seq<IndexDef>, pk: string, row: Option<Row>,
      after: map<string, string>, docs: map<string, Doc>,
                            undos: seq<Undo>, redos: seq<Redo>, logs: seq<LogEntry>, stamps: map<string, nat>)
    requires ValidDocs(docs)
  {
    && undos == AllUndos(cx, indexes, pk, row, after, docs)
    && redos == AllRedos(cx, indexes, pk, row, after, docs)
    && logs == AllLogs(indexes, pk, row, after)
    && stamps == AllStamps(cx, indexes, row, after)
  }

  lemma CollectNext(cx: Codec, indexes: seq<IndexDef>, n: nat, pk: string, row: Option<Row>,
      after: map<string, string>, docs: map<string, Doc>,
                    undos: seq<Undo>, redos: seq<Redo>, logs: seq<LogEntry>, stamps: map<string, nat>)
    requires ValidDocs(docs) && n < |indexes|
    requires Collected(cx, indexes[..n], pk, row, after, docs, undos, redos, logs, stamps)
    ensures var idx := indexes[n];
            var d := DocOf(docs, idx.id);
            Collected(cx, indexes[..n + 1], pk, row, after, docs, undos + UndosFor(cx, idx, pk, row, after, d),
                redos + RedosFor(cx, idx, pk, row, after, d),
                logs + LogsFor(idx, pk, row, after),
                if Stamped(cx, idx, row, after) then stamps[idx.id := OldVer(row) + 1] else stamps)
  {
    hide UndosFor, RedosFor, LogsFor, Stamped;
    assert indexes[..n + 1][..n] == indexes[..n];
  }

  lemma ReceiptsNext(cx: Codec, indexes: seq<IndexDef>, n: nat, pk: string, row: Option<Row>,
      after: map<string, string>, docs: map<string, Doc>)
    requires n < |indexes|
    ensures var idx := indexes[n];
            AllReceipts(cx, indexes[..n + 1], pk, row, after, docs) ==
            AllReceipts(cx, indexes[..n], pk, row, after, docs) +
                ReceiptsFor(cx, idx, pk, LiveStamp(cx, idx, row, after), after, DocOf(docs, idx.id))
  {
    assert indexes[..n + 1][..n] == indexes[..n];
  }

  /**
   * The expansion as the guard runs it: one pass over the indexes for removals,
   * insertions, log entries and stamps, and a second pass for the full receipt, which
   * looks up in the stamps whether an index's member is the old one or the new one.
   */
  method BuildIndexOps(cx: Codec, indexes: seq<IndexDef>, pk: string, row: Option<Row>, after: map<string, string>,
      docs: map<string, Doc>)
    returns (ops: Ops)
    requires DistinctIds(indexes) && ValidDocs(docs)
    ensures ops.undos == AllUndos(cx, indexes, pk, row, after, docs)
    ensures ops.redos == AllRedos(cx, indexes, pk, row, after, docs)
    ensures ops.receipts == AllReceipts(cx, indexes, pk, row, after, docs)
    ensures ops.logs == AllLogs(indexes, pk, row, after)
    ensures ops.stamps == AllStamps(cx, indexes, row, after)
    ensures forall r <- ops.redos :: ScoreFits(cx, indexes, after, r.key, r.score)
  {
    hide AllUndos, AllRedos, AllReceipts, AllLogs, AllStamps, ScoreFits, ValidDocs, DistinctIds;
    RedosAreScored(cx, indexes, pk, row, after, docs);
    var undos, redos, logs, stamps := FirstPass(cx, indexes, pk, row, after, docs);
    var receipts := SecondPass(cx, indexes, pk, row, after, docs, stamps);
    ops := Ops(undos, redos, receipts, logs, stamps);
  }

  method FirstPass(cx: Codec, indexes: seq<IndexDef>, pk: string, row: Option<Row>, after: map<string, string>,
      docs: map<string, Doc>)
    returns (undos: seq<Undo>, redos: seq<Redo>, logs: seq<LogEntry>, stamps: map<string, nat>)
    requires ValidDocs(docs)
    ensures Collected(cx, indexes, pk, row, after, docs, undos, redos, logs, stamps)
  {
    undos, redos, logs, stamps := [], [], [], map[];
    for n := 0 to |indexes|
      invariant Collected(cx, indexes[..n], pk, row, after, docs, undos, redos, logs, stamps)
    {
      var idx := indexes[n];
      CollectNext(cx, indexes, n, pk, row, after, docs, undos, redos, logs, stamps);
      var us, rs, ls, stamped := ExpandIndex(cx, idx, pk, row, after, DocOf(docs, idx.id));
      undos, redos, logs := undos + us, redos + rs, logs + ls;
      if stamped {
        stamps := stamps[idx.id := OldVer(row) + 1];
      }
    }
    assert indexes[..|indexes|] == indexes;
  }

  method SecondPass(cx: Codec, indexes: seq<IndexDef>, pk: string, row: Option<Row>, after: map<string, string>,
      docs: map<string, Doc>, stamps: map<string, nat>)
    returns (receipts: seq<Undo>)
    requires DistinctIds(indexes) && stamps == AllStamps(cx, indexes, row, after)
    ensures receipts == AllReceipts(cx, indexes, pk, row, after, docs)
  {
    receipts := [];
    for n := 0 to |indexes|
      invariant receipts == AllReceipts(cx, indexes[..n], pk, row, after, docs)
    {
      var idx := indexes[n];
      ReceiptsNext(cx, indexes, n, pk, row, after, docs);
      StampIsOwn(cx, indexes, n, row, after);
      var live := if idx.id in stamps then OldVer(row) + 1 else IvOf(row, idx.id);
      var us := ReceiptIndex(cx, idx, pk, live, after, DocOf(docs, idx.id));
      receipts := receipts + us;
    }
    assert indexes[..|indexes|] == indexes;
  }

  lemma StampIsOwn(cx: Codec, indexes: seq<IndexDef>, n: nat, row: Option<Row>, after: map<string, string>)
    requires DistinctIds(indexes) && n < |indexes|
    ensures indexes[n].id in AllStamps(cx, indexes, row, after) <==> Stamped(cx, indexes[n], row, after)
  {
    StampHas(cx, indexes, row, after, indexes[n].id);
    assert indexes[n] in indexes;
  }

  method AppendUndos(prefix: seq<Undo>, keys: seq<Key>, m: Member) returns (undos: seq<Undo>)
    ensures undos == prefix + Undos(keys, m)
  {
    undos := prefix;
    for i := 0 to |keys|
      invariant undos == prefix + Undos(keys, m)[..i]
    {
      undos := undos + [Undo(keys[i], m)];
    }
  }

  method AppendRedos(prefix: seq<Redo>, keys: seq<Key>, m: Member, s: Score) returns (redos: seq<Redo>)
    ensures redos == prefix + Redos(keys, m, s)
  {
    redos := prefix;
    for i := 0 to |keys|
      invariant redos == prefix + Redos(keys, m, s)[..i]
    {
      redos := redos + [Redo(keys[i], m, s)];
    }
  }

  // ----- the row after the write, and what the two lists mean ---------------------------

  /** The row the atomic script leaves: new columns only, stamps kept unless renewed. */
  function RowAfter(cx: Codec, indexes: seq<IndexDef>, row: Option<Row>, after: map<string, string>): Row {
    Row(OldVer(row) + 1, after, (if row.Some? then row.value.iv else map[]) + AllStamps(cx, indexes, row, after))
  }

  /** A row whose stamps were all written by this path. */
  predicate Stampable(row: Option<Row>) {
    row.Some? ==>
      && row.value.ver > 0
      && (forall id <- row.value.iv :: 0 < row.value.iv[id] <= row.value.ver)
  }

  /** Every sync index with a value has its stamp in the row. */
  predicate HasStamps(cx: Codec, indexes: seq<IndexDef>, row: Option<Row>) {
    row.Some? ==>
      forall idx <- indexes ::
        idx.column in row.value.cols && (idx.kind.Range? ==> cx.parse(row.value.cols[idx.column]).Some?) ==>
        idx.id in row.value.iv
  }

  lemma WriteKeepsStamps(cx: Codec, indexes: seq<IndexDef>, row: Option<Row>, after: map<string, string>)
    requires Stampable(row) && HasStamps(cx, indexes, row)
    ensures Stampable(Some(RowAfter(cx, indexes, row, after)))
    ensures HasStamps(cx, indexes, Some(RowAfter(cx, indexes, row, after)))
  {
    forall id ensures id in AllStamps(cx, indexes, row, after) <==> exists idx <- indexes ::
      idx.id == id && Stamped(cx, idx, row, after)
              ensures id in AllStamps(cx, indexes, row, after) ==>
                        AllStamps(cx, indexes, row, after)[id] == OldVer(row) + 1 {
      StampHas(cx, indexes, row, after, id);
    }
  }

  lemma {:induction false} UndoHas(cx: Codec, indexes: seq<IndexDef>, pk: string, row: Option<Row>,
      after: map<string, string>, docs: map<string, Doc>, u: Undo)
    ensures u in AllUndos(cx, indexes, pk, row, after, docs) <==>
            exists idx <- indexes :: u in UndosFor(cx, idx, pk, row, after, DocOf(docs, idx.id))
  {
    if indexes != [] {
      var front, last := indexes[..|indexes| - 1], indexes[|indexes| - 1];
      UndoHas(cx, front, pk, row, after, docs, u);
      assert forall x :: x in indexes <==> x in front || x == last;
    }
  }

  lemma {:induction false} RedoHas(cx: Codec, indexes: seq<IndexDef>, pk: string, row: Option<Row>,
      after: map<string, string>, docs: map<string, Doc>, r: Redo)
    requires ValidDocs(docs)
    ensures r in AllRedos(cx, indexes, pk, row, after, docs) <==>
            exists idx <- indexes :: r in RedosFor(cx, idx, pk, row, after, DocOf(docs, idx.id))
  {
    if indexes != [] {
      var front, last := indexes[..|indexes| - 1], indexes[|indexes| - 1];
      RedoHas(cx, front, pk, row, after, docs, r);
      assert forall x :: x in indexes <==> x in front || x == last;
    }
  }

  lemma {:induction false} ReceiptHas(cx: Codec, indexes: seq<IndexDef>, pk: string, row: Option<Row>,
      after: map<string, string>, docs: map<string, Doc>, u: Undo)
    ensures u in AllReceipts(cx, indexes, pk, row, after, docs) <==>
            exists idx <- indexes ::
              u in ReceiptsFor(cx, idx, pk, LiveStamp(cx, idx, row, after), after, DocOf(docs, idx.id))
  {
    if indexes != [] {
      var front, last := indexes[..|indexes| - 1], indexes[|indexes| - 1];
      ReceiptHas(cx, front, pk, row, after, docs, u);
      assert forall x :: x in indexes <==> x in front || x == last;
    }
  }

  lemma UndoStampOf(cx: Codec, idx: IndexDef, pk: string, row: Option<Row>, after: map<string, string>, d: Option<Doc>)
    requires Stampable(row)
    ensures forall u <- UndosFor(cx, idx, pk, row, after, d) ::
        u.member.pk == pk && u.member.ver == IvOf(row, idx.id) <= OldVer(row)
  {
  }

  lemma RedoStampOf(cx: Codec, idx: IndexDef, pk: string, row: Option<Row>, after: map<string, string>, d: Option<Doc>)
    requires ValidDoc(d)
    ensures forall r <- RedosFor(cx, idx, pk, row, after, d) :: r.member.pk == pk && r.member.ver == OldVer(row) + 1
  {
  }

  /** What an equality index gets: the member in the value's buckets, and the copy in those of "l". */
  lemma EqInsertions(cx: Codec, idx: IndexDef, pk: string, row: Option<Row>, after: map<string, string>, d: Option<Doc>,
      r: Redo)
    requires ValidDoc(d) && !idx.kind.Range? && !idx.async && Redone(idx, Columns(row), after)
    ensures r in RedosFor(cx, idx, pk, row, after, d)
            <==>
            var v, ver := after[idx.column], OldVer(row) + 1;
            || (r == Redo(EqKey(idx.id, cx.esc(v), r.key.sub), CoveringMember(pk, ver, idx, after), Fin(0.0))
                && r.key.sub in EqWriteSet(cx, d, cx.esc(v), pk))
            || (idx.prefixCopy && r == Redo(LexKey(idx.id, r.key.sub), Lex(v, pk, ver), Fin(0.0))
                && r.key.sub in EqWriteSet(cx, d, "l", pk))
  {
    var v := after[idx.column];
    var bs, ls := EqWriteSet(cx, d, cx.esc(v), pk), EqWriteSet(cx, d, "l", pk);
    var m, l := CoveringMember(pk, OldVer(row) + 1, idx, after), Lex(v, pk, OldVer(row) + 1);
    var own := Redos(EqKeys(idx.id, cx.esc(v), bs), m, Fin(0.0));
    var copies := Redos(LexKeys(idx.id, ls), l, Fin(0.0));
    hide EqWriteSet, CoveringMember;
    if i: nat :| i < |bs| && bs[i] == r.key.sub {
      assert own[i] == Redo(EqKey(idx.id, cx.esc(v), r.key.sub), m, Fin(0.0));
    }
    if i: nat :| i < |ls| && ls[i] == r.key.sub {
      assert copies[i] == Redo(LexKey(idx.id, r.key.sub), l, Fin(0.0));
    }
    if r in own {
      var i :| 0 <= i < |own| && own[i] == r;
      assert bs[i] in bs;
    }
    if r in copies {
      var i :| 0 <= i < |copies| && copies[i] == r;
      assert ls[i] in ls;
    }
  }

  /** A row that was never stamped for the index is taken to be stamped with its version. */
  lemma UnstampedUndo(cx: Codec, idx: IndexDef, pk: string, row: Row, after: map<string, string>, d: Option<Doc>)
    requires idx.id !in row.iv || row.iv[idx.id] == 0
    ensures forall u <- UndosFor(cx, idx, pk, Some(row), after, d) :: u.member.ver == row.ver
  {
  }

  /**
   * The score that a member has in a bucket: in a range index the number that the column's
   * value is, otherwise none that matters, which is stored as 0.
   */
  ghost predicate ScoreFits(cx: Codec, indexes: seq<IndexDef>, cols: map<string, string>, k: Key, s: Score) {
    if k.RangeKey? then
      exists idx <- indexes :: idx.id == k.id && idx.column in cols && cx.parse(cols[idx.column]) == Some(s)
    else s == Fin(0.0)
  }

  /** Every insertion carries the score of the new value. */
  lemma RedosAreScored(cx: Codec, indexes: seq<IndexDef>, pk: string, row: Option<Row>, after: map<string, string>,
      docs: map<string, Doc>)
    requires ValidDocs(docs)
    ensures forall r <- AllRedos(cx, indexes, pk, row, after, docs) :: ScoreFits(cx, indexes, after, r.key, r.score)
  {
    hide AllRedos, RedosFor, ScoreFits;
    forall r | r in AllRedos(cx, indexes, pk, row, after, docs) ensures ScoreFits(cx, indexes, after, r.key, r.score) {
      RedoHas(cx, indexes, pk, row, after, docs, r);
      var idx :| idx in indexes && r in RedosFor(cx, idx, pk, row, after, DocOf(docs, idx.id));
      RedoIsScored(cx, indexes, idx, pk, row, after, DocOf(docs, idx.id), r);
    }
  }

  lemma RedoIsScored(cx: Codec, indexes: seq<IndexDef>, idx: IndexDef, pk: string, row: Option<Row>,
      after: map<string, string>, d: Option<Doc>, r: Redo)
    requires ValidDoc(d) && idx in indexes && r in RedosFor(cx, idx, pk, row, after, d)
    ensures ScoreFits(cx, indexes, after, r.key, r.score)
    ensures !r.key.RangeKey? <==> !idx.kind.Range?
  {
    hide RangeWriteSet, EqWriteSet;
  }

  /**
   * The two lists of one write never meet: removals name members stamped at or before the
   * version the write observed, insertions name members stamped with the version it makes.
   */
  lemma UndosPrecedeRedos(cx: Codec, indexes: seq<IndexDef>, pk: string, row: Option<Row>, after: map<string, string>,
      docs: map<string, Doc>)
    requires ValidDocs(docs) && Stampable(row)
    ensures forall u <- AllUndos(cx, indexes, pk, row, after, docs) :: u.member.pk == pk && u.member.ver <= OldVer(row)
    ensures forall r <- AllRedos(cx, indexes, pk, row, after, docs) ::
        r.member.pk == pk && r.member.ver == OldVer(row) + 1
  {
    forall u | u in AllUndos(cx, indexes, pk, row, after, docs)
      ensures u.member.pk == pk && u.member.ver <= OldVer(row)
    {
      UndoHas(cx, indexes, pk, row, after, docs, u);
      var idx :| idx in indexes && u in UndosFor(cx, idx, pk, row, after, DocOf(docs, idx.id));
      UndoStampOf(cx, idx, pk, row, after, DocOf(docs, idx.id));
    }
    forall r | r in AllRedos(cx, indexes, pk, row, after, docs)
      ensures r.member.pk == pk && r.member.ver == OldVer(row) + 1
    {
      RedoHas(cx, indexes, pk, row, after, docs, r);
      var idx :| idx in indexes && r in RedosFor(cx, idx, pk, row, after, DocOf(docs, idx.id));
      RedoStampOf(cx, idx, pk, row, after, DocOf(docs, idx.id));
    }
  }
}
