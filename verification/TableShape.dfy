/**
 * Where the members of a table's synchronous indexes are while no bucket moves: what a row
 * calls for, what its receipt lists, and how one write takes the one to the other.
 */
module TableShape {
  import opened Wrappers
  import opened BucketMap
  import opened WritePath

  /** The buckets' members and their scores. */
  type Index = map<(Key, Member), Score>

  /** Plain members only, and documents under which every write is read. */
  predicate IndexOK(cx: Codec, idx: IndexDef, docs: map<string, Doc>) {
    && idx.covering == []
    && (idx.id in docs ==> DocRoutes(docs[idx.id]))
  }

  predicate DocRoutes(d: Doc) { DocOK(d) && Partition(d.ranges) }

  ghost predicate TableOK(cx: Codec, indexes: seq<IndexDef>, docs: map<string, Doc>) {
    && DistinctIds(indexes) && ValidDocs(docs)
    && (forall idx <- indexes :: IndexOK(cx, idx, docs))
    && (forall v: string :: cx.parse(v) != Some(PosInf))
  }

  /** The members a row calls for in one index: its stamp, in the buckets that writes go to. */
  function MembersIn(cx: Codec, idx: IndexDef, pk: string, iv: nat, cols: map<string, string>,
      d: Option<Doc>): seq<Redo>
    requires ValidDoc(d)
  {
    if idx.async || idx.column !in cols then []
    else
      var v := cols[idx.column];
      if idx.kind.Range? then
        if cx.parse(v).None? then []
        else Redos(RangeKeys(idx.id, RangeWriteSet(d, cx.parse(v).value)), CoveringMember(pk, iv, idx, cols),
            cx.parse(v).value)
      else
        Redos(EqKeys(idx.id, cx.esc(v), EqWriteSet(cx, d, cx.esc(v), pk)), CoveringMember(pk, iv, idx, cols), Fin(0.0))
        + (if idx.prefixCopy then Redos(LexKeys(idx.id, EqWriteSet(cx, d, "l", pk)), Lex(v, pk, iv), Fin(0.0)) else [])
  }

  ghost predicate Adds(rs: seq<Redo>, k: Key, m: Member) { exists r <- rs :: r.key == k && r.member == m }

  /** One index calls for the member. */
  ghost predicate CallsIn(cx: Codec, idx: IndexDef, docs: map<string, Doc>, pk: string, row: Row, k: Key, m: Member)
    requires ValidDocs(docs)
  {
    Adds(MembersIn(cx, idx, pk, IvOf(Some(row), idx.id), row.cols, DocOf(docs, idx.id)), k, m)
  }

  /** Some index calls for the member. */
  ghost predicate CallsFor(cx: Codec, indexes: seq<IndexDef>, docs: map<string, Doc>, pk: string, row: Row,
      k: Key, m: Member)
    requires ValidDocs(docs)
  {
    exists idx <- indexes :: CallsIn(cx, idx, docs, pk, row, k, m)
  }

  /** What a receipt written for this row lists. */
  function ReceiptOf(cx: Codec, indexes: seq<IndexDef>, pk: string, row: Row, docs: map<string, Doc>): seq<Undo> {
    if indexes == [] then []
    else
      var last := indexes[|indexes| - 1];
      ReceiptOf(cx, indexes[..|indexes| - 1], pk, row, docs) +
          ReceiptsFor(cx, last, pk, IvOf(Some(row), last.id), row.cols, DocOf(docs, last.id))
  }

  lemma {:induction false} ReceiptOfHas(cx: Codec, indexes: seq<IndexDef>, pk: string, row: Row,
      docs: map<string, Doc>, u: Undo)
    ensures u in ReceiptOf(cx, indexes, pk, row, docs) <==>
            exists idx <- indexes ::
              u in ReceiptsFor(cx, idx, pk, IvOf(Some(row), idx.id), row.cols, DocOf(docs, idx.id))
  {
    if indexes != [] {
      var front, last := indexes[..|indexes| - 1], indexes[|indexes| - 1];
      ReceiptOfHas(cx, front, pk, row, docs, u);
      assert forall x :: x in indexes <==> x in front || x == last;
    }
  }

  // ----- buckets written are buckets read -------------------------------------------------------------

  lemma EqWritesAreRead(cx: Codec, d: Option<Doc>, enc: string, pk: string)
    requires ValidDoc(d) && (d.Some? ==> DocRoutes(d.value))
    ensures forall b <- EqWriteSet(cx, d, enc, pk) :: b in EqReadSet(d, enc)
  {
    if d.Some? {
      assert enc in d.value.eq ==> EntryOK(d.value.eq[enc], d.value.next);
      WriteWithinRead(d.value, cx.hash, enc, pk);
    }
  }

  lemma RangeWritesAreRead(d: Option<Doc>, s: Score)
    requires ValidDoc(d) && (d.Some? ==> DocRoutes(d.value)) && s != PosInf
    ensures forall b <- RangeWriteSet(d, s) :: b in RangeReadSet(d, s)
  {
    if d.Some? {
      RangeWriteWithinRead(d.value, s, s, s);
    }
  }

  lemma KeysIn(id: string, enc: string, bs: seq<nat>, more: seq<nat>)
    requires forall b <- bs :: b in more
    ensures forall k <- EqKeys(id, enc, bs) :: k in EqKeys(id, enc, more)
    ensures forall k <- LexKeys(id, bs) :: k in LexKeys(id, more)
    ensures forall k <- RangeKeys(id, bs) :: k in RangeKeys(id, more)
  {
    forall i | 0 <= i < |bs|
      ensures EqKeys(id, enc, bs)[i] in EqKeys(id, enc, more) && LexKeys(id, bs)[i] in LexKeys(id, more)
      ensures RangeKeys(id, bs)[i] in RangeKeys(id, more)
    {
      assert bs[i] in more;
      var j :| 0 <= j < |more| && more[j] == bs[i];
      assert EqKeys(id, enc, more)[j] == EqKeys(id, enc, bs)[i];
      assert LexKeys(id, more)[j] == LexKeys(id, bs)[i];
      assert RangeKeys(id, more)[j] == RangeKeys(id, bs)[i];
    }
  }

  lemma UndoIn(keys: seq<Key>, m: Member, k: Key)
    ensures Undo(k, m) in Undos(keys, m) <==> k in keys
  {
    if k in keys {
      var i :| 0 <= i < |keys| && keys[i] == k;
      assert Undos(keys, m)[i] == Undo(k, m);
    }
  }

  lemma RedoIn(keys: seq<Key>, m: Member, s: Score, k: Key, m': Member)
    ensures Adds(Redos(keys, m, s), k, m') <==> k in keys && m' == m
  {
    if k in keys {
      var i :| 0 <= i < |keys| && keys[i] == k;
      assert Redos(keys, m, s)[i] == Redo(k, m, s);
    }
  }

  lemma AddsAppend(a: seq<Redo>, b: seq<Redo>, k: Key, m: Member)
    ensures Adds(a + b, k, m) <==> Adds(a, k, m) || Adds(b, k, m)
  {
  }

  /** Every member a row calls for is in its receipt, with the same bucket. */
  lemma CalledIsListed(cx: Codec, idx: IndexDef, pk: string, iv: nat, cols: map<string, string>, d: Option<Doc>,
      k: Key, m: Member)
    requires ValidDoc(d) && (d.Some? ==> DocRoutes(d.value)) && forall v: string :: cx.parse(v) != Some(PosInf)
    requires Adds(MembersIn(cx, idx, pk, iv, cols, d), k, m)
    ensures Undo(k, m) in ReceiptsFor(cx, idx, pk, iv, cols, d)
    ensures k.id == idx.id && m.pk == pk && m.ver == iv
  {
    assert !idx.async && idx.column in cols && (idx.kind.Range? ==> cx.parse(cols[idx.column]).Some?);
    hide DocRoutes, EqReadSet, EqWriteSet, RangeReadSet, RangeWriteSet, EqKeys, LexKeys, RangeKeys, Undos, Redos, Adds;
    var v := cols[idx.column];
    var cm := CoveringMember(pk, iv, idx, cols);
    if idx.kind.Range? {
      var s := cx.parse(v).value;
      RangeWritesAreRead(d, s);
      KeysIn(idx.id, "", RangeWriteSet(d, s), RangeReadSet(d, s));
      RedoIn(RangeKeys(idx.id, RangeWriteSet(d, s)), cm, s, k, m);
      UndoIn(RangeKeys(idx.id, RangeReadSet(d, s)), cm, k);
      KeyIds(idx.id, "", RangeWriteSet(d, s));
    } else {
      var enc := cx.esc(v);
      EqWritesAreRead(cx, d, enc, pk);
      KeysIn(idx.id, enc, EqWriteSet(cx, d, enc, pk), EqReadSet(d, enc));
      RedoIn(EqKeys(idx.id, enc, EqWriteSet(cx, d, enc, pk)), cm, Fin(0.0), k, m);
      UndoIn(EqKeys(idx.id, enc, EqReadSet(d, enc)), cm, k);
      KeyIds(idx.id, enc, EqWriteSet(cx, d, enc, pk));
      EqWritesAreRead(cx, d, "l", pk);
      KeysIn(idx.id, "l", EqWriteSet(cx, d, "l", pk), EqReadSet(d, "l"));
      RedoIn(LexKeys(idx.id, EqWriteSet(cx, d, "l", pk)), Lex(v, pk, iv), Fin(0.0), k, m);
      UndoIn(LexKeys(idx.id, EqReadSet(d, "l")), Lex(v, pk, iv), k);
      KeyIds(idx.id, "l", EqWriteSet(cx, d, "l", pk));
      AddsAppend(Redos(EqKeys(idx.id, enc, EqWriteSet(cx, d, enc, pk)), cm, Fin(0.0)),
                 if idx.prefixCopy then Redos(LexKeys(idx.id, EqWriteSet(cx, d, "l", pk)), Lex(v, pk, iv), Fin(0.0))
                     else [], k, m);
      NothingAdded(k, m);
    }
  }

  lemma NothingAdded(k: Key, m: Member)
    ensures !Adds([], k, m)
  {
  }

  lemma KeyIds(id: string, enc: string, bs: seq<nat>)
    ensures forall k <- EqKeys(id, enc, bs) :: k.id == id
    ensures forall k <- LexKeys(id, bs) :: k.id == id
    ensures forall k <- RangeKeys(id, bs) :: k.id == id
  {
  }

  /** A changed or dropped value: the removals are exactly what the old receipt share lists. */
  lemma UndosAreListed(cx: Codec, idx: IndexDef, pk: string, row: Option<Row>, after: map<string, string>,
      d: Option<Doc>)
    requires row.Some?
    ensures UndosFor(cx, idx, pk, row, after, d) ==
            if !idx.async && Undone(idx, row.value.cols, after)
                then ReceiptsFor(cx, idx, pk, IvOf(row, idx.id), row.value.cols, d) else []
  {
  }

  lemma UndoIds(cx: Codec, idx: IndexDef, pk: string, row: Option<Row>, after: map<string, string>, d: Option<Doc>)
    ensures forall u <- UndosFor(cx, idx, pk, row, after, d) ::
        u.key.id == idx.id && u.member.pk == pk && u.member.ver == IvOf(row, idx.id)
  {
  }

  lemma RedosAreCalled(cx: Codec, idx: IndexDef, pk: string, row: Option<Row>, after: map<string, string>,
      d: Option<Doc>)
    requires ValidDoc(d)
    ensures RedosFor(cx, idx, pk, row, after, d)
            == if Redone(idx, Columns(row), after) then MembersIn(cx, idx, pk, OldVer(row) + 1, after, d) else []
  {
  }

  /** The stamp after a write: renewed when the value changed, otherwise kept. */
  lemma StampAfter(cx: Codec, indexes: seq<IndexDef>, idx: IndexDef, row: Option<Row>, after: map<string, string>)
    requires DistinctIds(indexes) && idx in indexes && Stampable(row)
    ensures Stamped(cx, idx, row, after) ==> IvOf(Some(RowAfter(cx, indexes, row, after)), idx.id) == OldVer(row) + 1
    ensures !Stamped(cx, idx, row, after) && row.Some? && idx.id in row.value.iv ==>
              IvOf(Some(RowAfter(cx, indexes, row, after)), idx.id) == IvOf(row, idx.id)
  {
    var n :| 0 <= n < |indexes| && indexes[n] == idx;
    StampIsOwn(cx, indexes, n, row, after);
    StampHas(cx, indexes, row, after, idx.id);
  }

  // ----- one write -----------------------------------------------------------------------------------

  /** The index after a write's second stage: removals, then insertions. */
  function Written(index: Index, undos: seq<Undo>, redos: seq<Redo>): Index {
    Inserted(Removed(index, undos), redos)
  }

  function Removed(index: Index, undos: seq<Undo>): Index { map e <- index | Undo(e.0, e.1) !in undos :: index[e] }

  function Inserted(index: Index, redos: seq<Redo>): Index {
    if redos == [] then index
    else
      var last := redos[|redos| - 1];
      Inserted(index, redos[..|redos| - 1])[(last.key, last.member) := last.score]
  }

  lemma {:induction false} InsertedHas(index: Index, redos: seq<Redo>, k: Key, m: Member)
    ensures (k, m) in Inserted(index, redos) <==> (k, m) in index || Adds(redos, k, m)
    ensures (k, m) in index && !Adds(redos, k, m) ==> Inserted(index, redos)[(k, m)] == index[(k, m)]
    ensures Adds(redos, k, m) ==> AddsAt(redos, k, m, Inserted(index, redos)[(k, m)])
  {
    if redos != [] {
      var front, last := redos[..|redos| - 1], redos[|redos| - 1];
      InsertedHas(index, front, k, m);
      assert forall r :: r in redos <==> r in front || r == last;
    }
  }

  ghost predicate AddsAt(rs: seq<Redo>, k: Key, m: Member, s: Score) { Redo(k, m, s) in rs }

  lemma WrittenHas(index: Index, undos: seq<Undo>, redos: seq<Redo>, k: Key, m: Member)
    ensures (k, m) in Written(index, undos, redos) <==> ((k, m) in index && Undo(k, m) !in undos) || Adds(redos, k, m)
    ensures (k, m) in Written(index, undos, redos) ==>
              if Adds(redos, k, m) then AddsAt(redos, k, m, Written(index, undos, redos)[(k, m)])
              else Written(index, undos, redos)[(k, m)] == index[(k, m)]
  {
    InsertedHas(Removed(index, undos), redos, k, m);
  }

  /** Stamps are complete: every index with a value has one, and every other member is older. */
  predicate RowOK(cx: Codec, indexes: seq<IndexDef>, row: Row) {
    Stampable(Some(row)) && HasStamps(cx, indexes, Some(row))
  }

  lemma RowStaysOK(cx: Codec, indexes: seq<IndexDef>, row: Option<Row>, after: map<string, string>)
    requires row.Some? ==> RowOK(cx, indexes, row.value)
    ensures RowOK(cx, indexes, RowAfter(cx, indexes, row, after))
  {
    hide RowAfter;
    WriteKeepsStamps(cx, indexes, row, after);
  }

  /** One index of an existing row: called for afterwards, if and only if kept or inserted. */
  lemma UpdateInOne(cx: Codec, indexes: seq<IndexDef>, idx: IndexDef, docs: map<string, Doc>, pk: string, row: Row,
      after: map<string, string>, k: Key, m: Member)
    requires TableOK(cx, indexes, docs) && idx in indexes && RowOK(cx, indexes, row)
    ensures var d := DocOf(docs, idx.id);
            CallsIn(cx, idx, docs, pk, RowAfter(cx, indexes, Some(row), after), k, m) <==>
            || (CallsIn(cx, idx, docs, pk, row, k, m) && Undo(k, m) !in UndosFor(cx, idx, pk, Some(row), after, d))
            || Adds(RedosFor(cx, idx, pk, Some(row), after, d), k, m)
  {
    var d := DocOf(docs, idx.id);
    var row' := RowAfter(cx, indexes, Some(row), after);
    StampAfter(cx, indexes, idx, Some(row), after);
    UndosAreListed(cx, idx, pk, Some(row), after, d);
    RedosAreCalled(cx, idx, pk, Some(row), after, d);
    if CallsIn(cx, idx, docs, pk, row, k, m) {
      CalledIsListed(cx, idx, pk, IvOf(Some(row), idx.id), row.cols, d, k, m);
    }
    hide DocRoutes, EqReadSet, EqWriteSet, RangeReadSet, RangeWriteSet, Undos, Redos, ReceiptsFor, AllStamps;
    NothingAdded(k, m);
    if Redone(idx, row.cols, after) {
      NothingCalled(cx, idx, pk, IvOf(Some(row), idx.id), row.cols, d, k, m);
      Renewed(cx, idx, pk, row, after, row', d);
    } else if Undone(idx, row.cols, after) {
      NothingCalled(cx, idx, pk, IvOf(Some(row'), idx.id), after, d, k, m);
    } else {
      Unchanged(cx, indexes, idx, pk, row, after, d);
    }
  }

  lemma NothingCalled(cx: Codec, idx: IndexDef, pk: string, iv: nat, cols: map<string, string>, d: Option<Doc>,
      k: Key, m: Member)
    requires ValidDoc(d)
    ensures idx.async || idx.column !in cols ==> !Adds(MembersIn(cx, idx, pk, iv, cols, d), k, m)
  {
  }

  /** A changed value: the stamp is renewed, or in a range index the value is no number. */
  lemma Renewed(cx: Codec, idx: IndexDef, pk: string, row: Row, after: map<string, string>, row': Row, d: Option<Doc>)
    requires ValidDoc(d) && Redone(idx, row.cols, after) && row'.cols == after
    requires Stamped(cx, idx, Some(row), after) ==> IvOf(Some(row'), idx.id) == row.ver + 1
    ensures idx.async || MembersIn(cx, idx, pk, IvOf(Some(row'), idx.id), after, d) ==
        MembersIn(cx, idx, pk, row.ver + 1, after, d)
  {
  }

  lemma Unchanged(cx: Codec, indexes: seq<IndexDef>, idx: IndexDef, pk: string, row: Row, after: map<string, string>,
      d: Option<Doc>)
    requires ValidDoc(d) && idx.covering == [] && idx in indexes && DistinctIds(indexes) && RowOK(cx, indexes, row)
    requires !Redone(idx, row.cols, after) && !Undone(idx, row.cols, after)
    ensures MembersIn(cx, idx, pk, IvOf(Some(RowAfter(cx, indexes, Some(row), after)), idx.id), after, d)
            == MembersIn(cx, idx, pk, IvOf(Some(row), idx.id), row.cols, d)
  {
    StampAfter(cx, indexes, idx, Some(row), after);
  }

  lemma OnlyOwnUndo(cx: Codec, indexes: seq<IndexDef>, idx: IndexDef, docs: map<string, Doc>, pk: string,
      row: Option<Row>, after: map<string, string>, k: Key, m: Member)
    requires DistinctIds(indexes) && idx in indexes && k.id == idx.id
    ensures Undo(k, m) in AllUndos(cx, indexes, pk, row, after, docs)
            <==> Undo(k, m) in UndosFor(cx, idx, pk, row, after, DocOf(docs, idx.id))
  {
    hide UndosFor;
    UndoHas(cx, indexes, pk, row, after, docs, Undo(k, m));
    forall other | other in indexes && Undo(k, m) in UndosFor(cx, other, pk, row, after, DocOf(docs, other.id))
      ensures other == idx
    {
      UndoIds(cx, other, pk, row, after, DocOf(docs, other.id));
    }
  }

  lemma AllRedosAdd(cx: Codec, indexes: seq<IndexDef>, docs: map<string, Doc>, pk: string, row: Option<Row>,
      after: map<string, string>, k: Key, m: Member)
    requires ValidDocs(docs)
    ensures Adds(AllRedos(cx, indexes, pk, row, after, docs), k, m) <==>
            exists idx <- indexes :: Adds(RedosFor(cx, idx, pk, row, after, DocOf(docs, idx.id)), k, m)
  {
    hide RedosFor, AllRedos;
    if Adds(AllRedos(cx, indexes, pk, row, after, docs), k, m) {
      var r :| r in AllRedos(cx, indexes, pk, row, after, docs) && r.key == k && r.member == m;
      RedoHas(cx, indexes, pk, row, after, docs, r);
    }
    if idx :| idx in indexes && Adds(RedosFor(cx, idx, pk, row, after, DocOf(docs, idx.id)), k, m) {
      var r :| r in RedosFor(cx, idx, pk, row, after, DocOf(docs, idx.id)) && r.key == k && r.member == m;
      RedoHas(cx, indexes, pk, row, after, docs, r);
    }
  }

  /** The index holds for this key what the row calls for, each member with the score of its value. */
  ghost predicate Exact(cx: Codec, indexes: seq<IndexDef>, docs: map<string, Doc>, index: Index, pk: string, row: Row)
    requires ValidDocs(docs)
  {
    forall k: Key, m: Member :: m.pk == pk ==>
      && ((k, m) in index <==> CallsFor(cx, indexes, docs, pk, row, k, m))
      && ((k, m) in index ==> ScoreFits(cx, indexes, row.cols, k, index[(k, m)]))
  }

  /** The index holds for this key nothing that the row does not call for. */
  ghost predicate Within(cx: Codec, indexes: seq<IndexDef>, docs: map<string, Doc>, index: Index, pk: string, row: Row)
    requires ValidDocs(docs)
  {
    forall k: Key, m: Member :: m.pk == pk && (k, m) in index ==>
      CallsFor(cx, indexes, docs, pk, row, k, m) && ScoreFits(cx, indexes, row.cols, k, index[(k, m)])
  }

  ghost predicate OthersSame(index: Index, index': Index, pk: string) {
    forall k: Key, m: Member :: m.pk != pk ==>
      ((k, m) in index' <==> (k, m) in index) && ((k, m) in index ==> index'[(k, m)] == index[(k, m)])
  }

  lemma CalledIsOwn(cx: Codec, indexes: seq<IndexDef>, idx: IndexDef, docs: map<string, Doc>, pk: string, row: Row,
      k: Key, m: Member)
    requires TableOK(cx, indexes, docs) && idx in indexes && CallsIn(cx, idx, docs, pk, row, k, m)
    ensures k.id == idx.id && m.pk == pk
    ensures Undo(k, m) in ReceiptsFor(cx, idx, pk, IvOf(Some(row), idx.id), row.cols, DocOf(docs, idx.id))
  {
    hide DocRoutes;
    CalledIsListed(cx, idx, pk, IvOf(Some(row), idx.id), row.cols, DocOf(docs, idx.id), k, m);
  }

  /** An update takes the index from the old row's members to the new row's, all of them or some. */
  lemma UpdateIsExact(cx: Codec, indexes: seq<IndexDef>, docs: map<string, Doc>, index: Index, pk: string, row: Row,
      after: map<string, string>)
    requires TableOK(cx, indexes, docs) && RowOK(cx, indexes, row) && Within(cx, indexes, docs, index, pk, row)
    ensures var index' := Written(index, AllUndos(cx, indexes, pk, Some(row), after, docs),
        AllRedos(cx, indexes, pk, Some(row), after, docs));
            var row' := RowAfter(cx, indexes, Some(row), after);
            && (Exact(cx, indexes, docs, index, pk, row) ==> Exact(cx, indexes, docs, index', pk, row'))
            && Within(cx, indexes, docs, index', pk, row') && OthersSame(index, index', pk)
  {
    hide Written, RowAfter, CallsIn, Adds, AllUndos, AllRedos, UndosFor, RedosFor, TableOK, RowOK, ScoreFits, AddsAt;
    TableParts(cx, indexes, docs);
    var undos := AllUndos(cx, indexes, pk, Some(row), after, docs);
    var redos := AllRedos(cx, indexes, pk, Some(row), after, docs);
    var row' := RowAfter(cx, indexes, Some(row), after);
    ColumnsAfter(cx, indexes, Some(row), after);
    forall k: Key, m: Member
      ensures m.pk == pk && (k, m) in Written(index, undos, redos) ==> CallsFor(cx, indexes, docs, pk, row', k, m)
      ensures m.pk == pk && CallsFor(cx, indexes, docs, pk, row', k, m) && Exact(cx, indexes, docs, index, pk, row) ==>
                (k, m) in Written(index, undos, redos)
      ensures m.pk == pk && (k, m) in Written(index, undos, redos) ==>
                ScoreFits(cx, indexes, row'.cols, k, Written(index, undos, redos)[(k, m)])
      ensures m.pk != pk ==> ((k, m) in Written(index, undos, redos) <==> (k, m) in index)
      ensures m.pk != pk && (k, m) in index ==> Written(index, undos, redos)[(k, m)] == index[(k, m)]
    {
      WrittenHas(index, undos, redos, k, m);
      WrittenFits(cx, indexes, docs, index, pk, row, after, k, m);
      AllRedosAdd(cx, indexes, docs, pk, Some(row), after, k, m);
      if m.pk == pk {
        forall idx | idx in indexes
          ensures CallsIn(cx, idx, docs, pk, row', k, m) <==>
                  (CallsIn(cx, idx, docs, pk, row, k, m) && Undo(k, m) !in undos) ||
                      Adds(RedosFor(cx, idx, pk, Some(row), after, DocOf(docs, idx.id)), k, m)
        {
          UpdateInOne(cx, indexes, idx, docs, pk, row, after, k, m);
          if CallsIn(cx, idx, docs, pk, row, k, m) {
            CalledIsOwn(cx, indexes, idx, docs, pk, row, k, m);
            OnlyOwnUndo(cx, indexes, idx, docs, pk, Some(row), after, k, m);
          }
        }
      } else {
        OthersUntouched(cx, indexes, docs, pk, Some(row), after, k, m);
      }
    }
  }

  lemma AddedFits(cx: Codec, indexes: seq<IndexDef>, cols: map<string, string>, redos: seq<Redo>, k: Key, m: Member,
      s: Score)
    requires forall r <- redos :: ScoreFits(cx, indexes, cols, r.key, r.score)
    ensures AddsAt(redos, k, m, s) ==> ScoreFits(cx, indexes, cols, k, s)
  {
    hide ScoreFits;
    assert AddsAt(redos, k, m, s) ==> Redo(k, m, s).key == k;
  }

  lemma ColumnsAfter(cx: Codec, indexes: seq<IndexDef>, row: Option<Row>, after: map<string, string>)
    ensures RowAfter(cx, indexes, row, after).cols == after
  {
  }

  /** After an update a member that is kept has the score of a value that is kept. */
  lemma WrittenFits(cx: Codec, indexes: seq<IndexDef>, docs: map<string, Doc>, index: Index, pk: string, row: Row,
      after: map<string, string>, k: Key, m: Member)
    requires TableOK(cx, indexes, docs) && RowOK(cx, indexes, row) && Within(cx, indexes, docs, index, pk, row)
    ensures var index' := Written(index, AllUndos(cx, indexes, pk, Some(row), after, docs),
        AllRedos(cx, indexes, pk, Some(row), after, docs));
            m.pk == pk && (k, m) in index' ==> ScoreFits(cx, indexes, after, k, index'[(k, m)])
  {
    hide Written, RowAfter, CallsIn, Adds, AllUndos, AllRedos, UndosFor, RedosFor, TableOK, RowOK, ScoreFits, AddsAt;
    TableParts(cx, indexes, docs);
    var undos := AllUndos(cx, indexes, pk, Some(row), after, docs);
    var redos := AllRedos(cx, indexes, pk, Some(row), after, docs);
    var index' := Written(index, undos, redos);
    WrittenHas(index, undos, redos, k, m);
    if m.pk == pk && (k, m) in index' {
      if Adds(redos, k, m) {
        RedosAreScored(cx, indexes, pk, Some(row), after, docs);
        AddedFits(cx, indexes, after, redos, k, m, index'[(k, m)]);
      } else {
        var idx :| idx in indexes && CallsIn(cx, idx, docs, pk, row, k, m);
        CalledIsOwn(cx, indexes, idx, docs, pk, row, k, m);
        OnlyOwnUndo(cx, indexes, idx, docs, pk, Some(row), after, k, m);
        UndosAreListed(cx, idx, pk, Some(row), after, DocOf(docs, idx.id));
        ListedHasValue(cx, idx, pk, IvOf(Some(row), idx.id), row.cols, DocOf(docs, idx.id), Undo(k, m));
        SameValueFits(cx, indexes, idx, row.cols, after, k, index[(k, m)]);
      }
    }
  }

  lemma SameValueFits(cx: Codec, indexes: seq<IndexDef>, idx: IndexDef, cols: map<string, string>,
      after: map<string, string>, k: Key, s: Score)
    requires DistinctIds(indexes) && idx in indexes && idx.id == k.id && idx.column in cols && !Undone(idx, cols, after)
    requires ScoreFits(cx, indexes, cols, k, s)
    ensures ScoreFits(cx, indexes, after, k, s)
  {
    forall other | other in indexes && other.id == k.id ensures other == idx {
    }
  }

  lemma TableParts(cx: Codec, indexes: seq<IndexDef>, docs: map<string, Doc>)
    requires TableOK(cx, indexes, docs)
    ensures DistinctIds(indexes) && ValidDocs(docs)
  {
  }

  lemma OthersUntouched(cx: Codec, indexes: seq<IndexDef>, docs: map<string, Doc>, pk: string, row: Option<Row>,
      after: map<string, string>, k: Key, m: Member)
    requires ValidDocs(docs) && m.pk != pk
    ensures Undo(k, m) !in AllUndos(cx, indexes, pk, row, after, docs)
    ensures !Adds(AllRedos(cx, indexes, pk, row, after, docs), k, m)
  {
    UndoHas(cx, indexes, pk, row, after, docs, Undo(k, m));
    AllRedosAdd(cx, indexes, docs, pk, row, after, k, m);
    hide UndosFor, RedosFor, AllUndos, AllRedos;
    forall idx | idx in indexes
      ensures Undo(k, m) !in UndosFor(cx, idx, pk, row, after, DocOf(docs, idx.id))
      ensures !Adds(RedosFor(cx, idx, pk, row, after, DocOf(docs, idx.id)), k, m)
    {
      UndoIds(cx, idx, pk, row, after, DocOf(docs, idx.id));
      RedoStampOf(cx, idx, pk, row, after, DocOf(docs, idx.id));
    }
  }

  lemma InsertInOne(cx: Codec, indexes: seq<IndexDef>, idx: IndexDef, docs: map<string, Doc>, pk: string,
      after: map<string, string>, k: Key, m: Member)
    requires TableOK(cx, indexes, docs) && idx in indexes
    ensures CallsIn(cx, idx, docs, pk, RowAfter(cx, indexes, None, after), k, m)
            <==> Adds(RedosFor(cx, idx, pk, None, after, DocOf(docs, idx.id)), k, m)
  {
    hide DocRoutes, EqReadSet, EqWriteSet, RangeReadSet, RangeWriteSet, EqKeys, LexKeys, RangeKeys, Redos, AllStamps,
         RedosFor;
    StampAfter(cx, indexes, idx, None, after);
    RedosAreCalled(cx, idx, pk, None, after, DocOf(docs, idx.id));
    NothingAdded(k, m);
  }

  /** An insertion, over the members that the old receipt lists if the key comes back to life. */
  lemma InsertIsExact(cx: Codec, indexes: seq<IndexDef>, docs: map<string, Doc>, index: Index, pk: string,
      after: map<string, string>, receipt: seq<Undo>)
    requires TableOK(cx, indexes, docs) && (forall u <- receipt :: u.member.pk == pk)
    requires forall k: Key, m: Member :: m.pk == pk && (k, m) in index ==> Undo(k, m) in receipt
    ensures var index' := Written(index, receipt, AllRedos(cx, indexes, pk, None, after, docs));
            Exact(cx, indexes, docs, index', pk, RowAfter(cx, indexes, None, after)) && OthersSame(index, index', pk)
  {
    hide Written, RowAfter, CallsIn, Adds, AllRedos, RedosFor, TableOK, ScoreFits, AddsAt;
    TableParts(cx, indexes, docs);
    var redos := AllRedos(cx, indexes, pk, None, after, docs);
    RedosAreScored(cx, indexes, pk, None, after, docs);
    ColumnsAfter(cx, indexes, None, after);
    forall k: Key, m: Member
      ensures m.pk == pk && (k, m) in Written(index, receipt, redos) ==>
                ScoreFits(cx, indexes, after, k, Written(index, receipt, redos)[(k, m)])
      ensures m.pk != pk && (k, m) in index ==>
                (k, m) in Written(index, receipt, redos) && Written(index, receipt, redos)[(k, m)] == index[(k, m)]
      ensures (k, m) in Written(index, receipt, redos) <==>
              if m.pk == pk then CallsFor(cx, indexes, docs, pk, RowAfter(cx, indexes, None, after), k, m)
                  else (k, m) in index
    {
      WrittenHas(index, receipt, redos, k, m);
      AddedFits(cx, indexes, after, redos, k, m, if (k, m) in Written(index, receipt, redos) then
                                                   Written(index, receipt, redos)[(k, m)] else Fin(0.0));
      AllRedosAdd(cx, indexes, docs, pk, None, after, k, m);
      if m.pk == pk {
        forall idx | idx in indexes
          ensures CallsIn(cx, idx, docs, pk, RowAfter(cx, indexes, None, after), k, m)
                  <==> Adds(RedosFor(cx, idx, pk, None, after, DocOf(docs, idx.id)), k, m)
        {
          InsertInOne(cx, indexes, idx, docs, pk, after, k, m);
        }
      } else {
        OthersUntouched(cx, indexes, docs, pk, None, after, k, m);
      }
    }
  }

  /** A deletion leaves no member of the key. */
  lemma DeleteIsExact(cx: Codec, indexes: seq<IndexDef>, docs: map<string, Doc>, index: Index, pk: string, row: Row)
    requires TableOK(cx, indexes, docs) && Within(cx, indexes, docs, index, pk, row)
    ensures var index' := Written(index, AllUndos(cx, indexes, pk, Some(row), map[], docs), []);
            (forall k: Key, m: Member :: m.pk == pk ==> (k, m) !in index') && OthersSame(index, index', pk)
  {
    hide Written, CallsIn, Adds, AllUndos, AllRedos, UndosFor, RedosFor, TableOK, ReceiptsFor;
    TableParts(cx, indexes, docs);
    var undos := AllUndos(cx, indexes, pk, Some(row), map[], docs);
    forall k: Key, m: Member
      ensures if m.pk == pk then (k, m) !in Written(index, undos, []) else (k, m) in Written(index, undos, []) <==>
          (k, m) in index
      ensures m.pk != pk && (k, m) in index ==> Written(index, undos, [])[(k, m)] == index[(k, m)]
    {
      WrittenHas(index, undos, [], k, m);
      NothingAdded(k, m);
      if m.pk == pk {
        if idx :| idx in indexes && CallsIn(cx, idx, docs, pk, row, k, m) {
          CalledIsOwn(cx, indexes, idx, docs, pk, row, k, m);
          OnlyOwnUndo(cx, indexes, idx, docs, pk, Some(row), map[], k, m);
          UndosAreListed(cx, idx, pk, Some(row), map[], DocOf(docs, idx.id));
          ListedHasValue(cx, idx, pk, IvOf(Some(row), idx.id), row.cols, DocOf(docs, idx.id), Undo(k, m));
        }
      } else {
        OthersUntouched(cx, indexes, docs, pk, Some(row), map[], k, m);
      }
    }
  }

  lemma ListedHasValue(cx: Codec, idx: IndexDef, pk: string, iv: nat, cols: map<string, string>,
      d: Option<Doc>, u: Undo)
    requires u in ReceiptsFor(cx, idx, pk, iv, cols, d)
    ensures !idx.async && idx.column in cols && u.member.pk == pk
  {
  }

  // ----- receipts ----------------------------------------------------------------------------------------

  /** The receipt that a write builds lists the members of the row it leaves. */
  lemma {:induction false} ReceiptIsOfRow(cx: Codec, indexes: seq<IndexDef>, n: nat, docs: map<string, Doc>,
      pk: string, row: Option<Row>, after: map<string, string>)
    requires TableOK(cx, indexes, docs) && n <= |indexes| && (row.Some? ==> RowOK(cx, indexes, row.value))
    ensures AllReceipts(cx, indexes[..n], pk, row, after, docs)
            == ReceiptOf(cx, indexes[..n], pk, RowAfter(cx, indexes, row, after), docs)
  {
    hide RowAfter, DocRoutes, EqReadSet, RangeReadSet, Undos;
    if n > 0 {
      ReceiptIsOfRow(cx, indexes, n - 1, docs, pk, row, after);
      assert indexes[..n][..n - 1] == indexes[..n - 1];
      ShareIsOfRow(cx, indexes, indexes[n - 1], docs, pk, row, after);
    }
  }

  lemma ShareIsOfRow(cx: Codec, indexes: seq<IndexDef>, idx: IndexDef, docs: map<string, Doc>, pk: string,
      row: Option<Row>, after: map<string, string>)
    requires TableOK(cx, indexes, docs) && idx in indexes && (row.Some? ==> RowOK(cx, indexes, row.value))
    ensures RowAfter(cx, indexes, row, after).cols == after
    ensures ReceiptsFor(cx, idx, pk, LiveStamp(cx, idx, row, after), after, DocOf(docs, idx.id))
            == ReceiptsFor(cx, idx, pk, IvOf(Some(RowAfter(cx, indexes, row, after)), idx.id), after,
                DocOf(docs, idx.id))
  {
    StampAfter(cx, indexes, idx, row, after);
  }

  /** Every member the row calls for is in its receipt, and the receipt names no other key's members. */
  lemma ReceiptCovers(cx: Codec, indexes: seq<IndexDef>, docs: map<string, Doc>, pk: string, row: Row)
    requires TableOK(cx, indexes, docs)
    ensures forall k: Key, m: Member :: CallsFor(cx, indexes, docs, pk, row, k, m) ==>
              Undo(k, m) in ReceiptOf(cx, indexes, pk, row, docs)
    ensures forall u <- ReceiptOf(cx, indexes, pk, row, docs) :: u.member.pk == pk
  {
    hide TableOK, CallsIn, ReceiptsFor, ReceiptOf;
    TableParts(cx, indexes, docs);
    forall k: Key, m: Member | CallsFor(cx, indexes, docs, pk, row, k, m)
      ensures Undo(k, m) in ReceiptOf(cx, indexes, pk, row, docs)
    {
      var idx :| idx in indexes && CallsIn(cx, idx, docs, pk, row, k, m);
      CalledIsOwn(cx, indexes, idx, docs, pk, row, k, m);
      ReceiptOfHas(cx, indexes, pk, row, docs, Undo(k, m));
    }
    forall u | u in ReceiptOf(cx, indexes, pk, row, docs) ensures u.member.pk == pk {
      ReceiptOfHas(cx, indexes, pk, row, docs, u);
      var idx :| idx in indexes &&
                 u in ReceiptsFor(cx, idx, pk, IvOf(Some(row), idx.id), row.cols, DocOf(docs, idx.id));
      ListedHasValue(cx, idx, pk, IvOf(Some(row), idx.id), row.cols, DocOf(docs, idx.id), u);
    }
  }

  /**
   * A covering member holds copies of other columns. When one of those changes alone, the
   * stored member stays as it is while the receipt names one with the new copies: the two
   * agree exactly when no covered column has changed.
   */
  lemma CoveringReceiptDrifts(cx: Codec, idx: IndexDef, pk: string, row: Row, after: map<string, string>)
    requires idx.covering != [] && !Redone(idx, row.cols, after) && !Undone(idx, row.cols, after)
    ensures CoveringMember(pk, LiveStamp(cx, idx, Some(row), after), idx, after)
            == CoveringMember(pk, IvOf(Some(row), idx.id), idx, row.cols)
            <==> forall c <- idx.covering :: Field(after, c) == Field(row.cols, c)
  {
    assert !Stamped(cx, idx, Some(row), after);
    var a, b := Covers(idx.covering, after), Covers(idx.covering, row.cols);
    if forall c <- idx.covering :: Field(after, c) == Field(row.cols, c) {
      forall i | 0 <= i < |idx.covering| ensures a[i] == b[i] {
        assert idx.covering[i] in idx.covering;
      }
      assert a == b;
    }
    if a == b {
      forall c | c in idx.covering ensures Field(after, c) == Field(row.cols, c) {
        var i :| 0 <= i < |idx.covering| && idx.covering[i] == c;
        assert a[i] == b[i];
      }
    }
  }
}
