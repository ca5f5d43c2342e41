/**
 * The asynchronous index: the row script appends a log entry in the same step that changes
 * the row, and a consumer turns entries into bucket commands later, a batch at a time. It may
 * stop after any command and start over.
 */
module AsyncIndex {
  import opened Wrappers
  import opened BucketMap
  import opened WritePath
  import opened Text
  import B = Buckets

  // ----- log entries as text ------------------------------------------------------------------

  datatype Entry = Entry(pk: string, oldVal: string, newVal: string, oldIV: nat, ver: nat)

  predicate EntryOK(e: Entry) { Bytes(e.oldVal) && Bytes(e.newVal) && e.ver > 0 }

  function FormatEntry(e: Entry): string
    requires EntryOK(e)
  {
    e.pk + [UNIT_SEPARATOR] + (QueryEscape(e.oldVal) + [UNIT_SEPARATOR] + (QueryEscape(e.newVal) + [UNIT_SEPARATOR]
      + (Digits(e.oldIV) + [UNIT_SEPARATOR] + Digits(e.ver))))
  }

  function ParseEntry(s: string): Option<Entry> {
    var parts := SplitN(s, UNIT_SEPARATOR, 5);
    if |parts| != 5 then None
    else
      var oldVal, newVal, oldIV, ver := QueryUnescape(parts[1]), QueryUnescape(parts[2]), ParseDigits(parts[3]),
          ParseDigits(parts[4]);
      if oldVal.None? || newVal.None? || oldIV.None? || ver.None? || ver.value == 0 then None
      else Some(Entry(parts[0], oldVal.value, newVal.value, oldIV.value, ver.value))
  }

  lemma NoSeparator(v: string, n: nat)
    requires Bytes(v)
    ensures UNIT_SEPARATOR !in QueryEscape(v) && UNIT_SEPARATOR !in Digits(n)
  {
    EscapeRoundTrip(v);
  }

  /** The consumer reads back what the script wrote exactly when the key has no separator in it. */
  lemma EntryRoundTrip(e: Entry)
    requires EntryOK(e)
    ensures ParseEntry(FormatEntry(e)) == Some(e) <==> UNIT_SEPARATOR !in e.pk
  {
    hide QueryEscape, QueryUnescape, Digits, ParseDigits, SplitN;
    if UNIT_SEPARATOR in e.pk {
      FirstPartIsShort(e.pk, FormatEntry(e)[|e.pk|..]);
      assert FormatEntry(e) == e.pk + FormatEntry(e)[|e.pk|..];
    } else {
      NoSeparator(e.oldVal, e.oldIV);
      NoSeparator(e.newVal, e.ver);
      SplitFive(e.pk, QueryEscape(e.oldVal), QueryEscape(e.newVal), Digits(e.oldIV), Digits(e.ver));
      EscapeRoundTrip(e.oldVal);
      EscapeRoundTrip(e.newVal);
      DigitsRoundTrip(e.oldIV);
      DigitsRoundTrip(e.ver);
    }
  }

  lemma FirstPartIsShort(pk: string, rest: string)
    requires UNIT_SEPARATOR in pk
    ensures |SplitN(pk + rest, UNIT_SEPARATOR, 5)[0]| < |pk|
  {
    var i := IndexOf(pk, UNIT_SEPARATOR).value;
    assert pk + rest == pk[..i] + [UNIT_SEPARATOR] + (pk[i + 1..] + rest);
    SplitStep(pk[..i], UNIT_SEPARATOR, pk[i + 1..] + rest, 5);
  }

  lemma SplitThree(c: string, d: string, e: string)
    requires UNIT_SEPARATOR !in c && UNIT_SEPARATOR !in d && UNIT_SEPARATOR !in e
    ensures SplitN(c + [UNIT_SEPARATOR] + (d + [UNIT_SEPARATOR] + e), UNIT_SEPARATOR, 3) == [c, d, e]
  {
    SplitStep(d, UNIT_SEPARATOR, e, 2);
    assert SplitN(e, UNIT_SEPARATOR, 1) == [e];
    SplitStep(c, UNIT_SEPARATOR, d + [UNIT_SEPARATOR] + e, 3);
  }

  lemma SplitFive(a: string, b: string, c: string, d: string, e: string)
    requires UNIT_SEPARATOR !in a && UNIT_SEPARATOR !in b && UNIT_SEPARATOR !in c && UNIT_SEPARATOR !in d
    requires UNIT_SEPARATOR !in e
    ensures SplitN(a + [UNIT_SEPARATOR] + (b + [UNIT_SEPARATOR] + (c + [UNIT_SEPARATOR] + (d + [UNIT_SEPARATOR] + e))),
        UNIT_SEPARATOR, 5)
            == [a, b, c, d, e]
  {
    hide SplitN;
    SplitThree(c, d, e);
    var s3 := c + [UNIT_SEPARATOR] + (d + [UNIT_SEPARATOR] + e);
    SplitFour(b, s3, c, d, e);
    SplitStep(a, UNIT_SEPARATOR, b + [UNIT_SEPARATOR] + s3, 5);
  }

  lemma SplitFour(b: string, rest: string, c: string, d: string, e: string)
    requires UNIT_SEPARATOR !in b && SplitN(rest, UNIT_SEPARATOR, 3) == [c, d, e]
    ensures SplitN(b + [UNIT_SEPARATOR] + rest, UNIT_SEPARATOR, 4) == [b, c, d, e]
  {
    hide SplitN;
    SplitStep(b, UNIT_SEPARATOR, rest, 4);
  }

  // ----- bucket commands ------------------------------------------------------------------------

  datatype Cmd = Add(key: Key, member: Member, score: Score) | Rem(key: Key, member: Member)

  function Look(zs: B.Zsets, k: Key, m: Member): Option<Score> {
    if m in B.At(zs, k) then Some(B.At(zs, k)[m]) else None
  }

  function Apply(zs: B.Zsets, c: Cmd): B.Zsets {
    if c.Add? then B.ZAdd(zs, c.key, c.member, c.score) else B.ZRem(zs, c.key, c.member)
  }

  function Fold(zs: B.Zsets, cmds: seq<Cmd>): B.Zsets
    decreases |cmds|
  {
    if cmds == [] then zs else Fold(Apply(zs, cmds[0]), cmds[1..])
  }

  ghost predicate Touches(cmds: seq<Cmd>, k: Key, m: Member) { exists c <- cmds :: c.key == k && c.member == m }

  ghost predicate Alike(a: B.Zsets, b: B.Zsets) { forall k: Key, m: Member :: Look(a, k, m) == Look(b, k, m) }

  lemma ApplyAt(zs: B.Zsets, c: Cmd, k: Key, m: Member)
    ensures Look(Apply(zs, c), k, m) ==
            if c.key == k && c.member == m then (if c.Add? then Some(c.score) else None) else Look(zs, k, m)
  {
  }

  lemma {:induction false} FoldAppend(zs: B.Zsets, a: seq<Cmd>, b: seq<Cmd>)
    ensures Fold(zs, a + b) == Fold(Fold(zs, a), b)
    decreases |a|
  {
    if a == [] {
      assert a + b == b;
    } else {
      assert (a + b)[1..] == a[1..] + b;
      FoldAppend(Apply(zs, a[0]), a[1..], b);
    }
  }

  lemma {:induction false} FoldLeavesOthers(zs: B.Zsets, cmds: seq<Cmd>, k: Key, m: Member)
    requires !Touches(cmds, k, m)
    ensures Look(Fold(zs, cmds), k, m) == Look(zs, k, m)
    decreases |cmds|
  {
    if cmds != [] {
      assert cmds[0] in cmds;
      assert forall c <- cmds[1..] :: c in cmds;
      ApplyAt(zs, cmds[0], k, m);
      FoldLeavesOthers(Apply(zs, cmds[0]), cmds[1..], k, m);
    }
  }

  /** Where two stores differ only in places the commands touch, the commands make them alike. */
  lemma {:induction false} FoldForgets(a: B.Zsets, b: B.Zsets, cmds: seq<Cmd>)
    requires forall k: Key, m: Member :: !Touches(cmds, k, m) ==> Look(a, k, m) == Look(b, k, m)
    ensures Alike(Fold(a, cmds), Fold(b, cmds))
    decreases |cmds|
  {
    if cmds != [] {
      var a', b', rest := Apply(a, cmds[0]), Apply(b, cmds[0]), cmds[1..];
      forall k: Key, m: Member | !Touches(rest, k, m) ensures Look(a', k, m) == Look(b', k, m) {
        ApplyAt(a, cmds[0], k, m);
        ApplyAt(b, cmds[0], k, m);
        if !(cmds[0].key == k && cmds[0].member == m) {
          assert !Touches(cmds, k, m);
        }
      }
      FoldForgets(a', b', rest);
    }
  }

  /** Having run any of the commands before, in any order, makes no difference to running all of them. */
  lemma RerunIsHarmless(zs: B.Zsets, done: seq<Cmd>, cmds: seq<Cmd>)
    requires forall c <- done :: c in cmds
    ensures Alike(Fold(Fold(zs, done), cmds), Fold(zs, cmds))
  {
    forall k: Key, m: Member | !Touches(cmds, k, m) ensures Look(Fold(zs, done), k, m) == Look(zs, k, m) {
      FoldLeavesOthers(zs, done, k, m);
    }
    FoldForgets(Fold(zs, done), zs, cmds);
  }

  // ----- an entry's commands ------------------------------------------------------------------------

  /** The old member is removed, the new one inserted; an empty value stands for none. */
  function CmdsOf(cx: Codec, idx: IndexDef, e: Entry): seq<Cmd> {
    if idx.kind.Range? then
      (if e.oldVal != "" then [Rem(RangeKey(idx.id, 0), Plain(e.pk, e.oldIV))] else [])
      + (if e.newVal != "" && cx.parse(e.newVal).Some?
          then [Add(RangeKey(idx.id, 0), Plain(e.pk, e.ver), cx.parse(e.newVal).value)] else [])
    else
      (if e.oldVal != "" then [Rem(EqKey(idx.id, cx.esc(e.oldVal), 0), Plain(e.pk, e.oldIV))] else [])
      + (if e.newVal != "" then [Add(EqKey(idx.id, cx.esc(e.newVal), 0), Plain(e.pk, e.ver), Fin(0.0))] else [])
      + (if idx.prefixCopy && e.oldVal != "" then [Rem(LexKey(idx.id, 0), Lex(e.oldVal, e.pk, e.oldIV))] else [])
      + (if idx.prefixCopy && e.newVal != "" then [Add(LexKey(idx.id, 0), Lex(e.newVal, e.pk, e.ver), Fin(0.0))]
          else [])
  }

  /** All commands of a log; text that is no entry has none. */
  function CmdsOfLog(cx: Codec, idx: IndexDef, log: seq<string>): seq<Cmd> {
    if log == [] then []
    else
      (match ParseEntry(log[0]) { case Some(e) => CmdsOf(cx, idx, e) case None => [] })
      + CmdsOfLog(cx, idx, log[1..])
  }

  lemma {:induction false} LogAppend(cx: Codec, idx: IndexDef, a: seq<string>, b: seq<string>)
    ensures CmdsOfLog(cx, idx, a + b) == CmdsOfLog(cx, idx, a) + CmdsOfLog(cx, idx, b)
  {
    if a == [] {
      assert a + b == b;
    } else {
      assert (a + b)[1..] == a[1..] + b;
      LogAppend(cx, idx, a[1..], b);
    }
  }

  /** The index once the whole log has been consumed. */
  function Replay(cx: Codec, idx: IndexDef, zs: B.Zsets,
      log: seq<string>): B.Zsets { Fold(zs, CmdsOfLog(cx, idx, log)) }

  // ----- what the index is for -------------------------------------------------------------------------

  /** The member that a row calls for: none without a value or, in a range index, without a number. */
  predicate Calls(cx: Codec, idx: IndexDef, pk: string, row: Row, k: Key, m: Member, s: Score) {
    && idx.column in row.cols && row.cols[idx.column] != ""
    && var v, iv := row.cols[idx.column], IvOf(Some(row), idx.id);
       if idx.kind.Range? then cx.parse(v) == Some(s) && k == RangeKey(idx.id, 0) && m == Plain(pk, iv)
       else
         && s == Fin(0.0)
         && ((k == EqKey(idx.id, cx.esc(v), 0) && m == Plain(pk, iv)) ||
             (idx.prefixCopy && k == LexKey(idx.id, 0) && m == Lex(v, pk, iv)))
  }

  /** The index holds the current member of each row and nothing else. */
  ghost predicate Shows(cx: Codec, idx: IndexDef, rows: map<string, Row>, zs: B.Zsets) {
    forall k: Key, m: Member, s: Score ::
      Look(zs, k, m) == Some(s) <==> m.pk in rows && Calls(cx, idx, m.pk, rows[m.pk], k, m, s)
  }

  /** The row's version and stamp as the write path leaves them. */
  predicate RowOK(idx: IndexDef, row: Row) {
    && row.ver > 0
    && (forall c <- row.cols :: Bytes(row.cols[c]))
    && (idx.column in row.cols ==> idx.id in row.iv)
    && (idx.id in row.iv ==> 0 < row.iv[idx.id] <= row.ver)
  }

  predicate ValidIndex(idx: IndexDef) { idx.async && (idx.kind.Range? ==> !idx.prefixCopy) }

  function Before(rows: map<string, Row>, pk: string): Option<Row> { if pk in rows then Some(rows[pk]) else None }

  /** The entry that the script appends, if the column changes. */
  function EntryFor(idx: IndexDef, pk: string, row: Option<Row>, after: map<string, string>, ver: nat): Option<Entry> {
    if Undone(idx, Columns(row), after) || Redone(idx, Columns(row), after)
    then Some(Entry(pk, Field(Columns(row), idx.column), Field(after, idx.column), IvOf(row, idx.id), ver))
    else None
  }

  lemma StampAfter(cx: Codec, idx: IndexDef, row: Option<Row>, after: map<string, string>)
    ensures idx.id in AllStamps(cx, [idx], row, after) <==> Stamped(cx, idx, row, after)
    ensures AllStamps(cx, [idx], row, after)
            == if Stamped(cx, idx, row, after) then map[idx.id := OldVer(row) + 1] else map[]
  {
    assert [idx][..0] == [];
  }

  /** The commands of one entry take the index from the row's old member to its new one. */
  lemma EntryShows(cx: Codec, idx: IndexDef, rows: map<string, Row>, zs: B.Zsets, pk: string,
      after: map<string, string>)
    requires ValidIndex(idx) && Shows(cx, idx, rows, zs) && forall p <- rows :: RowOK(idx, rows[p])
    ensures var row := Before(rows, pk);
            var e := EntryFor(idx, pk, row, after, OldVer(row) + 1);
            Shows(cx, idx, rows[pk := RowAfter(cx, [idx], row, after)],
                  if e.Some? then Fold(zs, CmdsOf(cx, idx, e.value)) else zs)
  {
    hide Look, Fold, Calls, CmdsOf;
    var row := Before(rows, pk);
    var e := EntryFor(idx, pk, row, after, OldVer(row) + 1);
    var row' := RowAfter(cx, [idx], row, after);
    var rows' := rows[pk := row'];
    var zs' := if e.Some? then Fold(zs, CmdsOf(cx, idx, e.value)) else zs;
    forall k: Key, m: Member, s: Score
      ensures Look(zs', k, m) == Some(s) <==> m.pk in rows' && Calls(cx, idx, m.pk, rows'[m.pk], k, m, s)
    {
      assert Look(zs, k, m) == Some(s) <==> m.pk in rows && Calls(cx, idx, m.pk, rows[m.pk], k, m, s);
      if e.Some? {
        EntryEffect(cx, idx, zs, e.value, k, m);
        NewMember(cx, idx, pk, row, after, k, m, s);
        OldMember(cx, idx, pk, row, after, k, m, s);
      } else {
        SameMember(cx, idx, pk, row, after, k, m, s);
      }
    }
  }

  lemma NewMember(cx: Codec, idx: IndexDef, pk: string, row: Option<Row>, after: map<string, string>, k: Key,
      m: Member, s: Score)
    requires ValidIndex(idx) && (row.Some? ==> RowOK(idx, row.value))
    requires EntryFor(idx, pk, row, after, OldVer(row) + 1).Some?
    ensures var e := EntryFor(idx, pk, row, after, OldVer(row) + 1).value;
            && (Calls(cx, idx, pk, RowAfter(cx, [idx], row, after), k, m, s)
                <==> Fills(cx, idx, e, k, m) && s == if idx.kind.Range? then cx.parse(e.newVal).value else Fin(0.0))
            && (Fills(cx, idx, e, k, m) ==> m.pk == pk)
  {
    StampAfter(cx, idx, row, after);
    var row' := RowAfter(cx, [idx], row, after);
    if idx.column in after && Redone(idx, Columns(row), after) {
      assert IvOf(Some(row'), idx.id) == OldVer(row) + 1;
    }
  }

  lemma OldMember(cx: Codec, idx: IndexDef, pk: string, row: Option<Row>, after: map<string, string>, k: Key,
      m: Member, s: Score)
    requires ValidIndex(idx) && (row.Some? ==> RowOK(idx, row.value))
    requires EntryFor(idx, pk, row, after, OldVer(row) + 1).Some?
    ensures var e := EntryFor(idx, pk, row, after, OldVer(row) + 1).value;
            && (row.Some? && Calls(cx, idx, pk, row.value, k, m, s) ==> Clears(cx, idx, e, k, m))
            && (Clears(cx, idx, e, k, m) ==> m.pk == pk && e.oldIV < e.ver)
  {
  }

  lemma SameMember(cx: Codec, idx: IndexDef, pk: string, row: Option<Row>, after: map<string, string>, k: Key,
      m: Member, s: Score)
    requires ValidIndex(idx) && (row.Some? ==> RowOK(idx, row.value))
    requires EntryFor(idx, pk, row, after, OldVer(row) + 1).None?
    ensures Calls(cx, idx, pk, RowAfter(cx, [idx], row, after), k, m, s)
            <==> row.Some? && Calls(cx, idx, pk, row.value, k, m, s)
    ensures Calls(cx, idx, pk, RowAfter(cx, [idx], row, after), k, m, s) ==> m.pk == pk
    ensures row.Some? && Calls(cx, idx, pk, row.value, k, m, s) ==> m.pk == pk
  {
    StampAfter(cx, idx, row, after);
  }

  lemma TombstoneShows(cx: Codec, idx: IndexDef, rows: map<string, Row>, zs: B.Zsets, pk: string)
    requires ValidIndex(idx) && Shows(cx, idx, rows, zs) && pk in rows && forall p <- rows :: RowOK(idx, rows[p])
    ensures var row := Some(rows[pk]);
            var e := EntryFor(idx, pk, row, map[], OldVer(row));
            Shows(cx, idx, rows - {pk}, if e.Some? then Fold(zs, CmdsOf(cx, idx, e.value)) else zs)
  {
    var row := Some(rows[pk]);
    var e := EntryFor(idx, pk, row, map[], OldVer(row));
    var zs' := if e.Some? then Fold(zs, CmdsOf(cx, idx, e.value)) else zs;
    forall k: Key, m: Member, s: Score
      ensures Look(zs', k, m) == Some(s) <==> m.pk in rows - {pk} && Calls(cx, idx, m.pk, rows[m.pk], k, m, s)
    {
      assert Look(zs, k, m) == Some(s) <==> m.pk in rows && Calls(cx, idx, m.pk, rows[m.pk], k, m, s);
      if e.Some? {
        EntryEffect(cx, idx, zs, e.value, k, m);
      }
    }
  }

  /** The place that an entry fills, and the place it clears. */
  predicate Fills(cx: Codec, idx: IndexDef, e: Entry, k: Key, m: Member) {
    && e.newVal != ""
    && if idx.kind.Range? then cx.parse(e.newVal).Some? && k == RangeKey(idx.id, 0) && m == Plain(e.pk, e.ver)
       else (|| (k == EqKey(idx.id, cx.esc(e.newVal), 0) && m == Plain(e.pk, e.ver))
             || (idx.prefixCopy && k == LexKey(idx.id, 0) && m == Lex(e.newVal, e.pk, e.ver)))
  }

  predicate Clears(cx: Codec, idx: IndexDef, e: Entry, k: Key, m: Member) {
    && e.oldVal != ""
    && if idx.kind.Range? then k == RangeKey(idx.id, 0) && m == Plain(e.pk, e.oldIV)
       else (|| (k == EqKey(idx.id, cx.esc(e.oldVal), 0) && m == Plain(e.pk, e.oldIV))
             || (idx.prefixCopy && k == LexKey(idx.id, 0) && m == Lex(e.oldVal, e.pk, e.oldIV)))
  }

  /** One place of the index after one entry. */
  lemma EntryEffect(cx: Codec, idx: IndexDef, zs: B.Zsets, e: Entry, k: Key, m: Member)
    requires e.ver != e.oldIV || e.newVal == ""
    ensures Look(Fold(zs, CmdsOf(cx, idx, e)), k, m) ==
            if Fills(cx, idx, e, k, m) then (if idx.kind.Range? then Some(cx.parse(e.newVal).value) else Some(Fin(0.0)))
            else if Clears(cx, idx, e, k, m) then None
            else Look(zs, k, m)
  {
    hide Look, Apply, Fold;
    var key, key' := if idx.kind.Range? then RangeKey(idx.id, 0) else EqKey(idx.id, cx.esc(e.oldVal),
        0), if idx.kind.Range? then RangeKey(idx.id, 0) else EqKey(idx.id, cx.esc(e.newVal), 0);
    var lex := !idx.kind.Range? && idx.prefixCopy;
    var score := if idx.kind.Range? && cx.parse(e.newVal).Some? then cx.parse(e.newVal).value else Fin(0.0);
    var c1: seq<Cmd> := if e.oldVal != "" then [Rem(key, Plain(e.pk, e.oldIV))] else [];
    var c2: seq<Cmd> := if e.newVal != "" && (idx.kind.Range? ==> cx.parse(e.newVal).Some?)
        then [Add(key', Plain(e.pk, e.ver), score)] else [];
    var c3: seq<Cmd> := if lex && e.oldVal != "" then [Rem(LexKey(idx.id, 0), Lex(e.oldVal, e.pk, e.oldIV))] else [];
    var c4: seq<Cmd> := if lex && e.newVal != "" then [Add(LexKey(idx.id, 0), Lex(e.newVal, e.pk, e.ver), Fin(0.0))]
        else [];
    assert CmdsOf(cx, idx, e) == c1 + c2 + c3 + c4;
    FoldFour(zs, c1, c2, c3, c4, k, m);
  }

  /** What one command in a list of at most one makes of a place. */
  function Effect(part: seq<Cmd>, k: Key, m: Member, before: Option<Score>): Option<Score> {
    if part != [] && part[0].key == k && part[0].member == m then (if part[0].Add? then Some(part[0].score) else None)
        else before
  }

  lemma FoldFour(zs: B.Zsets, c1: seq<Cmd>, c2: seq<Cmd>, c3: seq<Cmd>, c4: seq<Cmd>, k: Key, m: Member)
    requires |c1| <= 1 && |c2| <= 1 && |c3| <= 1 && |c4| <= 1
    ensures Look(Fold(zs, c1 + c2 + c3 + c4), k, m)
            == Effect(c4, k, m, Effect(c3, k, m, Effect(c2, k, m, Effect(c1, k, m, Look(zs, k, m)))))
  {
    hide Look, Apply, Fold, Effect;
    FoldAppend(zs, c1 + c2 + c3, c4);
    FoldAppend(zs, c1 + c2, c3);
    FoldAppend(zs, c1, c2);
    FoldPart(zs, c1, k, m);
    FoldPart(Fold(zs, c1), c2, k, m);
    FoldPart(Fold(zs, c1 + c2), c3, k, m);
    FoldPart(Fold(zs, c1 + c2 + c3), c4, k, m);
  }

  lemma FoldPart(zs: B.Zsets, part: seq<Cmd>, k: Key, m: Member)
    requires |part| <= 1
    ensures Look(Fold(zs, part), k, m) == Effect(part, k, m, Look(zs, k, m))
  {
    if part != [] {
      ApplyAt(zs, part[0], k, m);
      assert part[1..] == [];
    }
  }

  lemma AlikeShows(cx: Codec, idx: IndexDef, rows: map<string, Row>, a: B.Zsets, b: B.Zsets)
    requires Shows(cx, idx, rows, a) && Alike(a, b)
    ensures Shows(cx, idx, rows, b)
  {
    hide Look, Calls;
  }

  lemma ReplayAppend(cx: Codec, idx: IndexDef, zs: B.Zsets, log: seq<string>, e: Entry)
    requires EntryOK(e) && UNIT_SEPARATOR !in e.pk
    ensures Replay(cx, idx, zs, log + [FormatEntry(e)]) == Fold(Replay(cx, idx, zs, log), CmdsOf(cx, idx, e))
  {
    hide ParseEntry, FormatEntry, CmdsOf;
    EntryRoundTrip(e);
    var one := [FormatEntry(e)];
    assert one[1..] == [];
    assert CmdsOfLog(cx, idx, one) == CmdsOf(cx, idx, e) + [] == CmdsOf(cx, idx, e);
    LogAppend(cx, idx, log, one);
    FoldAppend(zs, CmdsOfLog(cx, idx, log), CmdsOf(cx, idx, e));
  }

  lemma StampsStayOK(cx: Codec, idx: IndexDef, row: Option<Row>, after: map<string, string>)
    requires ValidIndex(idx) && (row.Some? ==> RowOK(idx, row.value)) && forall c <- after :: Bytes(after[c])
    ensures RowOK(idx, RowAfter(cx, [idx], row, after))
  {
    StampAfter(cx, idx, row, after);
  }

  lemma FieldIsBytes(idx: IndexDef, row: Option<Row>, after: map<string, string>)
    requires (row.Some? ==> RowOK(idx, row.value)) && forall c <- after :: Bytes(after[c])
    ensures Bytes(Field(Columns(row), idx.column)) && Bytes(Field(after, idx.column))
  {
  }

  /** The entries that cannot be read, in their order. */
  function Unreadable(entries: seq<string>): seq<string> {
    if entries == [] then []
    else
      var last := entries[|entries| - 1];
      Unreadable(entries[..|entries| - 1]) + if ParseEntry(last).None? then [last] else []
  }

  lemma {:induction false} UnreadableAre(entries: seq<string>)
    ensures forall s: string :: s in Unreadable(entries) <==> s in entries && ParseEntry(s).None?
  {
    hide ParseEntry;
    if entries != [] {
      UnreadableAre(entries[..|entries| - 1]);
      assert entries == entries[..|entries| - 1] + [entries[|entries| - 1]];
    }
  }

  /** What could not be read is still in the log, or among the dead letters. */
  ghost predicate Buried(log0: seq<string>, log: seq<string>, dead: seq<string>) {
    forall s <- log0 :: ParseEntry(s).None? ==> s in log || s in dead
  }

  lemma BuriedMore(log0: seq<string>, log: seq<string>, dead: seq<string>, n: nat, dead': seq<string>)
    requires Buried(log0, log, dead) && n <= |log| && dead <= dead'
    requires n > 0 ==> dead' == dead + Unreadable(log[..n])
    ensures Buried(log0, log[n..], dead')
  {
    hide ParseEntry;
    UnreadableAre(log[..n]);
    assert log == log[..n] + log[n..];
  }

  class AsyncTable {
    const cx: Codec
    const idx: IndexDef
    const batch: nat
    const capacity: nat
    var rows: map<string, Row>
    var log: seq<string>
    var index: B.Zsets
    var dead: seq<string>     // entries that could not be read

    constructor (cx: Codec, idx: IndexDef, batch: nat, capacity: nat)
      requires ValidIndex(idx) && batch > 0
      ensures Valid() && this.cx == cx && this.idx == idx && this.batch == batch && this.capacity == capacity
      ensures rows == map[] && log == []
    {
      this.cx, this.idx, this.batch, this.capacity := cx, idx, batch, capacity;
      rows, log, index, dead := map[], [], map[], [];
    }

    /** Consuming what is in the log would leave the index showing exactly the rows. */
    ghost predicate Valid()
      reads this
    {
      && ValidIndex(idx) && batch > 0
      && (forall pk <- rows :: RowOK(idx, rows[pk]))
      && Shows(cx, idx, rows, Replay(cx, idx, index, log))
    }

    /** The entry that a change of this row would append. */
    function Due(pk: string, after: map<string, string>, ver: nat): Option<Entry>
      reads this
    {
      EntryFor(idx, pk, Before(rows, pk), after, ver)
    }

    /** INSERT and UPDATE: a full log refuses the write before anything is changed. */
    method Write(pk: string, after: map<string, string>) returns (full: bool)
      requires Valid() && UNIT_SEPARATOR !in pk && forall c <- after :: Bytes(after[c])
      modifies this`rows, this`log
      ensures Valid()
      ensures full <==> old(Due(pk, after, OldVer(Before(rows, pk)) + 1)).Some? && |old(log)| >= capacity
      ensures rows == if full then old(rows) else old(rows)[pk := RowAfter(cx, [idx], Before(old(rows), pk), after)]
      ensures full ==> log == old(log)
    {
      hide Shows, RowOK, Fold, FormatEntry, CmdsOf, RowAfter, EntryFor, Replay;
      var row := Before(rows, pk);
      var e := EntryFor(idx, pk, row, after, OldVer(row) + 1);
      if e.Some? && |log| >= capacity {
        return true;
      }
      ghost var target := Replay(cx, idx, index, log);
      EntryShows(cx, idx, rows, target, pk, after);
      StampsStayOK(cx, idx, row, after);
      rows := rows[pk := RowAfter(cx, [idx], row, after)];
      if e.Some? {
        EntryIsOK(idx, pk, row, after, OldVer(row) + 1);
        ReplayAppend(cx, idx, index, log, e.value);
        log := log + [FormatEntry(e.value)];
      }
      full := false;
    }

    /**
     * DELETE. The reply of a refusal for want of log space carries the row's version in the
     * place where the caller looks for the count of deleted rows, so a row of version 1 is
     * reported as deleted although it is still there.
     */
    method Delete(pk: string) returns (deleted: bool)
      requires Valid() && UNIT_SEPARATOR !in pk
      modifies this`rows, this`log
      ensures Valid()
      ensures var there, full := pk in old(rows), old(Due(pk, map[], OldVer(Before(rows, pk)))).Some? &&
          |old(log)| >= capacity;
              && rows == (if there && !full then old(rows) - {pk} else old(rows))
              && (full ==> log == old(log))
              && (deleted <==> there && (!full || old(rows)[pk].ver == 1))
              && ((deleted <==> there && pk !in rows) <==> !(there && full && old(rows)[pk].ver == 1))
    {
      assert pk in rows ==> rows[pk].ver > 0;
      hide Shows, RowOK, Fold, FormatEntry, CmdsOf, EntryFor, Replay;
      if pk !in rows {
        return false;
      }
      var row := Some(rows[pk]);
      var e := EntryFor(idx, pk, row, map[], OldVer(row));
      if e.Some? && |log| >= capacity {
        return rows[pk].ver == 1;
      }
      TombstoneShows(cx, idx, rows, Replay(cx, idx, index, log), pk);
      rows := rows - {pk};
      if e.Some? {
        EntryIsOK(idx, pk, row, map[], OldVer(row));
        ReplayAppend(cx, idx, index, log, e.value);
        log := log + [FormatEntry(e.value)];
      }
      deleted := true;
    }

    /** The commands of a batch; text that is no entry goes to the dead letters. */
    method Translate(entries: seq<string>) returns (cmds: seq<Cmd>, bad: seq<string>)
      ensures cmds == CmdsOfLog(cx, idx, entries) && bad == Unreadable(entries)
      ensures forall s: string :: s in bad <==> s in entries && ParseEntry(s).None?
    {
      hide ParseEntry, CmdsOf;
      cmds, bad := [], [];
      for i := 0 to |entries|
        invariant cmds == CmdsOfLog(cx, idx, entries[..i]) && bad == Unreadable(entries[..i])
        invariant forall s: string :: s in bad <==> s in entries[..i] && ParseEntry(s).None?
      {
        LogAppend(cx, idx, entries[..i], [entries[i]]);
        assert entries[..i + 1] == entries[..i] + [entries[i]];
        assert entries[..i + 1][..i] == entries[..i];
        assert [entries[i]][1..] == [];
        var e := ParseEntry(entries[i]);
        if e.None? {
          bad := bad + [entries[i]];
        } else {
          cmds := cmds + CmdsOf(cx, idx, e.value);
        }
        assert CmdsOfLog(cx, idx, [entries[i]]) ==
            (match e { case Some(x) => CmdsOf(cx, idx, x) case None => [] }) + CmdsOfLog(cx, idx, []);
      }
      assert entries[..|entries|] == entries;
    }

    /**
     * One batch: its commands, then the cut of the log. The consumer may stop after any
     * number of the commands, the cut not done; what the index is heading for stays the same.
     */
    method ConsumeLog(stopAfter: Option<nat>) returns (consumed: nat)
      requires Valid()
      modifies this`index, this`log, this`dead
      ensures Valid()
      ensures consumed <= |old(log)| && log == old(log)[consumed..]
      ensures consumed == 0 || consumed == if |old(log)| < batch then |old(log)| else batch
      ensures stopAfter.None? && old(log) != [] ==> consumed > 0
      ensures old(dead) <= dead && (consumed > 0 ==> dead == old(dead) + Unreadable(old(log)[..consumed]))
    {
      hide Shows, RowOK, Fold, Alike, CmdsOfLog;
      var n := if |log| < batch then |log| else batch;
      if n == 0 {
        return 0;
      }
      var cmds, bad := Translate(log[..n]);
      ghost var before := index;
      LogAppend(cx, idx, log[..n], log[n..]);
      assert log == log[..n] + log[n..];
      ghost var rest := CmdsOfLog(cx, idx, log[n..]);
      NothingDone(before, cmds);
      for i := 0 to |cmds|
        invariant index == Fold(before, cmds[..i]) && log == old(log) && dead == old(dead)
      {
        if stopAfter == Some(i) {
          StoppedShows(cx, idx, rows, before, cmds, i, log, rest);
          return 0;
        }
        OneMoreDone(before, cmds, i);
        index := Apply(index, cmds[i]);
      }
      assert cmds[..|cmds|] == cmds;
      dead := dead + bad;
      if stopAfter == Some(|cmds|) {
        StoppedShows(cx, idx, rows, before, cmds, |cmds|, log, rest);
        return 0;
      }
      FoldAppend(before, cmds, rest);
      log := log[n..];
      consumed := n;
    }

    /** Any number of interrupted attempts, and then to the end of the log. */
    method CatchUp(interruptions: seq<nat>)
      requires Valid()
      modifies this`index, this`log, this`dead
      ensures Valid() && log == [] && Shows(cx, idx, rows, index)
      ensures forall s <- old(log) :: ParseEntry(s).None? ==> s in dead
    {
      hide Valid, ParseEntry;
      for i := 0 to |interruptions|
        invariant Valid() && Buried(old(log), log, dead)
      {
        ghost var before, dead0 := log, dead;
        var n := ConsumeLog(Some(interruptions[i]));
        BuriedMore(old(log), before, dead0, n, dead);
      }
      while |log| > 0
        invariant Valid() && Buried(old(log), log, dead)
        decreases |log|
      {
        ghost var before, dead0 := log, dead;
        var n := ConsumeLog(None);
        BuriedMore(old(log), before, dead0, n, dead);
      }
      NothingHeadingOn();
    }

    lemma NothingHeadingOn()
      requires Valid() && log == []
      ensures Shows(cx, idx, rows, index)
    {
    }
  }

  lemma EntryIsOK(idx: IndexDef, pk: string, row: Option<Row>, after: map<string, string>, ver: nat)
    requires (row.Some? ==> RowOK(idx, row.value)) && (forall c <- after :: Bytes(after[c])) && ver > 0
    ensures EntryFor(idx, pk, row, after, ver).Some? ==>
              EntryOK(EntryFor(idx, pk, row, after, ver).value) && EntryFor(idx, pk, row, after, ver).value.pk == pk
  {
    FieldIsBytes(idx, row, after);
  }

  lemma NothingDone(zs: B.Zsets, cmds: seq<Cmd>)
    ensures Fold(zs, cmds[..0]) == zs
  {
  }

  lemma OneMoreDone(zs: B.Zsets, cmds: seq<Cmd>, i: nat)
    requires i < |cmds|
    ensures Fold(zs, cmds[..i + 1]) == Apply(Fold(zs, cmds[..i]), cmds[i])
  {
    FoldAppend(zs, cmds[..i], [cmds[i]]);
    assert cmds[..i + 1] == cmds[..i] + [cmds[i]];
    assert [cmds[i]][1..] == [];
  }

  lemma StoppedShows(cx: Codec, idx: IndexDef, rows: map<string, Row>, zs: B.Zsets, cmds: seq<Cmd>, i: nat,
      log: seq<string>, rest: seq<Cmd>)
    requires i <= |cmds| && CmdsOfLog(cx, idx, log) == cmds + rest && Shows(cx, idx, rows, Replay(cx, idx, zs, log))
    ensures Shows(cx, idx, rows, Replay(cx, idx, Fold(zs, cmds[..i]), log))
  {
    hide Shows, Fold, CmdsOfLog, Alike;
    RerunIsHarmless(zs, cmds[..i], cmds + rest);
    AlikeTurned(Fold(Fold(zs, cmds[..i]), cmds + rest), Fold(zs, cmds + rest));
    AlikeShows(cx, idx, rows, Fold(zs, cmds + rest), Fold(Fold(zs, cmds[..i]), cmds + rest));
  }

  lemma AlikeTurned(a: B.Zsets, b: B.Zsets)
    requires Alike(a, b)
    ensures Alike(b, a)
  {
  }
}
