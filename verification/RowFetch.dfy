/**
 * Reading rows by primary key, many commands to a pipeline: which columns are asked for,
 * which command asks for them, and how the flat list of replies is taken apart again.
 */
module RowFetch {
  import opened Wrappers
  import opened BucketMap
  import opened Predicates

  const TTL_COLUMN := "_ttl"
  const VERSION_FIELD := "_ver"

  /** A stored row and its remaining life in milliseconds, -1 when it has none set. */
  datatype StoredRow = StoredRow(fields: Fields, pttl: int)
  type Rows = map<string, StoredRow>

  datatype Table = Table(pk: string, columns: seq<string>)

  /** Column names are not empty and the time to live is no column. */
  predicate TableOK(t: Table) {
    t.pk != TTL_COLUMN && t.pk != VERSION_FIELD && "" !in t.columns && TTL_COLUMN !in t.columns
  }

  /** No projection means every column; an empty one means rows without columns. */
  datatype Request = Request(table: Table, projection: Option<seq<string>>, pred: Option<Predicate>)

  datatype Cell = Null | Value(text: string)
  type Record = seq<Cell>

  /** Column codecs: number parsing for predicates, decoding for output. */
  datatype RowCodec = RowCodec(parse: Parse, decode: (string, string) -> Cell, seconds: int -> string)

  datatype Command = HGetAll(pk: string) | Exists(pk: string) | HMGet(pk: string, cols: seq<string>) | PTtl(pk: string)
  datatype Reply = Hash(fields: Fields) | Flag(exists_: bool) | Values(vals: seq<Option<string>>) | Millis(ms: int)

  /** Living rows carry their version and keep the primary key in the address, not in a field. */
  predicate RowsOK(t: Table, rows: Rows) {
    forall pk <- rows :: VERSION_FIELD in rows[pk].fields && t.pk !in rows[pk].fields && TTL_COLUMN !in rows[pk].fields
  }

  function Answer(rows: Rows, cmd: Command): Reply {
    match cmd
    case HGetAll(pk) => Hash(if pk in rows then rows[pk].fields else map[])
    case Exists(pk) => Flag(pk in rows)
    case HMGet(pk, cols) => 
      Values(seq(|cols|, i requires 0 <= i < |cols| =>
                   if pk in rows && cols[i] in rows[pk].fields then Some(rows[pk].fields[cols[i]]) else None))
    case PTtl(pk) => Millis(if pk in rows then rows[pk].pttl else -2)
  }

  function Pipeline(rows: Rows, cmds: seq<Command>): seq<Reply> {
    seq(|cmds|, i requires 0 <= i < |cmds| => Answer(rows, cmds[i]))
  }

  /** The column of a predicate is a column. */
  predicate RequestOK(req: Request) { TableOK(req.table) && (req.pred.Some? ==> req.pred.value.column != TTL_COLUMN) }

  predicate NeedsTTL(req: Request) { req.projection.Some? && TTL_COLUMN in req.projection.value }

  // ----- decoding --------------------------------------------------------------------------

  function CellOf(cx: RowCodec, t: Table, pk: string, raw: Fields, name: string): Cell {
    if name == TTL_COLUMN then (if TTL_COLUMN in raw && raw[TTL_COLUMN] != ""
        then cx.decode(TTL_COLUMN, raw[TTL_COLUMN]) else Null)
    else if name !in t.columns then Null
    else if name == t.pk then cx.decode(name, pk)
    else if name in raw then cx.decode(name, raw[name])
    else Null
  }

  function Cells(cx: RowCodec, t: Table, pk: string, raw: Fields, names: seq<string>): Record {
    seq(|names|, i requires 0 <= i < |names| => CellOf(cx, t, pk, raw, names[i]))
  }

  /** Every column and the time to live, or the projected ones in their order. */
  function Names(req: Request): seq<string> {
    if req.projection.None? then req.table.columns + [TTL_COLUMN] else req.projection.value
  }

  function Decoded(cx: RowCodec, req: Request, pk: string, raw: Fields): Record {
    Cells(cx, req.table, pk, raw, Names(req))
  }

  // ----- the plain loop it has to equal ------------------------------------------------------

  /** Seconds, rounded up; -1 when the row does not expire. */
  function TTLText(cx: RowCodec, ms: int): string { cx.seconds(if ms > 0 then (ms + 999) / 1000 else -1) }

  function WholeRow(cx: RowCodec, req: Request, row: StoredRow): Fields {
    if NeedsTTL(req) then row.fields[TTL_COLUMN := TTLText(cx, row.pttl)] else row.fields
  }

  function One(cx: RowCodec, rows: Rows, req: Request, pk: string): seq<Record> {
    if pk !in rows then []
    else
      var raw := WholeRow(cx, req, rows[pk]);
      if Match(req.pred, cx.parse, raw) then [Decoded(cx, req, pk, raw)] else []
  }

  /** Row by row: read it whole, check it, decode it. */
  function ReadPlainly(cx: RowCodec, rows: Rows, req: Request, pks: seq<string>): seq<Record> {
    if pks == [] then [] else One(cx, rows, req, pks[0]) + ReadPlainly(cx, rows, req, pks[1..])
  }

  lemma {:induction false} ReadAppend(cx: RowCodec, rows: Rows, req: Request, a: seq<string>, b: seq<string>)
    ensures ReadPlainly(cx, rows, req, a + b) == ReadPlainly(cx, rows, req, a) + ReadPlainly(cx, rows, req, b)
  {
    if a == [] {
      assert a + b == b;
    } else {
      assert (a + b)[1..] == a[1..] + b;
      ReadAppend(cx, rows, req, a[1..], b);
    }
  }

  // ----- whose records the plain loop gives -----------------------------------------------------

  /** A living row that meets the predicate. */
  predicate Hit(cx: RowCodec, rows: Rows, req: Request, pk: string) {
    pk in rows && Match(req.pred, cx.parse, WholeRow(cx, req, rows[pk]))
  }

  function Hits(cx: RowCodec, rows: Rows, req: Request, pks: seq<string>): seq<string> {
    if pks == [] then [] else (if Hit(cx, rows, req, pks[0]) then [pks[0]] else []) + Hits(cx, rows, req, pks[1..])
  }

  function Records(cx: RowCodec, rows: Rows, req: Request, pks: seq<string>): seq<Record>
    requires forall pk <- pks :: pk in rows
  {
    seq(|pks|, i requires 0 <= i < |pks| => Decoded(cx, req, pks[i], WholeRow(cx, req, rows[pks[i]])))
  }

  lemma {:induction false} HitsAre(cx: RowCodec, rows: Rows, req: Request, pks: seq<string>)
    ensures forall pk: string :: pk in Hits(cx, rows, req, pks) <==> pk in pks && Hit(cx, rows, req, pk)
    ensures NoRepeats(pks) ==> NoRepeats(Hits(cx, rows, req, pks))
    ensures (forall pk <- Hits(cx, rows, req, pks) :: pk in rows)
            && ReadPlainly(cx, rows, req, pks) == Records(cx, rows, req, Hits(cx, rows, req, pks))
  {
    if pks != [] {
      HitsAre(cx, rows, req, pks[1..]);
      hide Hit, Records, Decoded, Match, WholeRow;
      assert forall pk: string :: pk in pks <==> pk == pks[0] || pk in pks[1..];
      var rest := Hits(cx, rows, req, pks[1..]);
      if NoRepeats(pks) {
        TailNoDups(pks);
      }
      HitOrNot(cx, rows, req, pks[0]);
      if Hit(cx, rows, req, pks[0]) {
        RecordsCons(cx, rows, req, pks[0], rest);
      } else {
        assert [] + rest == rest;
      }
    }
  }

  lemma TailNoDups(pks: seq<string>)
    requires NoRepeats(pks) && pks != []
    ensures NoRepeats(pks[1..]) && pks[0] !in pks[1..]
  {
    assert forall i :: 0 <= i < |pks[1..]| ==> pks[1..][i] == pks[i + 1];
  }

  lemma HitOrNot(cx: RowCodec, rows: Rows, req: Request, pk: string)
    ensures Hit(cx, rows, req, pk) ==> pk in rows && One(cx, rows, req, pk) == Records(cx, rows, req, [pk])
    ensures !Hit(cx, rows, req, pk) ==> One(cx, rows, req, pk) == []
  {
    hide Decoded, Match, WholeRow;
  }

  lemma RecordsCons(cx: RowCodec, rows: Rows, req: Request, pk: string, rest: seq<string>)
    requires pk in rows && forall p <- rest :: p in rows
    ensures Records(cx, rows, req, [pk] + rest) == Records(cx, rows, req, [pk]) + Records(cx, rows, req, rest)
  {
    hide Decoded, WholeRow;
  }

  // ----- what the records say -----------------------------------------------------------------------

  /** The seconds left, rounded up; -1 for a row without a time to live. */
  predicate SecondsLeft(ms: int, s: int) { if ms > 0 then 1000 * (s - 1) < ms <= 1000 * s else s == -1 }

  /**
   * The answer's cell of one name: the decoded stored text, the decoded key for the key's
   * column, the remaining seconds if they were asked for, and otherwise nothing.
   */
  ghost predicate CellFits(cx: RowCodec, req: Request, row: StoredRow, pk: string, name: string, cell: Cell) {
    && (name in req.table.columns && name != req.table.pk && name in row.fields ==>
          cell == cx.decode(name, row.fields[name]))
    && (name in req.table.columns && name == req.table.pk ==> cell == cx.decode(name, pk))
    && (name in req.table.columns && name != req.table.pk && name !in row.fields ==> cell == Null)
    && (name !in req.table.columns && name != TTL_COLUMN ==> cell == Null)
    && (name == TTL_COLUMN && req.projection.None? ==> cell == Null)
    && (name == TTL_COLUMN && req.projection.Some? ==>
          forall s: int :: SecondsLeft(row.pttl, s) && cx.seconds(s) != "" ==> cell == cx.decode(name, cx.seconds(s)))
  }

  ghost predicate RecordFits(cx: RowCodec, req: Request, row: StoredRow, pk: string, record: Record) {
    && |record| == |Names(req)|
    && forall i :: 0 <= i < |record| ==> CellFits(cx, req, row, pk, Names(req)[i], record[i])
  }

  /** One record to each of the keys, in their order. */
  ghost predicate RecordsFit(cx: RowCodec, rows: Rows, req: Request, pks: seq<string>, out: seq<Record>) {
    && |out| == |pks|
    && forall i :: 0 <= i < |pks| ==> pks[i] in rows && RecordFits(cx, req, rows[pks[i]], pks[i], out[i])
  }

  lemma CellIs(cx: RowCodec, req: Request, row: StoredRow, pk: string, name: string)
    requires TableOK(req.table) && req.table.pk !in row.fields && TTL_COLUMN !in row.fields
    requires req.projection.Some? ==> name in req.projection.value
    ensures CellFits(cx, req, row, pk, name, CellOf(cx, req.table, pk, WholeRow(cx, req, row), name))
  {
    forall s: int | SecondsLeft(row.pttl, s) ensures TTLText(cx, row.pttl) == cx.seconds(s) {
    }
  }

  lemma DecodedFits(cx: RowCodec, rows: Rows, req: Request, pk: string)
    requires RequestOK(req) && RowsOK(req.table, rows) && pk in rows
    ensures RecordFits(cx, req, rows[pk], pk, Decoded(cx, req, pk, WholeRow(cx, req, rows[pk])))
  {
    hide CellFits, WholeRow, CellOf;
    var names := Names(req);
    forall i | 0 <= i < |names|
      ensures CellFits(cx, req, rows[pk], pk, names[i],
                       CellOf(cx, req.table, pk, WholeRow(cx, req, rows[pk]), names[i]))
    {
      CellIs(cx, req, rows[pk], pk, names[i]);
    }
  }

  /** The plain loop's records are those of the living rows that meet the predicate. */
  lemma PlainlyFits(cx: RowCodec, rows: Rows, req: Request, pks: seq<string>)
    requires RequestOK(req) && RowsOK(req.table, rows)
    ensures RecordsFit(cx, rows, req, Hits(cx, rows, req, pks), ReadPlainly(cx, rows, req, pks))
  {
    HitsAre(cx, rows, req, pks);
    hide RecordFits, Decoded, WholeRow, Hit, Hits, RowsOK, RequestOK;
    forall pk | pk in Hits(cx, rows, req, pks)
      ensures pk in rows && RecordFits(cx, req, rows[pk], pk, Decoded(cx, req, pk, WholeRow(cx, req, rows[pk])))
    {
      DecodedFits(cx, rows, req, pk);
    }
  }

  /** The test looks at the stored fields. */
  lemma HitIs(cx: RowCodec, rows: Rows, req: Request, pk: string)
    requires RequestOK(req) && RowsOK(req.table, rows)
    ensures Hit(cx, rows, req, pk) <==> pk in rows && Match(req.pred, cx.parse, rows[pk].fields)
  {
    if pk in rows {
      MatchDependsOnColumn(req.pred, cx.parse, rows[pk].fields, WholeRow(cx, req, rows[pk]));
    }
  }

  // ----- the columns asked for ------------------------------------------------------------------

  /** Fields that the predicate or the projection looks at. */
  predicate Wanted(req: Request, c: string) {
    && c != "" && c != req.table.pk
    && ((req.projection.Some? && c in req.projection.value && c != TTL_COLUMN) ||
        (req.pred.Some? && c == req.pred.value.column))
  }

  /** Whole rows, or a list that has every wanted field and ends with the sign of life. */
  ghost predicate Suffices(req: Request, cols: Option<seq<string>>) {
    && (req.projection.None? ==> cols.None?)
    && (cols.Some? ==>
          && (forall c: string :: Wanted(req, c) ==> c in cols.value)
          && (cols.value != [] ==> cols.value[|cols.value| - 1] == VERSION_FIELD))
  }

  method FetchColumns(req: Request) returns (cols: Option<seq<string>>)
    ensures Suffices(req, cols)
    ensures cols.Some? ==> forall c <- cols.value :: Wanted(req, c) || c == VERSION_FIELD
    ensures cols == Some([]) <==> req.projection.Some? && forall c: string :: !Wanted(req, c)
  {
    if req.projection.None? {
      return None;
    }
    var list: seq<string> := [];
    var names := req.projection.value;
    for i := 0 to |names|
      invariant forall c <- list :: c in names[..i] && c != "" && c != req.table.pk && c != TTL_COLUMN
      invariant forall c <- names[..i] :: c != "" && c != req.table.pk && c != TTL_COLUMN ==> c in list
    {
      assert names[..i + 1] == names[..i] + [names[i]];
      if names[i] != TTL_COLUMN && names[i] != "" && names[i] != req.table.pk && names[i] !in list {
        list := list + [names[i]];
      }
    }
    assert names[..|names|] == names;
    if req.pred.Some? {
      var c := req.pred.value.column;
      if c != "" && c != req.table.pk && c !in list {
        list := list + [c];
      }
    }
    assert forall c <- list :: Wanted(req, c);
    if |list| > 0 {
      assert Wanted(req, list[0]);
      var nonPK := 0;
      for i := 0 to |req.table.columns| {
        if req.table.columns[i] != req.table.pk {
          nonPK := nonPK + 1;
        }
      }
      if |list| >= nonPK {
        return None;
      }
      list := list + [VERSION_FIELD];
    }
    cols := Some(list);
  }

  /** The fields of an HMGET reply; without a version the row is gone. */
  method HMGetMap(cols: seq<string>, vals: seq<Option<string>>) returns (raw: Option<Fields>)
    requires |vals| == |cols|
    ensures raw.None? <==> |vals| == 0 || vals[|vals| - 1].None?
    ensures raw.Some? ==> forall k: string :: k in raw.value <==> exists i ::
        0 <= i < |cols| && cols[i] == k && vals[i].Some?
    ensures raw.Some? ==>
              forall k <- raw.value :: exists i :: 0 <= i < |cols| && cols[i] == k && vals[i] == Some(raw.value[k])
  {
    if |vals| == 0 || vals[|vals| - 1].None? {
      return None;
    }
    var m: Fields := map[];
    for i := 0 to |vals|
      invariant forall k: string :: k in m <==> exists j :: 0 <= j < i && cols[j] == k && vals[j].Some?
      invariant forall k <- m :: exists j :: 0 <= j < i && cols[j] == k && vals[j] == Some(m[k])
    {
      if vals[i].Some? {
        m := m[cols[i] := vals[i].value];
      }
    }
    raw := Some(m);
  }

  // ----- the reading itself -----------------------------------------------------------------------

  /** A partial row that agrees with the whole one wherever anybody looks. */
  ghost predicate GoodEnough(cx: RowCodec, req: Request, row: StoredRow, raw: Fields) {
    forall c: string :: Wanted(req, c) || c == TTL_COLUMN || req.projection.None? ==>
      (c in raw <==> c in WholeRow(cx, req, row)) && (c in raw ==> raw[c] == WholeRow(cx, req, row)[c])
  }

  lemma GoodEnoughDecodes(cx: RowCodec, rows: Rows, req: Request, pk: string, raw: Fields)
    requires RowsOK(req.table, rows) && pk in rows && GoodEnough(cx, req, rows[pk], raw)
    requires RequestOK(req) && req.table.pk !in raw
    ensures Match(req.pred, cx.parse, raw) == Match(req.pred, cx.parse, WholeRow(cx, req, rows[pk]))
    ensures Match(req.pred, cx.parse, raw) ==>
              Decoded(cx, req, pk, raw) == Decoded(cx, req, pk, WholeRow(cx, req, rows[pk]))
  {
    var whole := WholeRow(cx, req, rows[pk]);
    if req.pred.Some? && req.pred.value.column != "" {
      var c := req.pred.value.column;
      assert c != req.table.pk ==> Wanted(req, c);
      MatchDependsOnColumn(req.pred, cx.parse, raw, whole);
    }
    var names := Names(req);
    forall i | 0 <= i < |names|
      ensures CellOf(cx, req.table, pk, raw, names[i]) == CellOf(cx, req.table, pk, whole, names[i])
    {
      var c := names[i];
      if req.projection.Some? && c != TTL_COLUMN && c != req.table.pk && c != "" {
        assert Wanted(req, c);
      }
    }
  }

  /** The command for one row, and the one that follows it when the time to live is wanted. */
  function RowCommand(pk: string, cols: Option<seq<string>>): Command {
    if cols.None? then HGetAll(pk) else if cols.value == [] then Exists(pk) else HMGet(pk, cols.value)
  }

  function Stride(req: Request): nat { if NeedsTTL(req) then 2 else 1 }

  /** Two commands to a row or one, all through the pipeline. */
  predicate InStep(req: Request, cols: Option<seq<string>>, batch: seq<string>, cmds: seq<Command>, n: nat)
    requires n <= |batch|
  {
    && |cmds| == n * Stride(req)
    && forall j :: 0 <= j < n ==>
         && j * Stride(req) < |cmds| && cmds[j * Stride(req)] == RowCommand(batch[j], cols)
         && (NeedsTTL(req) ==> j * 2 + 1 < |cmds| && cmds[j * 2 + 1] == PTtl(batch[j]))
  }

  lemma PartialRowIsGoodEnough(cx: RowCodec, req: Request, cols: seq<string>, row: StoredRow, raw: Fields)
    requires Suffices(req, Some(cols)) && cols != []
    requires TTL_COLUMN !in row.fields
    requires forall k: string :: k in raw <==> k in cols && k in row.fields
    requires forall k <- raw :: raw[k] == row.fields[k]
    ensures GoodEnough(cx, req, row, if NeedsTTL(req) then raw[TTL_COLUMN := TTLText(cx, row.pttl)] else raw)
  {
  }

  lemma NoColumnsIsGoodEnough(cx: RowCodec, req: Request, row: StoredRow)
    requires Suffices(req, Some([])) && TTL_COLUMN !in row.fields
    ensures GoodEnough(cx, req, row, if NeedsTTL(req) then map[TTL_COLUMN := TTLText(cx, row.pttl)] else map[])
  {
  }

  /** What one row's replies amount to: nothing for a dead row, a good enough row otherwise. */
  ghost predicate Understood(cx: RowCodec, rows: Rows, req: Request, pk: string, raw: Option<Fields>) {
    && (raw.Some? <==> pk in rows)
    && (raw.Some? ==> GoodEnough(cx, req, rows[pk], raw.value) && req.table.pk !in raw.value)
  }

  /** The reply about one row, and the remaining life that came with it if any was asked for. */
  method ReadReply(cx: RowCodec, req: Request, cols: Option<seq<string>>, reply: Reply, ms: int, ghost rows: Rows,
      ghost pk: string)
      returns (raw: Option<Fields>)
    requires RowsOK(req.table, rows) && RequestOK(req) && Suffices(req, cols)
    requires (cols.Some? ==> req.table.pk !in cols.value)
    requires reply == Answer(rows, RowCommand(pk, cols)) && (NeedsTTL(req) ==> Millis(ms) == Answer(rows, PTtl(pk)))
    ensures Understood(cx, rows, req, pk, raw)
  {
    raw := None;
    match reply {
      case Hash(fields) =>
        if |fields| > 0 {
          raw := Some(fields);
          if NeedsTTL(req) {
            raw := Some(fields[TTL_COLUMN := TTLText(cx, ms)]);
          }
        }
        assert pk in rows ==> VERSION_FIELD in rows[pk].fields;
      case Flag(alive) =>
        if alive {
          raw := Some(map[]);
          if NeedsTTL(req) {
            raw := Some(map[TTL_COLUMN := TTLText(cx, ms)]);
          }
          NoColumnsIsGoodEnough(cx, req, rows[pk]);
        }
      case Values(vals) =>
        var got := HMGetMap(cols.value, vals);
        if got.Some? {
          raw := got;
          if NeedsTTL(req) {
            raw := Some(got.value[TTL_COLUMN := TTLText(cx, ms)]);
          }
          PartialRowIsGoodEnough(cx, req, cols.value, rows[pk], got.value);
        }
      case Millis(_) =>
    }
  }

  method Commands(req: Request, cols: Option<seq<string>>, batch: seq<string>) returns (cmds: seq<Command>)
    ensures InStep(req, cols, batch, cmds, |batch|)
  {
    cmds := [];
    for j := 0 to |batch|
      invariant InStep(req, cols, batch, cmds, j)
    {
      cmds := cmds + [RowCommand(batch[j], cols)];
      if NeedsTTL(req) {
        cmds := cmds + [PTtl(batch[j])];
      }
    }
  }

  /** One index runs along the replies: a row takes one of them, or two. */
  method ReadReplies(cx: RowCodec, req: Request, cols: Option<seq<string>>, results: seq<Reply>, batch: seq<string>,
      ghost rows: Rows, ghost cmds: seq<Command>)
      returns (raws: seq<Option<Fields>>)
    requires RowsOK(req.table, rows) && RequestOK(req) && Suffices(req, cols)
    requires (cols.Some? ==> req.table.pk !in cols.value)
    requires InStep(req, cols, batch, cmds, |batch|) && results == Pipeline(rows, cmds)
    ensures |raws| == |batch| && forall k :: 0 <= k < |batch| ==> Understood(cx, rows, req, batch[k], raws[k])
  {
    hide Understood, Suffices, Answer, RowsOK, RequestOK;
    raws := [];
    var ri := 0;
    for j := 0 to |batch|
      invariant ri == j * Stride(req) && |raws| == j
      invariant forall k :: 0 <= k < j ==> Understood(cx, rows, req, batch[k], raws[k])
    {
      assert results[ri] == Answer(rows, RowCommand(batch[j], cols));
      var reply := results[ri];
      ri := ri + 1;
      var ms := -1;
      if NeedsTTL(req) {
        assert results[ri] == Answer(rows, PTtl(batch[j]));
        TTLReply(rows, batch[j]);
        ms := results[ri].ms;
        ri := ri + 1;
      }
      var raw := ReadReply(cx, req, cols, reply, ms, rows, batch[j]);
      raws := raws + [raw];
    }
  }

  lemma TTLReply(rows: Rows, pk: string)
    ensures Answer(rows, PTtl(pk)).Millis?
  {
  }

  /**
   * Batches of a pipeline each: the replies are consumed in step with the commands, for any
   * mix of living and dead rows, and the outcome is that of the plain loop.
   */
  method FetchRows(cx: RowCodec, rows: Rows, req: Request, pks: seq<string>, batchSize: nat) returns (out: seq<Record>)
    requires batchSize > 0 && RequestOK(req) && RowsOK(req.table, rows)
    ensures out == ReadPlainly(cx, rows, req, pks)
    ensures RecordsFit(cx, rows, req, Hits(cx, rows, req, pks), out)
  {
    hide Understood, RowsOK, InStep, RecordsFit, Hits;
    PlainlyFits(cx, rows, req, pks);
    var cols := FetchColumns(req);
    assert cols.Some? ==> req.table.pk !in cols.value;
    hide RequestOK, Suffices, Wanted;
    out := [];
    var i := 0;
    while i < |pks|
      invariant 0 <= i <= |pks| && out == ReadPlainly(cx, rows, req, pks[..i])
    {
      var end := if i + batchSize < |pks| then i + batchSize else |pks|;
      var batch := pks[i..end];
      var cmds := Commands(req, cols, batch);
      var results := Pipeline(rows, cmds);
      var raws := ReadReplies(cx, req, cols, results, batch, rows, cmds);
      var got := DecodeBatch(cx, rows, req, batch, raws);
      ReadAppend(cx, rows, req, pks[..i], batch);
      assert pks[..i] + batch == pks[..end];
      out := out + got;
      i := end;
    }
    assert pks[..i] == pks;
  }

  method DecodeBatch(cx: RowCodec, ghost rows: Rows, req: Request, batch: seq<string>, raws: seq<Option<Fields>>)
      returns (out: seq<Record>)
    requires RequestOK(req) && RowsOK(req.table, rows) && |raws| == |batch|
    requires forall k :: 0 <= k < |batch| ==> Understood(cx, rows, req, batch[k], raws[k])
    ensures out == ReadPlainly(cx, rows, req, batch)
  {
    hide GoodEnough, Match, Decoded, WholeRow;
    out := [];
    for j := 0 to |batch|
      invariant out == ReadPlainly(cx, rows, req, batch[..j])
    {
      ReadAppend(cx, rows, req, batch[..j], [batch[j]]);
      assert batch[..j + 1] == batch[..j] + [batch[j]];
      assert ReadPlainly(cx, rows, req, [batch[j]]) == One(cx, rows, req, batch[j]) + ReadPlainly(cx, rows, req, []);
      if raws[j].Some? {
        var raw := raws[j].value;
        GoodEnoughDecodes(cx, rows, req, batch[j], raw);
        var ok := MatchRow(req.pred, cx.parse, raw);
        if ok {
          out := out + [Decoded(cx, req, batch[j], raw)];
        }
      }
    }
    assert batch[..|batch|] == batch;
  }
}
