/**
 * The filter that runs inside the store: the predicate goes out as arguments, the rows that
 * meet it come back as one flat list, and the outcome is that of the check on the client.
 */
module Pushdown {
  import opened Wrappers
  import opened BucketMap
  import opened Text
  import opened Predicates
  import opened RowFetch
  import K = KeyCodec

  /** Number formatting without loss: what is written is read back. */
  type Format = Score -> string

  ghost predicate Lossless(format: Format, parse: Parse) {
    forall r: real :: parse(format(Fin(r))) == Some(Fin(r))
  }

  // ----- arguments ------------------------------------------------------------------------------

  /** A list of values of one column, or one interval with finite ends. */
  predicate Pushable(p: Predicate) {
    && p.column != ""
    && (p.eq.Some? || (p.ranges.Some? && |p.ranges.value| == 1 && p.ranges.value[0].lo.Fin? &&
        p.ranges.value[0].hi.Fin?))
  }

  function Bit(b: bool): string { if b then "1" else "0" }

  function Args(p: Predicate, format: Format): seq<string>
    requires Pushable(p)
  {
    if p.eq.Some? then [p.column, "eq", Digits(|p.eq.value|)] + p.eq.value
    else
      var r := p.ranges.value[0];
      [p.column, "range", format(r.lo), format(r.hi), Bit(r.loOpen), Bit(r.hiOpen)]
  }

  // ----- replies --------------------------------------------------------------------------------

  datatype Item = Str(s: string) | Num(n: nat)

  /** A row as HGETALL lists it. */
  type Pairs = seq<(string, string)>

  function Shown(i: Item): string { if i.Str? then i.s else Digits(i.n) }
  function Counted(i: Item): Option<nat> { if i.Num? then Some(i.n) else ParseSigned(i.s) }

  function FieldsOf(row: Pairs): Fields {
    if row == [] then map[] else FieldsOf(row[..|row| - 1])[row[|row| - 1].0 := row[|row| - 1].1]
  }

  function FlatPairs(row: Pairs): seq<Item> {
    if row == [] then [] else FlatPairs(row[..|row| - 1]) + [Str(row[|row| - 1].0), Str(row[|row| - 1].1)]
  }

  function FlatOne(pk: string, row: Pairs): seq<Item> { [Str(pk), Num(|row|)] + FlatPairs(row) }

  function Flat(entries: seq<(string, Pairs)>): seq<Item> {
    if entries == [] then [] else FlatOne(entries[0].0, entries[0].1) + Flat(entries[1..])
  }

  lemma {:induction false} FlatAppend(a: seq<(string, Pairs)>, b: seq<(string, Pairs)>)
    ensures Flat(a + b) == Flat(a) + Flat(b)
  {
    if a == [] {
      assert a + b == b;
    } else {
      assert (a + b)[1..] == a[1..] + b;
      FlatAppend(a[1..], b);
    }
  }

  lemma {:induction false} FlatPairsLength(row: Pairs)
    ensures |FlatPairs(row)| == 2 * |row|
  {
    if row != [] {
      FlatPairsLength(row[..|row| - 1]);
    }
  }

  /** The fields of the next `n` pairs; a later one of the same name wins. */
  function TakePairs(arr: seq<Item>, n: nat): Fields
    requires 2 * n <= |arr|
  {
    if n == 0 then map[] else TakePairs(arr, n - 1)[Shown(arr[2 * n - 2]) := Shown(arr[2 * n - 1])]
  }

  /** Key, count, pairs, and so on to the end; None for a list that is cut short or has no count. */
  function ParseReply(arr: seq<Item>): Option<seq<(string, Fields)>> {
    if arr == [] then Some([])
    else if |arr| < 2 || Counted(arr[1]).None? then None
    else
      var nf := Counted(arr[1]).value;
      if 2 + 2 * nf > |arr| then None
      else match ParseReply(arr[2 + 2 * nf..]) {
        case None => None
        case Some(rest) => Some([(Shown(arr[0]), TakePairs(arr[2..], nf))] + rest)
      }
  }

  function Entries(entries: seq<(string, Pairs)>): seq<(string, Fields)> {
    seq(|entries|, i requires 0 <= i < |entries| => (entries[i].0, FieldsOf(entries[i].1)))
  }

  lemma {:induction false} TakeFlat(row: Pairs, more: seq<Item>, n: nat)
    requires n <= |row|
    ensures 2 * n <= |FlatPairs(row) + more| && TakePairs(FlatPairs(row) + more, n) == FieldsOf(row[..n])
  {
    FlatPairsLength(row);
    if n > 0 {
      TakeFlat(row, more, n - 1);
      FlatPairAt(row, n - 1);
      assert row[..n][..n - 1] == row[..n - 1];
    }
  }

  lemma {:induction false} FlatPairAt(row: Pairs, i: nat)
    requires i < |row|
    ensures 2 * i + 1 < |FlatPairs(row)| && FlatPairs(row)[2 * i] == Str(row[i].0)
    ensures FlatPairs(row)[2 * i + 1] == Str(row[i].1)
  {
    var front := row[..|row| - 1];
    FlatPairsLength(front);
    if i < |row| - 1 {
      FlatPairAt(front, i);
    }
  }

  lemma FlatOneShape(pk: string, row: Pairs, rest: seq<Item>)
    ensures var arr := FlatOne(pk, row) + rest;
            && 2 + 2 * |row| <= |arr| && arr[0] == Str(pk) && arr[1] == Num(|row|)
            && arr[2..] == FlatPairs(row) + rest && arr[2 + 2 * |row|..] == rest
  {
    hide FlatPairs;
    FlatPairsLength(row);
  }

  lemma FirstOfReply(pk: string, row: Pairs, rest: seq<Item>)
    requires ParseReply(rest).Some?
    ensures ParseReply(FlatOne(pk, row) + rest) == Some([(pk, FieldsOf(row))] + ParseReply(rest).value)
  {
    hide ParseReply, TakePairs, FieldsOf, FlatPairs, FlatOne;
    var arr := FlatOne(pk, row) + rest;
    FlatOneShape(pk, row, rest);
    ParseUnfolds(arr);
    TakeFlat(row, rest, |row|);
    assert row[..|row|] == row;
  }

  /** One entry taken off the front of a reply. */
  lemma ParseUnfolds(tail: seq<Item>)
    requires tail != []
    ensures |tail| < 2 || Counted(tail[1]).None? ==> ParseReply(tail).None?
    ensures |tail| >= 2 && Counted(tail[1]).Some? ==>
              var nf := Counted(tail[1]).value;
              ParseReply(tail) == if 2 + 2 * nf > |tail| then None
                                  else match ParseReply(tail[2 + 2 * nf..]) {
                                    case None => None
                                    case Some(rest) => Some([(Shown(tail[0]), TakePairs(tail[2..], nf))] + rest)
                                  }
  {
  }

  lemma EntriesSplit(entries: seq<(string, Pairs)>)
    requires entries != []
    ensures Entries(entries) == [(entries[0].0, FieldsOf(entries[0].1))] + Entries(entries[1..])
  {
    hide FieldsOf;
  }

  /** The client reads back exactly the rows that the script put into its list. */
  lemma {:induction false} ReplyRoundTrip(entries: seq<(string, Pairs)>)
    ensures ParseReply(Flat(entries)) == Some(Entries(entries))
  {
    if entries != [] {
      var pk, row, rest := entries[0].0, entries[0].1, Flat(entries[1..]);
      assert Flat(entries) == FlatOne(pk, row) + rest;
      hide *;
      ReplyRoundTrip(entries[1..]);
      FirstOfReply(pk, row, rest);
      EntriesSplit(entries);
    } else {
      assert Entries(entries) == [];
    }
  }

  /** The pairs that follow a key and its count. */
  method ReadPairs(arr: seq<Item>, at: nat, n: nat) returns (raw: Fields)
    requires at + 2 * n <= |arr|
    ensures raw == TakePairs(arr[at..], n)
  {
    raw := map[];
    for j := 0 to n
      invariant raw == TakePairs(arr[at..], j)
    {
      assert arr[at..][2 * j] == arr[at + 2 * j] && arr[at..][2 * j + 1] == arr[at + 2 * j + 1];
      raw := raw[Shown(arr[at + 2 * j]) := Shown(arr[at + 2 * j + 1])];
    }
  }

  /** What is left to read decides the outcome, given what has been read. */
  ghost predicate ReadSoFar(arr: seq<Item>, i: nat, out: seq<(string, Fields)>)
    requires i <= |arr|
  {
    ParseReply(arr) == match ParseReply(arr[i..]) { case None => None case Some(rest) => Some(out + rest) }
  }

  lemma ReadOne(arr: seq<Item>, i: nat, out: seq<(string, Fields)>)
    requires i < |arr| && ReadSoFar(arr, i, out)
    ensures i + 2 > |arr| || Counted(arr[i + 1]).None? ==> ParseReply(arr).None?
    ensures i + 2 <= |arr| && Counted(arr[i + 1]).Some? ==>
              var nf := Counted(arr[i + 1]).value;
              if i + 2 + 2 * nf > |arr| then ParseReply(arr).None?
              else ReadSoFar(arr, i + 2 + 2 * nf, out + [(Shown(arr[i]), TakePairs(arr[i + 2..], nf))])
  {
    hide ParseReply, TakePairs, Counted, Shown;
    var tail := arr[i..];
    ParseUnfolds(tail);
    assert tail[0] == arr[i] && |tail| == |arr| - i;
    if |tail| >= 2 {
      assert tail[1] == arr[i + 1];
      var nf := Counted(tail[1]);
      if nf.Some? && 2 + 2 * nf.value <= |tail| {
        TailsOf(arr, i, 2 + 2 * nf.value);
        TailsOf(arr, i, 2);
        JoinRest(out, (Shown(arr[i]), TakePairs(arr[i + 2..], nf.value)), ParseReply(arr[i + 2 + 2 * nf.value..]));
      }
    }
  }

  lemma TailsOf(arr: seq<Item>, i: nat, n: nat)
    requires i + n <= |arr|
    ensures arr[i..][n..] == arr[i + n..]
  {
  }

  lemma JoinRest(out: seq<(string, Fields)>, one: (string, Fields), rest: Option<seq<(string, Fields)>>)
    ensures rest.Some? ==> out + ([one] + rest.value) == out + [one] + rest.value
  {
  }

  /** The loop over the reply. */
  method ParsePushdownReply(arr: seq<Item>) returns (rows: Option<seq<(string, Fields)>>)
    ensures rows == ParseReply(arr)
  {
    hide ParseReply, TakePairs, Counted, Shown;
    var out: seq<(string, Fields)> := [];
    var i := 0;
    assert arr[0..] == arr;
    NothingBefore(ParseReply(arr));
    while i < |arr|
      invariant i <= |arr| && ReadSoFar(arr, i, out)
    {
      ReadOne(arr, i, out);
      if i + 2 > |arr| {
        return None;
      }
      var nf := Counted(arr[i + 1]);
      if nf.None? || i + 2 + 2 * nf.value > |arr| {
        return None;
      }
      var raw := ReadPairs(arr, i + 2, nf.value);
      out := out + [(Shown(arr[i]), raw)];
      i := i + 2 + 2 * nf.value;
    }
    ReadAll(arr, i, out);
    rows := Some(out);
  }

  lemma ReadAll(arr: seq<Item>, i: nat, out: seq<(string, Fields)>)
    requires i == |arr| && ReadSoFar(arr, i, out)
    ensures ParseReply(arr) == Some(out)
  {
    assert arr[i..] == [] && out + [] == out;
  }

  lemma NothingBefore(r: Option<seq<(string, Fields)>>)
    ensures r == match r { case None => None case Some(rest) => Some([] + rest) }
  {
    if r.Some? {
      assert [] + r.value == r.value;
    }
  }

  // ----- the script ------------------------------------------------------------------------------

  /** What stands between the first opening brace of a row key and the next closing one. */
  function KeyTag(key: string): string {
    var i := IndexOf(key, '{');
    if i.None? then key
    else
      var j := IndexOf(key[i.value + 1..], '}');
      if j.None? then key else key[i.value + 1..][..j.value]
  }

  /** The script finds the primary key in the row key exactly when it has no closing brace in it. */
  lemma KeyTagIsPK(table: string, pk: string)
    requires K.IsIdent(table)
    ensures KeyTag(K.RowKey(table, pk)) == pk <==> '}' !in pk
  {
    hide IndexOf;
    K.NoBrace(table);
    var key := K.RowKey(table, pk);
    var prefix := "d:" + table + ":";
    FirstAt(prefix, '{', pk + "}");
    assert key == prefix + ['{'] + (pk + "}");
    K.ClosedAt(pk, "");
    assert pk + "}" + "" == pk + "}";
  }

  /** The row's value of the column, by a scan of its listing. */
  function ValueOf(row: Pairs, field: string): Option<string> {
    if row == [] then None else if row[0].0 == field then Some(row[0].1) else ValueOf(row[1..], field)
  }

  predicate Faithful(row: Pairs, fields: Fields) {
    && OncePerField(row)
    && (forall i :: 0 <= i < |row| ==> row[i].0 in fields && fields[row[i].0] == row[i].1)
    && |row| == |fields|
  }

  predicate OncePerField(row: Pairs) { forall i, j :: 0 <= i < j < |row| ==> row[i].0 != row[j].0 }

  lemma {:induction false} FieldIsFrom(row: Pairs, f: string) returns (i: nat)
    requires f in FieldsOf(row)
    ensures i < |row| && row[i].0 == f
  {
    if row[|row| - 1].0 == f {
      i := |row| - 1;
    } else {
      i := FieldIsFrom(row[..|row| - 1], f);
    }
  }

  lemma {:induction false} FieldIsIn(row: Pairs, i: nat)
    requires OncePerField(row) && i < |row|
    ensures row[i].0 in FieldsOf(row) && FieldsOf(row)[row[i].0] == row[i].1
  {
    if i < |row| - 1 {
      FieldIsIn(row[..|row| - 1], i);
    }
  }

  lemma {:induction false} FieldsCount(row: Pairs)
    requires OncePerField(row)
    ensures |FieldsOf(row)| == |row|
  {
    if row != [] {
      var front, last := row[..|row| - 1], row[|row| - 1];
      FieldsCount(front);
      forall f | f in FieldsOf(front) ensures f != last.0 {
        var i := FieldIsFrom(front, f);
        assert row[i] == front[i];
      }
      assert FieldsOf(row).Keys == FieldsOf(front).Keys + {last.0};
    }
  }

  /** A faithful listing loses nothing. */
  lemma FaithfulIs(row: Pairs, fields: Fields)
    requires Faithful(row, fields)
    ensures FieldsOf(row) == fields
  {
    var got := FieldsOf(row);
    FieldsCount(row);
    forall f | f in got ensures f in fields && got[f] == fields[f] {
      var i := FieldIsFrom(row, f);
      FieldIsIn(row, i);
    }
    assert got.Keys <= fields.Keys;
    SameCard(got.Keys, fields.Keys);
  }

  lemma SameCard(a: set<string>, b: set<string>)
    requires a <= b && |a| == |b|
    ensures a == b
  {
    if x :| x in b && x !in a {
      assert |b - {x}| == |b| - 1;
      CardLe(a, b - {x});
    }
  }

  lemma {:induction false} CardLe(a: set<string>, b: set<string>)
    requires a <= b
    ensures |a| <= |b|
  {
    if a != {} {
      var x :| x in a;
      CardLe(a - {x}, b - {x});
    }
  }

  lemma {:induction false} ValueIsFirst(row: Pairs, field: string)
    ensures ValueOf(row, field).None? ==> forall i :: 0 <= i < |row| ==> row[i].0 != field
    ensures ValueOf(row, field).Some? ==> exists i :: 0 <= i < |row| && row[i] == (field, ValueOf(row, field).value)
  {
    if row != [] && row[0].0 != field {
      ValueIsFirst(row[1..], field);
      assert forall i :: 0 <= i < |row[1..]| ==> row[1..][i] == row[i + 1];
    } else if row != [] {
      assert row[0] == (field, row[0].1);
    }
  }

  lemma ValueOfFaithful(row: Pairs, fields: Fields, field: string)
    requires Faithful(row, fields)
    ensures ValueOf(row, field) == FieldOf(fields, field)
  {
    ValueIsFirst(row, field);
    FaithfulIs(row, fields);
    if field in fields {
      var i := FieldIsFrom(row, field);
    }
  }

  /** The test as the script decodes it from its arguments. */
  function ScriptHit(argv: seq<string>, parse: Parse, val: string): bool
    requires |argv| >= 2
  {
    if argv[1] == "eq" then |argv| >= 3 && ParseDigits(argv[2]).Some? && 3 + ParseDigits(argv[2]).value <= |argv| &&
        val in argv[3..3 + ParseDigits(argv[2]).value]
    else if argv[1] == "range" && |argv| == 6 && parse(argv[2]).Some? && parse(argv[3]).Some? && parse(val).Some? then
      var lo, hi, f := parse(argv[2]).value, parse(argv[3]).value, parse(val).value;
      && (if argv[4] == "1" then !f.LessEq(lo) else !f.Less(lo))
      && (if argv[5] == "1" then !hi.LessEq(f) else !hi.Less(f))
    else false
  }

  function FieldOf(fields: Fields, field: string): Option<string> {
    if field in fields then Some(fields[field]) else None
  }

  /** The test of a row: any row at all, or one whose value of the column passes. */
  predicate RowHit(argv: seq<string>, parse: Parse, val: Option<string>)
    requires |argv| >= 2
  {
    argv[1] == "always" || (val.Some? && ScriptHit(argv, parse, val.value))
  }

  /** The script's test of a value is the client's. */
  lemma ScriptTestsAlike(p: Predicate, format: Format, parse: Parse, val: string)
    requires Pushable(p) && Lossless(format, parse)
    ensures ScriptHit(Args(p, format), parse, val) == Passes(p, parse, val)
    ensures Args(p, format)[1] != "always"
  {
    var argv := Args(p, format);
    if p.eq.Some? {
      var es := p.eq.value;
      DigitsRoundTrip(|es|);
      assert argv[3..3 + |es|] == es;
    } else {
      var r := p.ranges.value[0];
      assert parse(format(Fin(r.lo.r))) == Some(Fin(r.lo.r)) && parse(format(Fin(r.hi.r))) == Some(Fin(r.hi.r));
      if parse(val).Some? {
        assert Within(p.ranges.value, parse(val).value) <==> r.Contains(parse(val).value);
      }
    }
  }

  /** HGETALL, in some order. */
  method HGetAllPairs(fields: Fields) returns (row: Pairs)
    ensures Faithful(row, fields)
  {
    row := [];
    var rest := fields.Keys;
    while rest != {}
      invariant OncePerField(row) && rest <= fields.Keys && |row| + |rest| == |fields.Keys|
      invariant forall i :: 0 <= i < |row| ==> row[i].0 in fields && row[i].0 !in rest && fields[row[i].0] == row[i].1
      decreases |rest|
    {
      var f :| f in rest;
      row := row + [(f, fields[f])];
      rest := rest - {f};
    }
  }

  /** The rows of a group that the script lets through, with the keys it finds for them. */
  function HitEntries(db: map<string, Fields>, keys: seq<string>, argv: seq<string>,
      parse: Parse): seq<(string, Fields)>
    requires |argv| >= 2
  {
    if keys == [] then []
    else
      var last := keys[|keys| - 1];
      HitEntries(db, keys[..|keys| - 1], argv, parse)
      + if last in db && db[last] != map[] && RowHit(argv, parse, FieldOf(db[last], argv[0]))
          then [(KeyTag(last), db[last])] else []
  }

  method Scan(row: Pairs, field: string) returns (val: Option<string>)
    ensures val == ValueOf(row, field)
  {
    for j := 0 to |row|
      invariant ValueOf(row, field) == ValueOf(row[j..], field)
    {
      assert row[j..][1..] == row[j + 1..];
      if row[j].0 == field {
        return Some(row[j].1);
      }
    }
    val := None;
  }

  /** The script: each existing row is listed, tested, and copied to the output if it passes. */
  method FilterScript(db: map<string, Fields>, keys: seq<string>, argv: seq<string>, parse: Parse)
      returns (out: seq<Item>)
    requires |argv| >= 2
    ensures ParseReply(out) == Some(HitEntries(db, keys, argv, parse))
  {
    hide ParseReply, HitEntries, ScriptHit, Flat, FlatOne, Faithful;
    out := [];
    ghost var entries: seq<(string, Pairs)> := [];
    NoEntries(db, keys, argv, parse);
    for i := 0 to |keys|
      invariant out == Flat(entries) && Entries(entries) == HitEntries(db, keys[..i], argv, parse)
    {
      NextEntry(db, keys, i, argv, parse);
      if keys[i] in db {
        var row := HGetAllPairs(db[keys[i]]);
        var val := Scan(row, argv[0]);
        ValueOfFaithful(row, db[keys[i]], argv[0]);
        RowIsEmpty(row, db[keys[i]]);
        if |row| > 0 && (argv[1] == "always" || (val.Some? && ScriptHit(argv, parse, val.value))) {
          ghost var one := [(KeyTag(keys[i]), row)];
          FlatAppend(entries, one);
          FlatSingle(KeyTag(keys[i]), row);
          FaithfulIs(row, db[keys[i]]);
          assert Entries(entries + one) == Entries(entries) + [(KeyTag(keys[i]), db[keys[i]])];
          out := out + FlatOne(KeyTag(keys[i]), row);
          entries := entries + one;
        }
      }
    }
    assert keys[..|keys|] == keys;
    ReplyRoundTrip(entries);
  }

  lemma NoEntries(db: map<string, Fields>, keys: seq<string>, argv: seq<string>, parse: Parse)
    requires |argv| >= 2
    ensures Flat([]) == [] && Entries([]) == [] && HitEntries(db, keys[..0], argv, parse) == []
  {
  }

  lemma NextEntry(db: map<string, Fields>, keys: seq<string>, i: nat, argv: seq<string>, parse: Parse)
    requires |argv| >= 2 && i < |keys|
    ensures HitEntries(db, keys[..i + 1], argv, parse) == HitEntries(db, keys[..i], argv, parse)
              + if keys[i] in db && db[keys[i]] != map[] && RowHit(argv, parse, FieldOf(db[keys[i]], argv[0]))
                then [(KeyTag(keys[i]), db[keys[i]])] else []
  {
    assert keys[..i + 1][..i] == keys[..i];
  }

  lemma RowIsEmpty(row: Pairs, fields: Fields)
    requires Faithful(row, fields)
    ensures |row| == 0 <==> fields == map[]
  {
  }

  lemma FlatSingle(pk: string, row: Pairs)
    ensures Flat([(pk, row)]) == FlatOne(pk, row)
  {
    assert Flat([(pk, row)]) == FlatOne(pk, row) + Flat([(pk, row)][1..]);
  }

  // ----- the whole path ------------------------------------------------------------------------------

  /** Rows by their row keys. */
  ghost predicate Keyed(name: string, rows: Rows, db: map<string, Fields>) {
    forall pk: string ::
      (K.RowKey(name, pk) in db <==> pk in rows) && (pk in rows ==> db[K.RowKey(name, pk)] == rows[pk].fields)
  }

  function RowKeys(name: string, pks: seq<string>): seq<string> {
    seq(|pks|, i requires 0 <= i < |pks| => K.RowKey(name, pks[i]))
  }

  function SlotOf(crc: K.Crc, name: string, pk: string): nat { K.Slot(crc, K.RowKey(name, pk)) }

  /** The keys of the list whose rows are in one of the slots, in order. */
  function InSlots(crc: K.Crc, name: string, pks: seq<string>, slots: set<nat>): seq<string> {
    if pks == [] then []
    else
      InSlots(crc, name, pks[..|pks| - 1], slots)
      + if SlotOf(crc, name, pks[|pks| - 1]) in slots then [pks[|pks| - 1]] else []
  }

  /** The entries of a group, decoded, are what the plain loop makes of its keys. */
  lemma {:induction false} EntriesArePlain(cx: RowCodec, format: Format, name: string, rows: Rows,
      db: map<string, Fields>, req: Request, pks: seq<string>)
    requires K.IsIdent(name) && Keyed(name, rows, db) && RowsOK(req.table, rows) && (forall pk <- pks :: '}' !in pk)
    requires req.pred.Some? && Pushable(req.pred.value) && Lossless(format, cx.parse) && !NeedsTTL(req)
    ensures Records(cx, req, HitEntries(db, RowKeys(name, pks), Args(req.pred.value, format), cx.parse))
            == ReadPlainly(cx, rows, req, pks)
  {
    if pks != [] {
      var front, pk := pks[..|pks| - 1], pks[|pks| - 1];
      hide *;
      EntriesArePlain(cx, format, name, rows, db, req, front);
      RowKeysMore(name, front, pk);
      assert pks == front + [pk];
      ReadAppend(cx, rows, req, front, [pk]);
      OneIsPlain(cx, format, name, rows, db, req, pk);
      HitsAppend(db, RowKeys(name, front), K.RowKey(name, pk), Args(req.pred.value, format), cx.parse);
      RecordsAppend(cx, req, HitEntries(db, RowKeys(name, front), Args(req.pred.value, format), cx.parse),
          HitEntries(db, [K.RowKey(name, pk)], Args(req.pred.value, format), cx.parse));
    }
  }

  function Records(cx: RowCodec, req: Request, entries: seq<(string, Fields)>): seq<Record> {
    seq(|entries|, i requires 0 <= i < |entries| => Decoded(cx, req, entries[i].0, entries[i].1))
  }

  lemma RecordsAppend(cx: RowCodec, req: Request, a: seq<(string, Fields)>, b: seq<(string, Fields)>)
    ensures Records(cx, req, a + b) == Records(cx, req, a) + Records(cx, req, b)
  {
  }

  lemma HitsAppend(db: map<string, Fields>, keys: seq<string>, key: string, argv: seq<string>, parse: Parse)
    requires |argv| >= 2
    ensures HitEntries(db, keys + [key], argv, parse)
            == HitEntries(db, keys, argv, parse) + HitEntries(db, [key], argv, parse)
  {
    assert (keys + [key])[..|keys|] == keys;
    assert [key][..0] == [];
  }

  lemma HitIsPass(p: Predicate, format: Format, parse: Parse, fields: Fields)
    requires Pushable(p) && Lossless(format, parse)
    ensures Args(p, format)[0] == p.column
    ensures RowHit(Args(p, format), parse, FieldOf(fields, p.column))
            <==> p.column in fields && Passes(p, parse, fields[p.column])
  {
    hide ScriptHit, Passes, Lossless;
    ScriptTestsAlike(p, format, parse, if p.column in fields then fields[p.column] else "");
  }

  lemma SingleHit(db: map<string, Fields>, key: string, argv: seq<string>, parse: Parse)
    requires |argv| >= 2
    ensures HitEntries(db, [key], argv, parse) ==
            if key in db && db[key] != map[] && RowHit(argv, parse, FieldOf(db[key], argv[0]))
                then [(KeyTag(key), db[key])] else []
  {
    hide RowHit, KeyTag;
    assert [key][..0] == [];
    assert HitEntries(db, [], argv, parse) == [];
  }

  lemma SingleRead(cx: RowCodec, rows: Rows, req: Request, pk: string)
    ensures ReadPlainly(cx, rows, req, [pk]) == One(cx, rows, req, pk)
  {
    hide One;
    assert [pk][1..] == [];
    assert ReadPlainly(cx, rows, req, []) == [];
  }

  lemma OneIsPlain(cx: RowCodec, format: Format, name: string, rows: Rows, db: map<string, Fields>,
      req: Request, pk: string)
    requires K.IsIdent(name) && Keyed(name, rows, db) && RowsOK(req.table, rows) && '}' !in pk
    requires req.pred.Some? && Pushable(req.pred.value) && Lossless(format, cx.parse) && !NeedsTTL(req)
    ensures Records(cx, req, HitEntries(db, [K.RowKey(name, pk)], Args(req.pred.value, format), cx.parse))
            == ReadPlainly(cx, rows, req, [pk])
  {
    var key, p := K.RowKey(name, pk), req.pred.value;
    var argv := Args(p, format);
    assert (K.RowKey(name, pk) in db <==> pk in rows);
    assert (pk in rows ==> db[key] == rows[pk].fields && VERSION_FIELD in rows[pk].fields);
    hide ScriptHit, RowHit, Passes, KeyTag, Keyed, RowsOK, Lossless, K.RowKey, HitEntries, ReadPlainly, Args, K.IsIdent,
         FieldOf;
    if pk in rows {
      HitIsPass(p, format, cx.parse, rows[pk].fields);
    }
    HitIsPass(p, format, cx.parse, map[]);
    KeyTagIsPK(name, pk);
    SingleHit(db, key, argv, cx.parse);
    SingleRead(cx, rows, req, pk);
  }

  lemma {:induction false} SlotsAdd(cx: RowCodec, rows: Rows, req: Request, crc: K.Crc, name: string, pks: seq<string>,
      done: set<nat>, s: nat)
    requires s !in done
    ensures multiset(ReadPlainly(cx, rows, req, InSlots(crc, name, pks, done + {s})))
            == multiset(ReadPlainly(cx, rows, req, InSlots(crc, name, pks, done))) +
                multiset(ReadPlainly(cx, rows, req, InSlots(crc, name, pks, {s})))
  {
    hide *;
    if pks != [] {
      var front, pk := pks[..|pks| - 1], pks[|pks| - 1];
      assert pks == front + [pk];
      SlotsAdd(cx, rows, req, crc, name, front, done, s);
      ReadMore(cx, rows, req, crc, name, front, pk, done + {s});
      ReadMore(cx, rows, req, crc, name, front, pk, done);
      ReadMore(cx, rows, req, crc, name, front, pk, {s});
    } else {
      InSlotsOfNone(crc, name);
      NothingRead(cx, rows, req);
    }
  }

  lemma InSlotsOfNone(crc: K.Crc, name: string)
    ensures forall slots: set<nat> :: InSlots(crc, name, [], slots) == []
  {
  }

  /** One more key adds its record, if its slot is among those read. */
  lemma ReadMore(cx: RowCodec, rows: Rows, req: Request, crc: K.Crc, name: string, pks: seq<string>, pk: string,
      slots: set<nat>)
    ensures multiset(ReadPlainly(cx, rows, req, InSlots(crc, name, pks + [pk], slots)))
            == multiset(ReadPlainly(cx, rows, req, InSlots(crc, name, pks, slots)))
               + if SlotOf(crc, name, pk) in slots then multiset(ReadPlainly(cx, rows, req, [pk])) else multiset{}
  {
    hide ReadPlainly, SlotOf, InSlots;
    InSlotsMore(crc, name, pks, pk, slots);
    ReadAppend(cx, rows, req, InSlots(crc, name, pks, slots), [pk]);
  }

  lemma NothingMore(s: seq<string>)
    ensures s + [] == s
  {
  }

  lemma {:induction false} AllSlotsIs(crc: K.Crc, name: string, pks: seq<string>, slots: set<nat>)
    requires forall pk <- pks :: SlotOf(crc, name, pk) in slots
    ensures InSlots(crc, name, pks, slots) == pks
  {
    hide SlotOf;
    if pks != [] {
      AllSlotsIs(crc, name, pks[..|pks| - 1], slots);
    }
  }

  lemma {:induction false} InSlotsFrom(crc: K.Crc, name: string, pks: seq<string>, slots: set<nat>)
    ensures forall pk <- InSlots(crc, name, pks, slots) :: pk in pks
    ensures slots == {} ==> InSlots(crc, name, pks, slots) == []
  {
    if pks != [] {
      InSlotsFrom(crc, name, pks[..|pks| - 1], slots);
    }
  }

  /** The keys grouped by slot, each group in the order of the list. */
  ghost predicate Grouped(crc: K.Crc, name: string, pks: seq<string>, groups: map<nat, seq<string>>) {
    && (forall pk <- pks :: SlotOf(crc, name, pk) in groups)
    && forall s: nat :: GroupIn(groups, s) == RowKeys(name, InSlots(crc, name, pks, {s}))
  }

  function GroupIn(groups: map<nat, seq<string>>, s: nat): seq<string> { if s in groups then groups[s] else [] }

  /** One more key joins its group. */
  lemma GroupMore(crc: K.Crc, name: string, pks: seq<string>, pk: string, groups: map<nat, seq<string>>)
    requires Grouped(crc, name, pks, groups)
    ensures var s := SlotOf(crc, name, pk);
            Grouped(crc, name, pks + [pk], groups[s := GroupIn(groups, s) + [K.RowKey(name, pk)]])
  {
    hide SlotOf, K.RowKey, RowKeys, InSlots;
    var s, key := SlotOf(crc, name, pk), K.RowKey(name, pk);
    var groups' := groups[s := GroupIn(groups, s) + [key]];
    forall t: nat ensures GroupIn(groups', t) == RowKeys(name, InSlots(crc, name, pks + [pk], {t})) {
      InSlotsMore(crc, name, pks, pk, {t});
      RowKeysMore(name, InSlots(crc, name, pks, {t}), pk);
    }
  }

  lemma InSlotsMore(crc: K.Crc, name: string, pks: seq<string>, pk: string, slots: set<nat>)
    ensures InSlots(crc, name, pks + [pk], slots)
            == if SlotOf(crc, name, pk) in slots then InSlots(crc, name, pks, slots) + [pk]
                else InSlots(crc, name, pks, slots)
  {
    hide SlotOf;
    assert (pks + [pk])[..|pks|] == pks;
    NothingMore(InSlots(crc, name, pks, slots));
  }

  lemma RowKeysMore(name: string, pks: seq<string>, pk: string)
    ensures RowKeys(name, pks + [pk]) == RowKeys(name, pks) + [K.RowKey(name, pk)]
  {
    hide K.RowKey;
  }

  lemma NoGroups(crc: K.Crc, name: string)
    ensures Grouped(crc, name, [], map[])
  {
  }

  method GroupBySlot(crc: K.Crc, name: string, pks: seq<string>) returns (groups: map<nat, seq<string>>)
    ensures Grouped(crc, name, pks, groups)
  {
    hide Grouped, SlotOf, K.RowKey;
    groups := map[];
    NoGroups(crc, name);
    for i := 0 to |pks|
      invariant Grouped(crc, name, pks[..i], groups)
    {
      var s, key := SlotOf(crc, name, pks[i]), K.RowKey(name, pks[i]);
      GroupMore(crc, name, pks[..i], pks[i], groups);
      assert pks[..i + 1] == pks[..i] + [pks[i]];
      groups := groups[s := GroupIn(groups, s) + [key]];
    }
    assert pks[..|pks|] == pks;
  }

  /**
   * One script call for each slot, in whatever order: the records are those that reading and
   * checking on the client gives, in another order at most.
   */
  method FetchRowsPushdown(cx: RowCodec, format: Format, crc: K.Crc, name: string, ghost rows: Rows,
      db: map<string, Fields>, req: Request, pks: seq<string>)
      returns (out: seq<Record>)
    requires K.IsIdent(name) && Keyed(name, rows, db) && RowsOK(req.table, rows) && (forall pk <- pks :: '}' !in pk)
    requires req.pred.Some? && Pushable(req.pred.value) && Lossless(format, cx.parse) && !NeedsTTL(req)
    ensures multiset(out) == multiset(ReadPlainly(cx, rows, req, pks))
    ensures RequestOK(req) ==> AllFit(cx, rows, req, pks, out)
  {
    hide AllFit, RequestOK, Grouped, InSlots, ReadPlainly, RowKeys, HitEntries, ParseReply, Decoded, K.IsIdent, Keyed,
         RowsOK, Pushable, Lossless, SlotOf;
    var groups := GroupBySlot(crc, name, pks);
    var argv := Args(req.pred.value, format);
    out := [];
    var todo := groups.Keys;
    ghost var done: set<nat> := {};
    InSlotsFrom(crc, name, pks, {});
    NothingRead(cx, rows, req);
    while todo != {}
      invariant todo <= groups.Keys && done == groups.Keys - todo
      invariant multiset(out) == multiset(ReadPlainly(cx, rows, req, InSlots(crc, name, pks, done)))
      decreases |todo|
    {
      var s :| s in todo;
      GroupOf(crc, name, pks, groups, s);
      var reply := FilterScript(db, groups[s], argv, cx.parse);
      var parsed := ParsePushdownReply(reply);
      var got := DecodeAll(cx, req, parsed.value);
      InSlotsFrom(crc, name, pks, {s});
      EntriesArePlain(cx, format, name, rows, db, req, InSlots(crc, name, pks, {s}));
      SlotsAdd(cx, rows, req, crc, name, pks, done, s);
      out := out + got;
      todo := todo - {s};
      done := done + {s};
    }
    GroupsCover(crc, name, pks, groups);
    assert done == groups.Keys;
    AllSlotsIs(crc, name, pks, done);
    if RequestOK(req) {
      PermutedFits(cx, rows, req, pks, out);
    }
  }

  /** Each record is that of one of the keys. */
  ghost predicate AllFit(cx: RowCodec, rows: Rows, req: Request, pks: seq<string>, out: seq<Record>) {
    forall record <- out :: exists pk <- pks :: pk in rows && RecordFits(cx, req, rows[pk], pk, record)
  }

  lemma PermutedFits(cx: RowCodec, rows: Rows, req: Request, pks: seq<string>, out: seq<Record>)
    requires RequestOK(req) && RowsOK(req.table, rows)
    requires multiset(out) == multiset(ReadPlainly(cx, rows, req, pks))
    ensures AllFit(cx, rows, req, pks, out)
  {
    PlainlyFits(cx, rows, req, pks);
    HitsAre(cx, rows, req, pks);
    hide ReadPlainly, Hits, RecordFits, Hit, RowsOK;
    var plain, hits := ReadPlainly(cx, rows, req, pks), Hits(cx, rows, req, pks);
    forall record | record in out ensures exists pk <- pks :: pk in rows && RecordFits(cx, req, rows[pk], pk, record) {
      assert record in multiset(plain);
      var i :| 0 <= i < |plain| && plain[i] == record;
      assert hits[i] in pks;
    }
  }

  lemma NothingRead(cx: RowCodec, rows: Rows, req: Request)
    ensures ReadPlainly(cx, rows, req, []) == []
  {
  }

  lemma GroupOf(crc: K.Crc, name: string, pks: seq<string>, groups: map<nat, seq<string>>, s: nat)
    requires Grouped(crc, name, pks, groups) && s in groups
    ensures groups[s] == RowKeys(name, InSlots(crc, name, pks, {s}))
  {
  }

  lemma GroupsCover(crc: K.Crc, name: string, pks: seq<string>, groups: map<nat, seq<string>>)
    requires Grouped(crc, name, pks, groups)
    ensures forall pk <- pks :: SlotOf(crc, name, pk) in groups
  {
  }

  method DecodeAll(cx: RowCodec, req: Request, entries: seq<(string, Fields)>) returns (out: seq<Record>)
    ensures out == Records(cx, req, entries)
  {
    out := [];
    for i := 0 to |entries|
      invariant |out| == i && forall j :: 0 <= j < i ==> out[j] == Decoded(cx, req, entries[j].0, entries[j].1)
    {
      out := out + [Decoded(cx, req, entries[i].0, entries[i].1)];
    }
  }
}
