/**
 * The equality lookup end to end: after any run of concurrent writers, splits and merges, once
 * nothing is in flight, a query for a list of values returns each row that has one of them
 * exactly once, whatever stale members the buckets still hold.
 */
module EqLookup {
  import opened Wrappers
  import opened BucketMap
  import opened WritePath
  import opened Predicates
  import opened RowFetch
  import opened Scatter
  import P = EqProtocol
  import T = EqTheorems

  /** What the store shows to the query: the living rows' columns, and the buckets' members in order. */
  ghost predicate Shows(c: P.Config, w: P.World, rows: Rows, listing: Listing) {
    && (forall pk: string :: pk in rows <==> P.LifeOf(w.rows, pk).Live?)
    && (forall pk <- rows ::
          var cols, fields := w.rows[pk].row.cols, rows[pk].fields;
          && (c.idx.column in cols <==> c.idx.column in fields)
          && (c.idx.column in cols ==> cols[c.idx.column] == fields[c.idx.column]))
    && (forall k: Key, m: Member :: m in BucketAt(listing, k) <==> (k, m) in w.store)
  }

  /** Nothing is in flight, no row is torn or cut off, and the read of the listed values follows the document. */
  ghost predicate Quiet(c: P.Config, w: P.World, values: seq<string>) {
    && w.pending == {} && w.torn == {} && (forall pk: string :: !P.CutOff(w, pk)) && w.history != []
    && Complete(P.CurrentDoc(w), w.hot, c.cx.esc, values)
  }

  predicate HasValue(column: string, rows: Rows, values: seq<string>, pk: string) {
    pk in rows && column in rows[pk].fields && rows[pk].fields[column] in values
  }

  predicate EqRequest(column: string, req: Request, values: seq<string>) {
    req.pred.Some? && req.pred.value.column == column && column != "" && req.pred.value.eq == Some(values)
  }

  lemma HitHasValue(cx: RowCodec, column: string, rows: Rows, req: Request, values: seq<string>, pk: string)
    requires EqRequest(column, req, values) && RequestOK(req)
    ensures Hit(cx, rows, req, pk) <==> HasValue(column, rows, values, pk)
  {
  }

  /** The bucket that readers visit for the row's value names the row. */
  lemma MatchIsNamed(c: P.Config, run: seq<P.World>, n: nat, rows: Rows, listing: Listing, values: seq<string>,
      scans: seq<Key>, pk: string)
    requires P.ValidConfig(c) && P.Graceful(c) && P.Run(c, run) && n < |run|
    requires Quiet(c, run[n], values) && Shows(c, run[n], rows, listing) && HasValue(c.idx.column, rows, values, pk)
    requires forall k: Key :: k in scans <==> Visits(c.idx.id, P.CurrentDoc(run[n]), run[n].hot, c.cx.esc, values, k)
    ensures Named(listing, scans, pk)
  {
    hide P.Run, P.ValidConfig;
    var w := run[n];
    assert !P.CutOff(w, pk);
    var d := P.CurrentDoc(w);
    var v := rows[pk].fields[c.idx.column];
    T.QuietMeansPlaced(c, run, n, pk);
    var b :| b in ReadBucketsEq(d, c.cx.esc(v)) &&
             (P.K(c, c.cx.esc(v), b), T.CurrentMember(c, w.rows[pk].row, pk)) in w.store;
    VisitsFollowDocument(c.idx.id, d, w.hot, c.cx.esc, values);
    var k := EqKey(c.idx.id, c.cx.esc(v), b);
    assert T.CurrentMember(c, w.rows[pk].row, pk) in BucketAt(listing, k);
  }

  /** Each row with a listed value is named by some bucket that the document has for the value. */
  ghost predicate PlacedUnder(id: string, d: Doc, esc: string -> string, column: string, rows: Rows, listing: Listing,
      values: seq<string>) {
    forall pk: string ::
      HasValue(column, rows, values, pk) ==> PlacedAt(id, d, esc(rows[pk].fields[column]), listing, pk)
  }

  ghost predicate PlacedAt(id: string, d: Doc, enc: string, listing: Listing, pk: string) {
    exists b <- ReadBucketsEq(d, enc), m <- BucketAt(listing, EqKey(id, enc, b)) :: m.pk == pk
  }

  /** Whatever rows and buckets the document allows, the visited buckets name every row with a listed value. */
  ghost predicate FindsAll(id: string, d: Doc, esc: string -> string, column: string, values: seq<string>,
      scans: seq<Key>) {
    forall rows: Rows, listing: Listing, pk: string ::
      PlacedUnder(id, d, esc, column, rows, listing, values) && HasValue(column, rows, values, pk) ==>
          Named(listing, scans, pk)
  }

  /** A lookup finds all that the document places exactly when its read follows the document. */
  lemma FindsAllIffComplete(id: string, d: Doc, hot: set<string>, esc: string -> string, column: string,
      values: seq<string>, scans: seq<Key>)
    requires forall k: Key :: k in scans <==> Visits(id, d, hot, esc, values, k)
    ensures FindsAll(id, d, esc, column, values, scans) <==> Complete(d, hot, esc, values)
  {
    VisitsFollowDocument(id, d, hot, esc, values);
    hide Visits, Complete;
    if Complete(d, hot, esc, values) {
      forall rows: Rows, listing: Listing, pk: string | PlacedUnder(id, d, esc, column, rows, listing, values) &&
          HasValue(column, rows, values, pk)
        ensures Named(listing, scans, pk)
      {
        var enc := esc(rows[pk].fields[column]);
        assert PlacedAt(id, d, enc, listing, pk);
        var b, m :| b in ReadBucketsEq(d, enc) && m in BucketAt(listing, EqKey(id, enc, b)) && m.pk == pk;
        assert EqKey(id, enc, b) in scans;
      }
    } else {
      var v, b :| v in values && b in ReadBucketsEq(d, esc(v)) &&
                  !Visits(id, d, hot, esc, values, EqKey(id, esc(v), b));
      MemberMissed(id, d, esc, column, values, scans, v, b);
    }
  }

  /** One row in an unvisited bucket of the document is missed. */
  lemma MemberMissed(id: string, d: Doc, esc: string -> string, column: string, values: seq<string>, scans: seq<Key>,
      v: string, b: nat)
    requires v in values && b in ReadBucketsEq(d, esc(v)) && EqKey(id, esc(v), b) !in scans
    ensures !FindsAll(id, d, esc, column, values, scans)
  {
    var k, m := EqKey(id, esc(v), b), Plain("p", 1);
    var rows: Rows := map["p" := StoredRow(map[column := v], -1)];
    var listing: Listing := map[k := [m]];
    assert m in BucketAt(listing, k);
    assert PlacedUnder(id, d, esc, column, rows, listing, values);
    assert HasValue(column, rows, values, "p") && !Named(listing, scans, "p");
  }

  /** Each row that has a listed value, once, in some order, and nothing else. */
  ghost predicate Answers(cx: RowCodec, column: string, rows: Rows, req: Request, values: seq<string>,
      out: seq<Record>) {
    exists pks: seq<string> ::
      && NoRepeats(pks) && (forall pk: string :: pk in pks <==> HasValue(column, rows, values, pk))
      && (forall pk <- pks :: pk in rows) && out == Records(cx, rows, req, pks) && RecordsFit(cx, rows, req, pks, out)
  }

  method Lookup(c: P.Config, cx: RowCodec, ghost run: seq<P.World>, ghost n: nat, d: Doc, hot: set<string>,
                rows: Rows, listing: Listing, req: Request, values: seq<string>, batch: nat)
      returns (out: seq<Record>)
    requires P.ValidConfig(c) && P.Graceful(c) && P.Run(c, run) && n < |run|
    requires Quiet(c, run[n], values) && d == P.CurrentDoc(run[n]) && hot == run[n].hot
    requires Shows(c, run[n], rows, listing)
    requires batch > 0 && RequestOK(req) && RowsOK(req.table, rows) && EqRequest(c.idx.column, req, values)
    ensures Answers(cx, c.idx.column, rows, req, values, out)
  {
    hide P.Run, P.ValidConfig, Quiet, Shows, RequestOK, RowsOK, EqRequest, HasValue, Hit, Named, Visits, NoRepeats,
         Records, RecordsFit;
    var keys := BuildBuckets(c.idx.id, d, hot, c.cx.esc, values);
    var stream := new RowStream(cx, req, rows, listing, keys, batch);
    ghost var pks;
    out, pks := stream.Drain();
    forall pk: string ensures pk in pks <==> HasValue(c.idx.column, rows, values, pk) {
      HitHasValue(cx, c.idx.column, rows, req, values, pk);
      if HasValue(c.idx.column, rows, values, pk) {
        MatchIsNamed(c, run, n, rows, listing, values, keys, pk);
      }
    }
  }
}
