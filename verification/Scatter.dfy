/**
 * The streaming read of an equality lookup: the buckets of every listed value are paged
 * through side by side, each primary key is taken up once however many members name it, and
 * the rows are read back and checked before they are handed out.
 */
module Scatter {
  import opened Wrappers
  import opened BucketMap
  import opened WritePath
  import opened Predicates
  import opened RowFetch

  /** A bucket as ZRANGE lists it: members in a fixed order. */
  type Bucket = seq<Member>
  type Listing = map<Key, Bucket>

  function BucketAt(l: Listing, k: Key): Bucket { if k in l then l[k] else [] }

  datatype Scan = Scan(key: Key, cursor: nat)

  // ----- which buckets to visit -------------------------------------------------------------

  /** The routing document counts as soon as one of the values is registered. */
  predicate Routed(hot: set<string>, esc: string -> string, values: seq<string>) { exists v <- values :: esc(v) in hot }

  function ReadsFor(d: Doc, hot: set<string>, esc: string -> string, values: seq<string>, v: string): seq<nat> {
    if Routed(hot, esc, values) then ReadBucketsEq(d, esc(v)) else [0]
  }

  predicate Visits(id: string, d: Doc, hot: set<string>, esc: string -> string, values: seq<string>, k: Key) {
    exists v <- values, b <- ReadsFor(d, hot, esc, values, v) :: k == EqKey(id, esc(v), b)
  }

  /** One listed value is registered, or the document sends every listed value to bucket 0. */
  predicate Complete(d: Doc, hot: set<string>, esc: string -> string, values: seq<string>) {
    Routed(hot, esc, values) || forall v <- values, b <- ReadBucketsEq(d, esc(v)) :: b == 0
  }

  /** Every read bucket of the document is visited for every listed value. */
  predicate VisitsAll(id: string, d: Doc, hot: set<string>, esc: string -> string, values: seq<string>) {
    forall v <- values, b <- ReadBucketsEq(d, esc(v)) :: Visits(id, d, hot, esc, values, EqKey(id, esc(v), b))
  }

  /** The read follows the document exactly when it is complete. */
  lemma VisitsFollowDocument(id: string, d: Doc, hot: set<string>, esc: string -> string, values: seq<string>)
    ensures VisitsAll(id, d, hot, esc, values) <==> Complete(d, hot, esc, values)
  {
    if Complete(d, hot, esc, values) {
      forall v, b | v in values && b in ReadBucketsEq(d, esc(v))
        ensures Visits(id, d, hot, esc, values, EqKey(id, esc(v), b))
      {
        assert b in ReadsFor(d, hot, esc, values, v);
      }
    } else {
      var v, b :| v in values && b in ReadBucketsEq(d, esc(v)) && b != 0;
      assert !Visits(id, d, hot, esc, values, EqKey(id, esc(v), b));
    }
  }

  /** A value split but not registered, when nothing else in the list is: only bucket 0 is visited. */
  lemma UnregisteredReadsDefault(id: string, d: Doc, hot: set<string>, esc: string -> string, v: string, k: Key)
    requires esc(v) !in hot
    ensures Visits(id, d, hot, esc, [v], k) <==> k == EqKey(id, esc(v), 0)
  {
    assert v in [v] && 0 in ReadsFor(d, hot, esc, [v], v);
  }

  method BuildBuckets(id: string, d: Doc, hot: set<string>, esc: string -> string, values: seq<string>)
      returns (keys: seq<Key>)
    ensures forall k: Key :: k in keys <==> Visits(id, d, hot, esc, values, k)
  {
    var routed := false;
    for i := 0 to |values|
      invariant routed <==> exists v <- values[..i] :: esc(v) in hot
    {
      assert values[..i + 1] == values[..i] + [values[i]];
      if esc(values[i]) in hot {
        routed := true;
      }
    }
    assert values[..|values|] == values;
    keys := [];
    for i := 0 to |values|
      invariant forall k: Key :: k in keys <==> exists v <- values[..i], b <- ReadsFor(d, hot, esc, values, v) ::
          k == EqKey(id, esc(v), b)
    {
      ghost var before := keys;
      var bs := if routed then ReadBucketsEq(d, esc(values[i])) else [0];
      var mine := EqKeys(id, esc(values[i]), bs);
      assert forall k: Key :: k in mine <==> exists b <- bs :: k == EqKey(id, esc(values[i]), b) by {
        forall b | b in bs ensures EqKey(id, esc(values[i]), b) in mine {
          var j :| 0 <= j < |bs| && bs[j] == b;
          assert mine[j] == EqKey(id, esc(values[i]), b);
        }
      }
      keys := keys + mine;
      assert values[..i + 1] == values[..i] + [values[i]];
      forall k: Key
        ensures k in keys
                <==> exists v <- values[..i + 1], b <- ReadsFor(d, hot, esc, values, v) :: k == EqKey(id, esc(v), b)
      {
        assert k in keys <==> k in before || k in mine;
      }
    }
    assert values[..|values|] == values;
  }

  // ----- the stream ---------------------------------------------------------------------------

  /** Members still to be paged in. */
  function Rest(l: Listing, p: Scan): nat {
    if p.cursor < |BucketAt(l, p.key)| then |BucketAt(l, p.key)| - p.cursor else 0
  }

  function Left(l: Listing, pending: seq<Scan>): nat {
    if pending == [] then 0 else Rest(l, pending[0]) + 1 + Left(l, pending[1..])
  }

  lemma {:induction false} LeftAppend(l: Listing, a: seq<Scan>, b: seq<Scan>)
    ensures Left(l, a + b) == Left(l, a) + Left(l, b)
  {
    if a == [] {
      assert a + b == b;
    } else {
      assert (a + b)[1..] == a[1..] + b;
      LeftAppend(l, a[1..], b);
    }
  }

  /** The member at this place has been taken up, or one of the scans will come to it. */
  ghost predicate TakenOrComing(l: Listing, k: Key, i: nat, seen: set<string>, pending: seq<Scan>)
    requires i < |BucketAt(l, k)|
  {
    BucketAt(l, k)[i].pk in seen || exists p <- pending :: p.key == k && p.cursor <= i
  }

  ghost predicate Covered(l: Listing, scans: seq<Key>, seen: set<string>, pending: seq<Scan>) {
    forall k <- scans, i: nat :: i < |BucketAt(l, k)| ==> TakenOrComing(l, k, i, seen, pending)
  }

  /** Some visited bucket names the primary key. */
  ghost predicate Named(l: Listing, scans: seq<Key>, pk: string) {
    exists k <- scans, m <- BucketAt(l, k) :: m.pk == pk
  }

  lemma StartCovered(l: Listing, scans: seq<Key>, pending: seq<Scan>)
    requires |pending| == |scans| && forall i :: 0 <= i < |scans| ==> pending[i] == Scan(scans[i], 0)
    ensures Covered(l, scans, {}, pending)
  {
    forall k, i: nat | k in scans && i < |BucketAt(l, k)| ensures TakenOrComing(l, k, i, {}, pending) {
      var j :| 0 <= j < |scans| && scans[j] == k;
      assert pending[j] in pending;
    }
  }

  /** One page of the first scan: its members are seen, and the scan goes on if the page was full. */
  lemma PageCovers(l: Listing, scans: seq<Key>, seen: set<string>, seen': set<string>, p: Scan, more: seq<Scan>,
      kept: seq<Scan>, count: nat)
    requires Covered(l, scans, seen, [p] + more) && seen <= seen'
    requires p.cursor + count <= |BucketAt(l, p.key)|
    requires forall i :: p.cursor <= i < p.cursor + count ==> BucketAt(l, p.key)[i].pk in seen'
    requires kept == [Scan(p.key, p.cursor + count)] || (kept == [] && p.cursor + count == |BucketAt(l, p.key)|)
    ensures Covered(l, scans, seen', more + kept)
  {
    forall k, i: nat | k in scans && i < |BucketAt(l, k)| ensures TakenOrComing(l, k, i, seen', more + kept) {
      assert TakenOrComing(l, k, i, seen, [p] + more);
      if BucketAt(l, k)[i].pk !in seen' {
        var q :| q in [p] + more && q.key == k && q.cursor <= i;
        if q in more {
          assert q in more + kept;
        } else {
          assert q == p && kept != [];
          assert kept[0] in more + kept;
        }
      }
    }
  }

  class RowStream {
    const cx: RowCodec
    const req: Request
    const rows: Rows            // what the store holds while the stream is read
    const listing: Listing
    const scans: seq<Key>
    const batch: nat
    var scatterDone: bool
    var pending: seq<Scan>
    var seen: set<string>
    var ready: seq<Record>
    ghost var asked: seq<string>     // primary keys taken up, in order
    ghost var handed: seq<Record>    // rows handed out

    constructor (cx: RowCodec, req: Request, rows: Rows, listing: Listing, scans: seq<Key>, batch: nat)
      requires batch > 0 && RequestOK(req) && RowsOK(req.table, rows)
      ensures Valid() && handed == []
      ensures this.cx == cx && this.req == req && this.rows == rows && this.listing == listing && this.scans == scans
    {
      this.cx, this.req, this.rows, this.listing, this.scans, this.batch := cx, req, rows, listing, scans, batch;
      scatterDone, pending, seen, ready, asked, handed := false, [], {}, [], [], [];
    }

    ghost predicate Valid()
      reads this
    {
      && batch > 0 && RequestOK(req) && RowsOK(req.table, rows)
      && handed + ready == ReadPlainly(cx, rows, req, asked)
      && NoRepeats(asked) && (forall pk: string :: pk in seen <==> pk in asked)
      && (forall pk <- asked :: Named(listing, scans, pk))
      && (if scatterDone then Covered(listing, scans, seen, pending) else pending == [] && seen == {})
      && (forall p <- pending :: p.key in scans && p.cursor <= |BucketAt(listing, p.key)|)
    }

    /** Pages not yet read; it bounds the work that is left. */
    ghost function Work(): nat
      reads this
    {
      if scatterDone then Left(listing, pending) else Left(listing, Starts(scans)) + 1
    }

    /** ZRANGE of one page. */
    method Page(p: Scan) returns (members: seq<Member>)
      requires p.cursor <= |BucketAt(listing, p.key)|
      ensures |members| <= batch && p.cursor + |members| <= |BucketAt(listing, p.key)|
      ensures members == BucketAt(listing, p.key)[p.cursor..p.cursor + |members|]
      ensures |members| < batch ==> p.cursor + |members| == |BucketAt(listing, p.key)|
    {
      var all := BucketAt(listing, p.key);
      var end := if p.cursor + batch < |all| then p.cursor + batch else |all|;
      members := all[p.cursor..end];
    }

    /** The primary keys of a page that have not been taken up before. */
    method TakeUp(members: seq<Member>) returns (fresh_: seq<string>)
      modifies this`seen
      ensures seen == old(seen) + (set m <- members :: m.pk)
      ensures NoRepeats(fresh_) && forall pk: string :: pk in fresh_ <==> pk in seen && pk !in old(seen)
    {
      fresh_ := [];
      for i := 0 to |members|
        invariant seen == old(seen) + (set m <- members[..i] :: m.pk)
        invariant NoRepeats(fresh_) && forall pk: string :: pk in fresh_ <==> pk in seen && pk !in old(seen)
      {
        assert members[..i + 1] == members[..i] + [members[i]];
        var pk := members[i].pk;
        if pk !in seen {
          seen := seen + {pk};
          fresh_ := fresh_ + [pk];
        }
      }
      assert members[..|members|] == members;
    }

    /** One round of pages over all scans; a full page means the scan goes on. */
    method Round() returns (items: seq<string>)
      requires Valid() && scatterDone && pending != []
      modifies this`pending, this`seen
      ensures Covered(listing, scans, seen, pending)
      ensures forall p <- pending :: p.key in scans && p.cursor <= |BucketAt(listing, p.key)|
      ensures NoRepeats(items) && (forall pk: string :: pk in items <==> pk in seen && pk !in old(seen))
      ensures old(seen) <= seen
      ensures forall pk <- items :: Named(listing, scans, pk)
      ensures Left(listing, pending) < Left(listing, old(pending))
    {
      hide Covered, Left;
      items := [];
      var todo, kept: seq<Scan> := pending, [];
      assert todo[0..] + kept == todo;
      for i := 0 to |todo|
        invariant Covered(listing, scans, seen, todo[i..] + kept) && old(seen) <= seen
        invariant forall p <- kept :: p.key in scans && p.cursor <= |BucketAt(listing, p.key)|
        invariant NoRepeats(items) && forall pk: string :: pk in items <==> pk in seen && pk !in old(seen)
        invariant forall pk <- items :: Named(listing, scans, pk)
        invariant Left(listing, todo[i..] + kept) + i <= Left(listing, todo)
      {
        ghost var had := seen;
        var p := todo[i];
        var members := Page(p);
        var fresh_ := TakeUp(members);
        FreshAreNamed(listing, scans, p, members, fresh_);
        AppendNoDups(items, fresh_);
        items := items + fresh_;
        var next: seq<Scan> := [];
        if |members| == batch {
          next := [Scan(p.key, p.cursor + |members|)];
        }
        assert todo[i..] + kept == [p] + (todo[i + 1..] + kept);
        assert todo[i + 1..] + (kept + next) == todo[i + 1..] + kept + next;
        PageSeen(listing, p, members, seen);
        PageCovers(listing, scans, had, seen, p, todo[i + 1..] + kept, next, |members|);
        PageShrinks(listing, p, todo[i + 1..] + kept, next, |members|);
        kept := kept + next;
      }
      assert todo[|todo|..] + kept == kept;
      pending := kept;
    }

    /** The rows of the primary keys just taken up, checked and decoded. */
    method FetchItems(items: seq<string>)
      requires batch > 0 && RequestOK(req) && RowsOK(req.table, rows)
      requires handed + ready == ReadPlainly(cx, rows, req, asked)
      modifies this`ready, this`asked
      ensures asked == old(asked) + items && handed + ready == ReadPlainly(cx, rows, req, asked)
      ensures items == [] ==> ready == old(ready)
    {
      hide RequestOK, RowsOK;
      ReadAppend(cx, rows, req, asked, items);
      asked := asked + items;
      var got := FetchRows(cx, rows, req, items, batch);
      assert handed + (ready + got) == handed + ready + got;
      ready := ready + got;
    }

    /** Pages are read until some of their members are new, and those rows fetched. */
    method FillScatter() returns (eof: bool)
      requires Valid()
      modifies this
      ensures Valid() && handed == old(handed)
      ensures eof ==> scatterDone && pending == [] && ready == old(ready)
      ensures !eof ==> Work() < old(Work())
    {
      hide Covered, Left, NoRepeats, RequestOK, RowsOK, Named, ReadPlainly, BucketAt;
      while true
        invariant Valid() && handed == old(handed) && ready == old(ready) && Work() <= old(Work())
        decreases Work()
      {
        if |pending| == 0 {
          if scatterDone {
            return true;
          }
          scatterDone := true;
          pending := Starts(scans);
          StartCovered(listing, scans, pending);
          if |pending| == 0 {
            return true;
          }
        }
        ghost var work := Left(listing, pending);
        var items := Round();
        AppendNoDups(asked, items);
        FetchItems(items);
        if |items| > 0 {
          return false;
        }
      }
    }

    /** The next row, or nothing when every bucket has been read to its end. */
    method Next() returns (r: Option<Record>)
      requires Valid()
      modifies this
      ensures Valid()
      ensures r.Some? ==> handed == old(handed) + [r.value]
      ensures r.None? ==> handed == old(handed) && ready == [] && scatterDone && pending == []
      ensures r.Some? ==> Work() < old(Work()) || (Work() == old(Work()) && |ready| < |old(ready)|)
    {
      while |ready| == 0
        invariant Valid() && handed == old(handed) && Work() <= old(Work())
        invariant (Work() < old(Work()) || ready == old(ready))
        decreases Work()
      {
        var eof := FillScatter();
        if eof {
          return None;
        }
      }
      r := Some(ready[0]);
      assert handed + ready == handed + [ready[0]] + ready[1..];
      handed := handed + [ready[0]];
      ready := ready[1..];
    }

    /**
     * The whole stream: every living row that some visited bucket names and that meets the
     * predicate, once each, and nothing else.
     */
    method Drain() returns (out: seq<Record>, ghost pks: seq<string>)
      requires Valid() && handed == []
      modifies this
      ensures NoRepeats(pks) && forall pk: string :: pk in pks <==> Hit(cx, rows, req, pk) && Named(listing, scans, pk)
      ensures (forall pk <- pks :: pk in rows) && out == Records(cx, rows, req, pks)
      ensures RecordsFit(cx, rows, req, pks, out)
    {
      out := [];
      var more := true;
      while more
        invariant Valid() && handed == out
        invariant !more ==> ready == [] && scatterDone && pending == []
        decreases more, Work(), |ready|
      {
        var r := Next();
        if r.Some? {
          out := out + [r.value];
        } else {
          more := false;
        }
      }
      pks := Hits(cx, rows, req, asked);
      HitsAre(cx, rows, req, asked);
      PlainlyFits(cx, rows, req, asked);
      assert handed + ready == handed;
      DrainedSawAll(listing, scans, seen);
    }
  }

  function Starts(scans: seq<Key>): seq<Scan> { seq(|scans|, i requires 0 <= i < |scans| => Scan(scans[i], 0)) }

  lemma FreshAreNamed(l: Listing, scans: seq<Key>, p: Scan, members: seq<Member>, fresh_: seq<string>)
    requires p.key in scans && p.cursor + |members| <= |BucketAt(l, p.key)|
    requires members == BucketAt(l, p.key)[p.cursor..p.cursor + |members|]
    requires forall pk <- fresh_ :: pk in (set m <- members :: m.pk)
    ensures forall pk <- fresh_ :: Named(l, scans, pk)
  {
    forall pk | pk in fresh_ ensures Named(l, scans, pk) {
      var m :| m in members && m.pk == pk;
      assert m in BucketAt(l, p.key);
    }
  }

  lemma AppendNoDups(a: seq<string>, b: seq<string>)
    requires NoRepeats(a) && NoRepeats(b) && forall x <- b :: x !in a
    ensures NoRepeats(a + b)
  {
    forall i, j | 0 <= i < j < |a + b| ensures (a + b)[i] != (a + b)[j] {
      if j >= |a| > i {
        assert a[i] in a && b[j - |a|] in b;
      }
    }
  }

  lemma PageSeen(l: Listing, p: Scan, members: seq<Member>, seen: set<string>)
    requires p.cursor + |members| <= |BucketAt(l, p.key)|
    requires members == BucketAt(l, p.key)[p.cursor..p.cursor + |members|]
    requires (set m <- members :: m.pk) <= seen
    ensures forall i :: p.cursor <= i < p.cursor + |members| ==> BucketAt(l, p.key)[i].pk in seen
  {
    forall i | p.cursor <= i < p.cursor + |members| ensures BucketAt(l, p.key)[i].pk in seen {
      assert members[i - p.cursor] in members;
    }
  }

  lemma PageShrinks(l: Listing, p: Scan, more: seq<Scan>, next: seq<Scan>, count: nat)
    requires p.cursor + count <= |BucketAt(l, p.key)|
    requires next == [] || (count > 0 && next == [Scan(p.key, p.cursor + count)])
    ensures Left(l, more + next) + 1 <= Left(l, [p] + more)
  {
    LeftAppend(l, more, next);
    assert ([p] + more)[1..] == more;
    assert next != [] ==> next[1..] == [];
  }

  /** With no scan left, every name has been taken up. */
  lemma DrainedSawAll(l: Listing, scans: seq<Key>, seen: set<string>)
    requires Covered(l, scans, seen, [])
    ensures forall pk: string :: Named(l, scans, pk) ==> pk in seen
  {
    forall pk: string | Named(l, scans, pk) ensures pk in seen {
      var k, m :| k in scans && m in BucketAt(l, k) && m.pk == pk;
      var i :| 0 <= i < |BucketAt(l, k)| && BucketAt(l, k)[i] == m;
      assert TakenOrComing(l, k, i, seen, []);
    }
  }
}
