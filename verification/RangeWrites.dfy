/**
 * Where a write of a score goes while buckets are split and merged: to the bucket around the
 * score until it is drained, and to the child around the score as soon as there is one. What
 * is written there keeps the stored state sound, and stays readable at its score under every
 * later list of the protocol.
 */
module RangeWrites {
  import opened Wrappers
  import opened BucketMap
  import opened WritePath
  import opened Buckets
  import opened RangeShape
  import opened RangeSafety

  /** The bucket takes the score itself, unless it is being drained, or by a child around the score. */
  predicate Takes(x: RangeBucket, s: Score, b: nat) {
    && RangeContains(x, s)
    && ( || (b == x.idx && x.state !in {Draining, MergeDrain})
         || (exists c <- x.children :: c.idx == b && RangeContains(c, s)))
  }

  /** The targets of a write are exactly the numbers of the bucket and the child around its score. */
  lemma TargetsAre(d: Doc, s: Score, b: nat)
    requires Stored(d.ranges, d.next) && s != PosInf
    ensures b in WriteTargetsRange(d, s) <==> exists x <- d.ranges :: Takes(x, s, b)
  {
    ChainFinds(d.ranges, NegInf, PosInf, s);
    var rb := Find(d.ranges, s).value;
    hide Numbered, Spanned, Partition;
    assert Proper(rb);
    TakesIn(rb, s, b);
  }

  /** In a stored bucket under split exactly one child is around the score. */
  lemma TakesIn(rb: RangeBucket, s: Score, b: nat)
    requires Proper(rb) && RangeContains(rb, s)
    ensures b in BucketTargets(rb, s) <==> Takes(rb, s, b)
  {
    assert |rb.children| == 2 ==> forall c <- rb.children :: c == rb.children[0] || c == rb.children[1];
    if InSplit(rb) {
      TwoInARow(rb.children, rb.lo, rb.hi, s);
    }
  }

  lemma TwoInARow(cs: seq<RangeBucket>, lo: Score, hi: Score, s: Score)
    requires |cs| == 2 && Chain(cs, lo, hi) && lo.LessEq(s) && s.Less(hi)
    ensures RangeContains(cs[0], s) <==> !RangeContains(cs[1], s)
  {
    assert Chain(cs[1..], cs[0].hi, hi) && cs[1..][0] == cs[1];
    assert Chain(cs[1..][1..], cs[1].hi, hi) && cs[1..][1..] == [];
  }

  /** A target of the bucket around the score: its child's number if it is under split or merge. */
  lemma SomeTarget(d: Doc, s: Score) returns (x: RangeBucket, b: nat)
    requires Stored(d.ranges, d.next) && s != PosInf
    ensures x in d.ranges && RangeContains(x, s) && b in WriteTargetsRange(d, s) && b in BucketReads(x)
    ensures if x.children == [] then b == x.idx else exists c <- x.children :: c.idx == b && RangeContains(c, s)
  {
    ChainFinds(d.ranges, NegInf, PosInf, s);
    x := Find(d.ranges, s).value;
    assert Proper(x);
    b := x.idx;
    if InSplit(x) {
      TwoInARow(x.children, x.lo, x.hi, s);
      b := if RangeContains(x.children[0], s) then x.children[0].idx else x.children[1].idx;
    } else if InMerge(x) {
      b := x.children[0].idx;
    }
    hide Numbered, Spanned, Partition, WriteTargetsRange;
    TargetsAre(d, s, b);
    ReadsAre(x, b);
  }

  /** A write inserts its member, with the number as its score, at just these buckets. */
  lemma InsertsAround(cx: Codec, idx: IndexDef, pk: string, row: Option<Row>, after: map<string, string>, d: Doc,
      s: Score, r: Redo)
    requires Stored(d.ranges, d.next) && ValidDoc(Some(d)) && s != PosInf
    requires idx.kind.Range? && !idx.async && Redone(idx, Columns(row), after) && cx.parse(after[idx.column]) == Some(s)
    ensures r in RedosFor(cx, idx, pk, row, after, Some(d))
            <==>
            && r == Redo(RangeKey(idx.id, r.key.sub), CoveringMember(pk, OldVer(row) + 1, idx, after), s)
            && exists x <- d.ranges :: Takes(x, s, r.key.sub)
  {
    var targets := WriteTargetsRange(d, s);
    var keys := RangeKeys(idx.id, targets);
    var redos := RedosFor(cx, idx, pk, row, after, Some(d));
    hide Stored, WriteTargetsRange, CoveringMember, Takes;
    TargetsAre(d, s, r.key.sub);
    if r in redos {
      var i :| 0 <= i < |redos| && redos[i] == r;
      assert keys[i] == RangeKey(idx.id, targets[i]);
    }
    if r.key.sub in targets {
      var i :| 0 <= i < |targets| && targets[i] == r.key.sub;
      assert redos[i] == Redo(RangeKey(idx.id, targets[i]), CoveringMember(pk, OldVer(row) + 1, idx, after), s);
    }
  }

  // ----- the write itself -----------------------------------------------------------------------

  /** ZADD of one member with its score to each of the buckets. */
  function Added(zs: Zsets, id: string, bs: seq<nat>, m: Member, s: Score): Zsets {
    if bs == [] then zs
    else
      var rest := Added(zs, id, bs[1..], m, s);
      rest[RK(id, bs[0]) := At(rest, RK(id, bs[0]))[m := s]]
  }

  lemma {:induction false} AddedHas(zs: Zsets, id: string, bs: seq<nat>, m: Member, s: Score, b: nat, m': Member,
      s': Score)
    ensures Has(Added(zs, id, bs, m, s), RK(id, b), m', s')
            <==> if m' == m && b in bs then s' == s else Has(zs, RK(id, b), m', s')
  {
    if bs != [] {
      AddedHas(zs, id, bs[1..], m, s, b, m', s');
      assert b in bs <==> b == bs[0] || b in bs[1..];
    }
  }

  /** No range bucket of the index has the member yet, as with a new stamp. */
  ghost predicate IsNew(zs: Zsets, id: string, m: Member) {
    forall b: nat, s: Score :: !Has(zs, RK(id, b), m, s)
  }

  /** Writing a new member to all targets of its score keeps the stored state sound. */
  lemma WriteKeepsSound(d: Doc, zs: Zsets, id: string, m: Member, s: Score)
    requires RangesSound(d, zs, id) && s != PosInf && IsNew(zs, id, m)
    ensures RangesSound(d, Added(zs, id, WriteTargetsRange(d, s), m, s), id)
  {
    var bs := WriteTargetsRange(d, s);
    var zs' := Added(zs, id, bs, m, s);
    forall b: nat, m': Member, s': Score
      ensures Has(zs', RK(id, b), m', s') <==> if m' == m && b in bs then s' == s else Has(zs, RK(id, b), m', s')
    {
      AddedHas(zs, id, bs, m, s, b, m', s');
    }
    TargetsAllocated(d, s);
    hide Has, Added, WriteTargetsRange, RangeContains, Proper, Partition, Spanned;
    forall x | x in d.ranges ensures Inside(zs', id, x) && forall c <- x.children :: Inside(zs', id, c) {
      TargetIsAround(d, s, x);
    }
    forall b: nat | d.next <= b ensures At(zs', RK(id, b)) == map[] {
      assert b !in bs;
      assert forall m': Member, s': Score :: !Has(zs, RK(id, b), m', s') by { NoneAt(zs, RK(id, b)); }
      EmptyAt(zs', RK(id, b));
    }
  }

  lemma NoneAt(zs: Zsets, k: Key)
    requires At(zs, k) == map[]
    ensures forall m: Member, s: Score :: !Has(zs, k, m, s)
  {
  }

  lemma TargetsAllocated(d: Doc, s: Score)
    requires Stored(d.ranges, d.next) && s != PosInf
    ensures forall b <- WriteTargetsRange(d, s) :: b < d.next
  {
    hide WriteTargetsRange, Chain, Spanned, Proper;
    forall b | b in WriteTargetsRange(d, s) ensures b < d.next {
      TargetsAre(d, s, b);
    }
  }

  /** A stored bucket or child that is written to is around the score. */
  lemma TargetIsAround(d: Doc, s: Score, x: RangeBucket)
    requires Stored(d.ranges, d.next) && s != PosInf && x in d.ranges
    ensures x.idx in WriteTargetsRange(d, s) ==> RangeContains(x, s)
    ensures forall c <- x.children :: c.idx in WriteTargetsRange(d, s) ==> RangeContains(c, s)
  {
    hide WriteTargetsRange, Chain, Spanned, RangeContains;
    if x.idx in WriteTargetsRange(d, s) {
      TargetsAre(d, s, x.idx);
      var y :| y in d.ranges && Takes(y, s, x.idx);
      assert NewTo(x, y);
      IdxUnique(d.ranges, x, y);
    }
    forall c | c in x.children && c.idx in WriteTargetsRange(d, s) ensures RangeContains(c, s) {
      TargetsAre(d, s, c.idx);
      var y :| y in d.ranges && Takes(y, s, c.idx);
      assert NewTo(y, x) && Apart(x, y);
      var c' :| c' in y.children && c'.idx == c.idx && RangeContains(c', s);
      SameChild(x, c, y, c');
    }
  }

  // ----- later lists -------------------------------------------------------------------------------

  /** A store that has what a write sent. */
  ghost predicate Arrived(d: Doc, zs: Zsets, id: string, m: Member, s: Score)
    requires d.ranges != []
  {
    forall b <- WriteTargetsRange(d, s) :: Has(zs, RK(id, b), m, s)
  }

  lemma HeldAt(zs: Zsets, id: string, ranges: seq<RangeBucket>, x: RangeBucket, b: nat, m: Member, s: Score)
    requires x in ranges && RangeContains(x, s) && b in BucketReads(x) && Has(zs, RK(id, b), m, s)
    ensures Held(zs, id, ranges, m, s)
  {
    hide Has, BucketReads;
    assert RangeOverlaps(x, s, s);
    ReadsAt(ranges, s, s, b);
  }

  /** What a write sent is read at its score under the document that routed it. */
  lemma WriteIsRead(d: Doc, zs: Zsets, id: string, m: Member, s: Score)
    requires Stored(d.ranges, d.next) && s != PosInf && Arrived(d, zs, id, m, s)
    ensures Held(zs, id, d.ranges, m, s)
  {
    hide WriteTargetsRange, Has, Held, RangeContains, BucketReads, Partition, Numbered, Spanned, Proper;
    var x, b := SomeTarget(d, s);
    HeldAt(zs, id, d.ranges, x, b, m, s);
  }

  /** It still is when a split or a merge starts, and under the draining list. */
  lemma WriteOutlivesState(d: Doc, zs: Zsets, id: string, l: nat, r: nat, st: State, kids: Option<seq<RangeBucket>>,
      next': nat, m: Member, s: Score)
    requires Stored(d.ranges, d.next) && s != PosInf && Arrived(d, zs, id, m, s)
    requires Stored(Turned(d.ranges, l, r, st, kids), next')
    requires forall x <- d.ranges :: (x.idx == l || x.idx == r) && kids.Some? ==> x.children == []
    ensures Held(zs, id, Turned(d.ranges, l, r, st, kids), m, s)
  {
    hide WriteTargetsRange, Has, Held, RangeContains, BucketReads, Partition, Numbered, Spanned, Proper, Turned;
    var x, b := SomeTarget(d, s);
    var y := Turn(x, l, r, st, kids);
    TurnedHas(d.ranges, l, r, st, kids, x);
    TurnContains(x, l, r, st, kids, s);
    ReadsAre(y, b);
    HeldAt(zs, id, Turned(d.ranges, l, r, st, kids), y, b, m, s);
  }

  /** And when the children have taken the place of a bucket under split, migrated or not. */
  lemma WriteOutlivesSplit(d: Doc, zs: Zsets, id: string, x: RangeBucket, m: Member, s: Score)
    requires Stored(d.ranges, d.next) && s != PosInf && Arrived(d, zs, id, m, s) && x in d.ranges && InSplit(x)
    ensures Held(zs, id, Replaced(d.ranges, x.idx, x.children), m, s)
  {
    assert x.children != [];
    SplitDone(d.ranges, x, d.next);
    hide WriteTargetsRange, Has, Held, RangeContains, BucketReads, Partition, Numbered, Spanned, Proper, Replaced;
    var y, b := SomeTarget(d, s);
    if y == x {
      y :| y in x.children && y.idx == b && RangeContains(y, s);
      OwnIsRead(y);
    }
    HeldAt(zs, id, Replaced(d.ranges, x.idx, x.children), y, b, m, s);
  }

  /** And when the merged bucket has taken the place of two under merge. */
  lemma WriteOutlivesMerge(d: Doc, zs: Zsets, id: string, li: nat, ri: nat, m: Member, s: Score)
    requires Stored(d.ranges, d.next) && s != PosInf && Arrived(d, zs, id, m, s)
    requires li < |d.ranges| && ri < |d.ranges| && Halves(d.ranges, li, ri)
    ensures var left, right := d.ranges[li], d.ranges[ri];
            Held(zs, id, AfterMerge(d.ranges, left.idx, right.idx, left.children[0]), m, s)
  {
    var left, right := d.ranges[li], d.ranges[ri];
    var merged := left.children[0];
    assert left in d.ranges && right in d.ranges && Proper(left) && Proper(right);
    assert forall c <- left.children :: c == merged;
    assert forall c <- right.children :: c == merged;
    hide WriteTargetsRange, Has, Held, RangeContains, BucketReads, Partition, Spanned, Proper, AfterMerge, Numbered;
    var y, b := SomeTarget(d, s);
    OneOfTwo(d.ranges, d.next, y, left, right);
    if y == left || y == right {
      y := merged;
      OwnIsRead(y);
    }
    AfterMergeFrom(d.ranges, left.idx, right.idx, merged, y);
    HeldAt(zs, id, AfterMerge(d.ranges, left.idx, right.idx, merged), y, b, m, s);
  }
}
