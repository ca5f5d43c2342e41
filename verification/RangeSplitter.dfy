/**
 * The controller's split and merge of range buckets, as it runs when no writer is active:
 * an interval is cut at a sampled score, or two adjoining ones become one, while the stored
 * list stays a partition of the score line and every living member stays readable.
 */
module RangeSplitter {
  import opened Wrappers
  import opened BucketMap
  import opened WritePath
  import opened Buckets
  import opened RangeShape
  import opened RangeSafety
  import opened RangeMerge
  import Splitter

  datatype Refusal = NotFound | NothingToSplit | NoSibling | Stale

  /** Below the cut to the first child, otherwise to the second, with the score unchanged. */
  function ScoreRoute(id: string, x: RangeBucket): Route
    requires |x.children| == 2
  {
    (m: Member, s: Score) => (RK(id, if s.Less(x.children[1].lo) then x.children[0].idx else x.children[1].idx), s)
  }

  lemma ScoreRouteInto(zs: Zsets, id: string, x: RangeBucket)
    requires InSplit(x) && Proper(x) && Inside(zs, id, x)
    ensures RoutesInto(zs, id, x, ScoreRoute(id, x))
  {
    hide Has;
    ChainLinks(x.children, x.lo, x.hi);
    forall m: Member, s: Score | Has(zs, RK(id, x.idx), m, s)
      ensures exists c <- x.children :: ScoreRoute(id, x)(m, s) == (RK(id, c.idx), s) && RangeContains(c, s)
    {
      var c := if s.Less(x.children[1].lo) then x.children[0] else x.children[1];
      assert c in x.children && RangeContains(x, s) && x.children[0].hi == x.children[1].lo;
      assert RangeContains(c, s);
    }
  }

  lemma MergeRouteInto(zs: Zsets, id: string, x: RangeBucket)
    requires InMerge(x) && Proper(x) && Inside(zs, id, x)
    ensures RoutesInto(zs, id, x, MergeRoute(id, x.children[0].idx))
  {
    hide Has, Leaf;
    var merged := x.children[0];
    forall m: Member, s: Score | Has(zs, RK(id, x.idx), m, s)
      ensures exists c <- x.children :: MergeRoute(id, merged.idx)(m, s) == (RK(id, c.idx), s) && RangeContains(c, s)
    {
      assert merged in x.children && RangeContains(x, s);
      assert RangeContains(merged, s);
    }
  }

  /** Only the listed buckets of the index change. */
  ghost predicate Elsewhere(zs: Zsets, zs': Zsets, id: string, nums: set<nat>) {
    forall k: Key :: !(k.RangeKey? && k.id == id && k.sub in nums) ==> At(zs', k) == At(zs, k)
  }

  lemma PassElsewhere(zs: Zsets, zs': Zsets, id: string, x: RangeBucket, rows: set<string>, route: Route,
      nums: set<nat>)
    requires Moved(zs, zs', RK(id, x.idx), At(zs, RK(id, x.idx)), rows, route)
    requires x.idx in nums
    requires forall m: Member, s: Score ::
        route(m, s).0.RangeKey? && route(m, s).0.id == id && route(m, s).0.sub in nums
    ensures Elsewhere(zs, zs', id, nums)
  {
    hide At;
    var from := RK(id, x.idx);
    forall k: Key | !(k.RangeKey? && k.id == id && k.sub in nums) ensures At(zs', k) == At(zs, k) {
      assert Routed(At(zs, from), rows, route, k) == map[];
      assert At(zs', k) == At(zs, k) + map[];
    }
  }

  lemma UnlinkedEmpty(zs: Zsets, k: Key)
    requires At(zs, k) == map[]
    ensures forall k': Key :: At(zs - {k}, k') == At(zs, k')
  {
  }

  lemma SoundSame(d: Doc, zs: Zsets, zs': Zsets, id: string, rows: set<string>)
    requires RangesSound(d, zs, id) && forall k: Key :: At(zs', k) == At(zs, k)
    ensures RangesSound(d, zs', id) && SameLiving(zs, d.ranges, zs', d.ranges, id, rows)
  {
    hide Stored, At, BucketReads, RangeContains;
    assert forall k: Key, m: Member, s: Score :: Has(zs', k, m, s) <==> Has(zs, k, m, s);
  }

  lemma SelfSame(zs: Zsets, ranges: seq<RangeBucket>, id: string, rows: set<string>)
    ensures SameLiving(zs, ranges, zs, ranges, id, rows)
  {
  }

  lemma ElsewhereSame(zs: Zsets, mid: Zsets, zs': Zsets, id: string, nums: set<nat>)
    requires Elsewhere(zs, mid, id, nums) && forall k: Key :: At(zs', k) == At(mid, k)
    ensures Elsewhere(zs, zs', id, nums)
  {
  }

  lemma ElsewhereTwice(zs: Zsets, mid: Zsets, zs': Zsets, id: string, nums: set<nat>)
    requires Elsewhere(zs, mid, id, nums) && Elsewhere(mid, zs', id, nums)
    ensures Elsewhere(zs, zs', id, nums)
  {
  }

  /** The cut of an idle bucket at a score that it contains. */
  function Cut(x: RangeBucket, mid: Score, next: nat): seq<RangeBucket> {
    [RangeBucket(next, x.lo, mid, Active, []), RangeBucket(next + 1, mid, x.hi, Active, [])]
  }

  lemma CutIsProper(x: RangeBucket, mid: Score, next: nat)
    requires RangeContains(x, mid)
    ensures Proper(Turn(x, x.idx, x.idx, Splitting, Some(Cut(x, mid, next))))
  {
    ChainLinks(Cut(x, mid, next), x.lo, x.hi);
  }

  // ----- merging ------------------------------------------------------------------------------------

  /** Both buckets are idle, or exactly these two are under merge: what is stored stays well formed. */
  predicate FitsMerge(ranges: seq<RangeBucket>, li: nat, ri: nat)
    requires li < |ranges| && ri < |ranges|
  {
    (Leaf(ranges[li]) && Leaf(ranges[ri])) || Halves(ranges, li, ri)
  }

  lemma {:induction false} AfterMergeTurned(ranges: seq<RangeBucket>, l: nat, r: nat, st: State,
      kids: Option<seq<RangeBucket>>, merged: RangeBucket)
    ensures AfterMerge(Turned(ranges, l, r, st, kids), l, r, merged) == AfterMerge(ranges, l, r, merged)
  {
    if ranges != [] {
      assert Turned(ranges, l, r, st, kids)[1..] == Turned(ranges[1..], l, r, st, kids);
      AfterMergeTurned(ranges[1..], l, r, st, kids, merged);
    }
  }

  lemma RightStays(ranges: seq<RangeBucket>, l: nat, r: nat, st: State, kids: Option<seq<RangeBucket>>,
      li: nat, ri: nat)
    requires IsRight(ranges, li, ri)
    ensures IsRight(Turned(ranges, l, r, st, kids), li, ri)
  {
  }

  lemma MergedIsProper(ranges: seq<RangeBucket>, li: nat, ri: nat, next: nat, x: RangeBucket)
    requires Partition(ranges) && IsRight(ranges, li, ri) && (x == ranges[li] || x == ranges[ri])
    ensures var m := RangeBucket(next, ranges[li].lo, ranges[ri].hi, Active, []);
            Proper(Turn(x, ranges[li].idx, ranges[ri].idx, Merging, Some([m, m])))
  {
    ChainParts(ranges, li, NegInf, PosInf);
    ChainParts(ranges, ri, NegInf, PosInf);
    hide Chain, Partition;
    LessEqTrans(ranges[li].lo, ranges[li].hi, ranges[ri].hi);
  }

  lemma TargetCovers(d: Doc, li: nat, ri: nat)
    requires IsRight(d.ranges, li, ri) && d.ranges[li].children == []
    ensures CoveredBy(d.ranges, d.ranges[li].idx, d.ranges[ri].idx, MergeTarget(d, li, ri))
  {
    var left, right, m := d.ranges[li], d.ranges[ri], MergeTarget(d, li, ri);
    forall s: Score | RangeContains(m, s)
      ensures exists x <- d.ranges :: (x.idx == left.idx || x.idx == right.idx) && RangeContains(x, s)
    {
      var x := if s.Less(left.hi) then left else right;
      assert x in d.ranges && RangeContains(x, s);
    }
  }

  lemma BeginMergeSound(d: Doc, d': Doc, zs: Zsets, id: string, rows: set<string>, li: nat, ri: nat)
    requires RangesSound(d, zs, id) && IsRight(d.ranges, li, ri) && Leaf(d.ranges[li]) && Leaf(d.ranges[ri])
    requires d'.next == d.next + 1
    requires var m := MergeTarget(d, li, ri);
             d'.ranges == Turned(d.ranges, d.ranges[li].idx, d.ranges[ri].idx, Merging, Some([m, m]))
    ensures RangesSound(d', zs, id) && SameLiving(zs, d.ranges, zs, d'.ranges, id, rows)
    ensures Halves(d'.ranges, li, ri)
  {
    var left, right := d.ranges[li], d.ranges[ri];
    var m := MergeTarget(d, li, ri);
    forall x | x in d.ranges && (x.idx == left.idx || x.idx == right.idx)
      ensures x.children == [] && Proper(Turn(x, left.idx, right.idx, Merging, Some([m, m])))
    {
      OneOfTwo(d.ranges, d.next, x, left, right);
      MergedIsProper(d.ranges, li, ri, d.next, x);
    }
    TargetCovers(d, li, ri);
    FreshKidsSound(d, d', zs, id, rows, left.idx, right.idx, Merging, [m, m]);
    hide Partition, Proper, SameLiving, Placed, OneScore, FreshEmpty;
    forall z | z in d'.ranges && Mates(d'.ranges[li], z) ensures z == d'.ranges[li] || z == d'.ranges[ri] {
      var x := TurnedFrom(d.ranges, left.idx, right.idx, Merging, Some([m, m]), z);
      assert forall c <- x.children :: c.idx < d.next;
      assert z.children[0] == m && m in z.children;
      OneOfTwo(d.ranges, d.next, x, left, right);
    }
  }

  lemma DrainMergeSound(d: Doc, d': Doc, zs: Zsets, id: string, rows: set<string>, li: nat, ri: nat)
    requires RangesSound(d, zs, id) && IsRight(d.ranges, li, ri) && Halves(d.ranges, li, ri) && d'.next == d.next
    requires d'.ranges == Turned(d.ranges, d.ranges[li].idx, d.ranges[ri].idx, MergeDrain, None)
    ensures RangesSound(d', zs, id) && SameLiving(zs, d.ranges, zs, d'.ranges, id, rows)
    ensures Halves(d'.ranges, li, ri)
  {
    var left, right := d.ranges[li], d.ranges[ri];
    forall x | x in d.ranges && (x.idx == left.idx || x.idx == right.idx) ensures InMerge(x) {
      OneOfTwo(d.ranges, d.next, x, left, right);
    }
    NewStateSound(d, d', zs, id, rows, left.idx, right.idx, MergeDrain);
    hide Partition, Proper, SameLiving, Placed, OneScore, FreshEmpty, RangesSound;
    forall z | z in d'.ranges && Mates(d'.ranges[li], z) ensures z == d'.ranges[li] || z == d'.ranges[ri] {
      var x := TurnedFrom(d.ranges, left.idx, right.idx, MergeDrain, None, z);
      SameMates(left, x, left.idx, right.idx, MergeDrain);
    }
  }

  /** Both halves of a merge are emptied into its bucket, one after the other. */
  lemma MergePassSound(d: Doc, zs: Zsets, mid: Zsets, zs': Zsets, id: string, rows: set<string>, li: nat, ri: nat)
    requires RangesSound(d, zs, id) && li < |d.ranges| && ri < |d.ranges| && Halves(d.ranges, li, ri)
    requires var left, right, route := d.ranges[li], d.ranges[ri], MergeRoute(id, d.ranges[li].children[0].idx);
             && Moved(zs, mid, RK(id, left.idx), At(zs, RK(id, left.idx)), rows, route)
             && Moved(mid, zs', RK(id, right.idx), At(mid, RK(id, right.idx)), rows, route)
    ensures RangesSound(d, zs', id) && SameLiving(zs, d.ranges, zs', d.ranges, id, rows)
    ensures At(zs', RK(id, d.ranges[li].idx)) == map[] && At(zs', RK(id, d.ranges[ri].idx)) == map[]
  {
    var left, right := d.ranges[li], d.ranges[ri];
    var merged := left.children[0];
    var route := MergeRoute(id, merged.idx);
    assert left in d.ranges && right in d.ranges && merged in left.children && NewTo(left, left);
    assert InMerge(left) && InMerge(right) && Proper(left) && Proper(right);
    hide Proper, Stored, OneScore, FreshEmpty, SameLiving, Moved, Halves, RangeContains, At;
    MergeRouteInto(zs, id, left);
    PassKeeps(d, zs, mid, id, left, rows, route);
    MergeRouteInto(mid, id, right);
    PassKeeps(d, mid, zs', id, right, rows, route);
    SameThroughout(zs, d.ranges, mid, d.ranges, zs', d.ranges, id, rows);
    LeftStaysEmpty(mid, zs', id, left, right, merged, rows);
  }

  lemma LeftStaysEmpty(mid: Zsets, zs': Zsets, id: string, left: RangeBucket, right: RangeBucket, merged: RangeBucket,
      rows: set<string>)
    requires At(mid, RK(id, left.idx)) == map[] && merged.idx != left.idx
    requires Moved(mid, zs', RK(id, right.idx), At(mid, RK(id, right.idx)), rows, MergeRoute(id, merged.idx))
    ensures At(zs', RK(id, left.idx)) == map[]
  {
    hide At;
    if left.idx != right.idx {
      assert Routed(At(mid, RK(id, right.idx)), rows, MergeRoute(id, merged.idx), RK(id, left.idx)) == map[];
    } else {
      assert At(mid, RK(id, right.idx)) - At(mid, RK(id, right.idx)).Keys == map[];
    }
  }

  // ----- the controller -------------------------------------------------------------------------------

  /** The split that a call starts, or finds under way, leaves these in the bucket's place. */
  ghost predicate SplitInto(d: Doc, d': Doc, idx: nat, kids: seq<RangeBucket>) {
    && |kids| == 2 && kids[0].hi == kids[1].lo && kids[0].state.Active? && kids[1].state.Active?
    && (exists x <- d.ranges :: x.idx == idx && Chain(kids, x.lo, x.hi) && (InSplit(x) ==>
          kids == x.children) && (x.children == [] ==> kids[0].idx == d.next && kids[1].idx == d.next + 1))
    && d'.ranges == Replaced(d.ranges, idx, kids) && d'.eq == d.eq && d.next <= d'.next
  }

  /** A split from rest cuts the bucket at the score of one of its members. */
  ghost predicate CutAtMember(d: Doc, zs: Zsets, id: string, idx: nat, kids: seq<RangeBucket>) {
    forall x <- d.ranges :: x.idx == idx && x.children == [] ==>
      |kids| == 2 && kids[0].lo == x.lo && kids[1].hi == x.hi && kids[0].hi == kids[1].lo
      && exists m: Member :: Has(zs, RK(id, idx), m, kids[0].hi)
  }

  class RangeController {
    const id: string
    const batch: nat
    const db: Store
    var doc: Doc
    var hot: bool

    constructor (id: string, batch: nat, db: Store)
      requires batch > 0 && db.zsets == map[]
      ensures this.id == id && this.batch == batch && this.db == db
      ensures Valid() && doc == DefaultDoc() && !hot
    {
      this.id, this.batch, this.db := id, batch, db;
      doc, hot := DefaultDoc(), false;
      new;
      ChainLinks(doc.ranges, NegInf, PosInf);
      assert forall k: Key :: At(db.zsets, k) == map[];
    }

    ghost predicate Valid()
      reads this, db
    {
      batch > 0 && RangesSound(doc, db.zsets, id)
    }

    /** The score of some member; which one does not matter to the split. */
    method Sample(k: Key) returns (mid: Option<Score>)
      ensures mid.None? <==> At(db.zsets, k) == map[]
      ensures mid.Some? ==> exists m: Member :: Has(db.zsets, k, m, mid.value)
    {
      var bucket := At(db.zsets, k);
      if |bucket| == 0 {
        return None;
      }
      var m :| m in bucket;
      assert Has(db.zsets, k, m, bucket[m]);
      mid := Some(bucket[m]);
    }

    method CasNext(seen: nat, next: nat) returns (ok: bool)
      modifies this`doc
      ensures ok == (old(doc).version == seen)
      ensures doc == if ok then old(doc).(version := seen + 1, next := next) else old(doc)
    {
      ok := doc.version == seen;
      if ok {
        doc := doc.(version := doc.version + 1, next := next);
      }
    }

    method CasRanges(seen: nat, ranges: seq<RangeBucket>) returns (ok: bool)
      modifies this`doc
      ensures ok == (old(doc).version == seen)
      ensures doc == if ok then old(doc).(version := seen + 1, ranges := ranges) else old(doc)
    {
      ok := doc.version == seen;
      if ok {
        doc := doc.(version := doc.version + 1, ranges := ranges);
      }
    }

    method FindNumber(ranges: seq<RangeBucket>, idx: nat) returns (p: Option<nat>)
      ensures p.Some? ==> p.value < |ranges| && ranges[p.value].idx == idx
      ensures p.None? ==> forall x <- ranges :: x.idx != idx
    {
      for i := 0 to |ranges|
        invariant forall j :: 0 <= j < i ==> ranges[j].idx != idx
      {
        if ranges[i].idx == idx {
          return Some(i);
        }
      }
      return None;
    }

    method FindRight(ranges: seq<RangeBucket>, li: nat) returns (ri: Option<nat>)
      requires li < |ranges|
      ensures ri.Some? ==> IsRight(ranges, li, ri.value)
      ensures ri.None? ==> forall x <- ranges :: x.lo != ranges[li].hi
    {
      for i := 0 to |ranges|
        invariant forall j :: 0 <= j < i ==> ranges[j].lo != ranges[li].hi
      {
        if ranges[i].lo == ranges[li].hi {
          return Some(i);
        }
      }
      return None;
    }

    /** The list with the state, and with `kids` the children, of two buckets set. */
    method SetStates(ranges: seq<RangeBucket>, l: nat, r: nat, st: State, kids: Option<seq<RangeBucket>>)
        returns (out: seq<RangeBucket>)
      ensures out == Turned(ranges, l, r, st, kids)
    {
      out := [];
      for i := 0 to |ranges|
        invariant |out| == i && forall j :: 0 <= j < i ==> out[j] == Turn(ranges[j], l, r, st, kids)
      {
        var x := ranges[i];
        if x.idx == l || x.idx == r {
          x := x.(state := st);
          if kids.Some? {
            x := x.(children := kids.value);
          }
        }
        out := out + [x];
      }
    }

    /** One pass over a bucket under split, by the cut. */
    method MigrateRange(x: RangeBucket)
      requires Valid() && x in doc.ranges && InSplit(x)
      modifies db`zsets
      ensures Valid() && SameLiving(old(db.zsets), doc.ranges, db.zsets, doc.ranges, id, db.rows)
      ensures At(db.zsets, RK(id, x.idx)) == map[]
      ensures Elsewhere(old(db.zsets), db.zsets, id, {x.idx, x.children[0].idx, x.children[1].idx})
    {
      hide Moved, SameLiving, Elsewhere;
      var route := ScoreRoute(id, x);
      ghost var before := db.zsets;
      assert x.children[0] in x.children && x.children[1] in x.children && NewTo(x, x);
      ScoreRouteInto(before, id, x);
      hide Stored;
      db.MoveBucket(RK(id, x.idx), route, batch);
      PassKeeps(doc, before, db.zsets, id, x, db.rows, route);
      PassElsewhere(before, db.zsets, id, x, db.rows, route, {x.idx, x.children[0].idx, x.children[1].idx});
    }

    /** UNLINK of a bucket that the passes have emptied. */
    method Unlink(b: nat)
      requires Valid() && At(db.zsets, RK(id, b)) == map[]
      modifies db`zsets
      ensures Valid() && SameLiving(old(db.zsets), doc.ranges, db.zsets, doc.ranges, id, db.rows)
      ensures forall k: Key :: At(db.zsets, k) == At(old(db.zsets), k)
    {
      ghost var before := db.zsets;
      UnlinkedEmpty(before, RK(id, b));
      db.zsets := db.zsets - {RK(id, b)};
      hide RangesSound, SameLiving, At;
      SoundSame(doc, before, db.zsets, id, db.rows);
    }

    /** First two CASes of a split: two numbers, then the children and the state. */
    method BeginSplit(p: nat, mid: Score)
      requires Valid() && p < |doc.ranges| && Leaf(doc.ranges[p]) && RangeContains(doc.ranges[p], mid)
      modifies this`doc
      ensures Valid() && SameLiving(db.zsets, old(doc).ranges, db.zsets, doc.ranges, id, db.rows)
      ensures var x := old(doc).ranges[p];
              && doc.ranges == Turned(old(doc).ranges, x.idx, x.idx, Splitting, Some(Cut(x, mid, old(doc).next)))
              && doc.next == old(doc).next + 2 && doc.eq == old(doc).eq
    {
      hide SameLiving;
      ghost var d := doc;
      var sh := doc;
      var rb := sh.ranges[p];
      var kids := Cut(rb, mid, sh.next);
      var reserved := CasNext(sh.version, sh.next + 2);
      var sh2 := doc;
      var ranges := SetStates(sh2.ranges, rb.idx, rb.idx, Splitting, Some(kids));
      var stored := CasRanges(sh2.version, ranges);
      CutIsProper(rb, mid, sh.next);
      hide Proper, Partition, RangeContains;
      forall x | x in d.ranges && x.idx == rb.idx ensures x == rb {
        IdxUnique(d.ranges, x, rb);
      }
      FreshKidsSound(d, doc, db.zsets, id, db.rows, rb.idx, rb.idx, Splitting, kids);
    }

    /** A pass while both sides are written, then the CAS to the draining state. */
    method DrainSplit(p: nat)
      requires Valid() && p < |doc.ranges| && doc.ranges[p].state == Splitting
      modifies this`doc, db`zsets
      ensures Valid() && SameLiving(old(db.zsets), old(doc).ranges, db.zsets, doc.ranges, id, db.rows)
      ensures var x := old(doc).ranges[p];
              && doc.ranges == Turned(old(doc).ranges, x.idx, x.idx, Draining, None)
              && doc.next == old(doc).next && doc.eq == old(doc).eq
              && |x.children| == 2
              && Elsewhere(old(db.zsets), db.zsets, id, {x.idx, x.children[0].idx, x.children[1].idx})
    {
      hide SameLiving, Elsewhere;
      ghost var d, before := doc, db.zsets;
      ghost var x := doc.ranges[p];
      assert InSplit(x) && Proper(x);
      hide Proper, Partition;
      MigrateRange(doc.ranges[p]);
      var sh2 := doc;
      var ranges := SetStates(sh2.ranges, sh2.ranges[p].idx, sh2.ranges[p].idx, Draining, None);
      var stored := CasRanges(sh2.version, ranges);
      forall y | y in d.ranges && y.idx == x.idx ensures y == x {
        IdxUnique(d.ranges, y, x);
      }
      NewStateSound(d, doc, db.zsets, id, db.rows, x.idx, x.idx, Draining);
      SameThroughout(before, d.ranges, db.zsets, d.ranges, db.zsets, doc.ranges, id, db.rows);
    }

    /** Passes until the grace period is over, UNLINK, and the list with the children in place. */
    method FinishSplit(p: nat, passes: nat)
      requires Valid() && p < |doc.ranges| && doc.ranges[p].state == Draining
      modifies this, db`zsets
      ensures Valid() && SameLiving(old(db.zsets), old(doc).ranges, db.zsets, doc.ranges, id, db.rows)
      ensures var x := old(doc).ranges[p];
              && doc.ranges == Replaced(old(doc).ranges, x.idx, x.children)
              && doc.next == old(doc).next && doc.eq == old(doc).eq && hot
              && At(db.zsets, RK(id, x.idx)) == map[]
              && |x.children| == 2
              && Elsewhere(old(db.zsets), db.zsets, id, {x.idx, x.children[0].idx, x.children[1].idx})
    {
      hide SameLiving, Elsewhere, Replaced;
      ghost var d, before := doc, db.zsets;
      var rb := doc.ranges[p];
      assert InSplit(rb) && Proper(rb);
      hide Proper, Partition, Numbered, Placed, OneScore, FreshEmpty;
      MigrateRange(rb);
      for i := 0 to passes
        invariant Valid() && doc == d && At(db.zsets, RK(id, rb.idx)) == map[]
        invariant SameLiving(before, d.ranges, db.zsets, d.ranges, id, db.rows)
        invariant Elsewhere(before, db.zsets, id, {rb.idx, rb.children[0].idx, rb.children[1].idx})
      {
        ghost var mid := db.zsets;
        MigrateRange(rb);
        SameThroughout(before, d.ranges, mid, d.ranges, db.zsets, d.ranges, id, db.rows);
        ElsewhereTwice(before, mid, db.zsets, id, {rb.idx, rb.children[0].idx, rb.children[1].idx});
      }
      ghost var mid := db.zsets;
      Unlink(rb.idx);
      ElsewhereSame(before, mid, db.zsets, id, {rb.idx, rb.children[0].idx, rb.children[1].idx});
      SameThroughout(before, d.ranges, mid, d.ranges, db.zsets, d.ranges, id, db.rows);
      var sh2 := doc;
      var ranges := PutInPlace(sh2.ranges, rb.idx, rb.children);
      var stored := CasRanges(sh2.version, ranges);
      SplitDoneSound(d, doc, db.zsets, id, db.rows, rb);
      SameThroughout(before, d.ranges, db.zsets, d.ranges, db.zsets, doc.ranges, id, db.rows);
      hot := true;
    }

    method PutInPlace(ranges: seq<RangeBucket>, idx: nat, parts: seq<RangeBucket>) returns (out: seq<RangeBucket>)
      ensures out == Replaced(ranges, idx, parts)
    {
      out := [];
      for i := 0 to |ranges|
        invariant out + Replaced(ranges[i..], idx, parts) == Replaced(ranges, idx, parts)
      {
        assert ranges[i..][1..] == ranges[i + 1..];
        if ranges[i].idx == idx {
          out := out + parts;
        } else {
          out := out + [ranges[i]];
        }
      }
    }

    /**
     * Split of one range bucket. One found under split is finished from where it stands;
     * one under merge is left alone and reported.
     */
    method SplitRange(bucketIdx: nat, passes: nat) returns (r: Result<(), Refusal>, ghost kids: seq<RangeBucket>)
      requires Valid()
      modifies this, db`zsets
      ensures Valid() && SameLiving(old(db.zsets), old(doc).ranges, db.zsets, doc.ranges, id, db.rows)
      ensures r.Success? ==>
                SplitInto(old(doc), doc, bucketIdx, kids) && At(db.zsets, RK(id, bucketIdx)) == map[] && hot
      ensures r.Success? ==> Elsewhere(old(db.zsets), db.zsets, id, {bucketIdx, kids[0].idx, kids[1].idx})
      ensures r.Success? ==> CutAtMember(old(doc), old(db.zsets), id, bucketIdx, kids)
      ensures r.Failure? ==> doc == old(doc) && db.zsets == old(db.zsets) && hot == old(hot)
      ensures r == Failure(NotFound) <==> forall x <- old(doc).ranges :: x.idx != bucketIdx
      ensures r == Failure(NothingToSplit)
              <==> exists x <- old(doc).ranges ::
                  x.idx == bucketIdx && Leaf(x) && At(old(db.zsets), RK(id, bucketIdx)) == map[]
      ensures r == Failure(Stale) <==> exists x <- old(doc).ranges :: x.idx == bucketIdx && InMerge(x)
    {
      hide SameLiving, Elsewhere, Replaced, Turned, At, Placed, OneScore, FreshEmpty, Partition, Chain, ChildrenNew,
           ChildrenApart, OnlyPairs, Allocated;
      ghost var d, before := doc, db.zsets;
      SelfSame(before, d.ranges, id, db.rows);
      ElsewhereSelf(before, id);
      kids := [];
      for attempt := 0 to Splitter.MAX_STEP_RETRIES
        invariant doc == d && db.zsets == before && hot == old(hot)
        invariant attempt > 0 ==> exists x <- d.ranges :: x.idx == bucketIdx && InMerge(x)
      {
        var sh := doc;
        var found := FindNumber(sh.ranges, bucketIdx);
        if found.None? {
          return Failure(NotFound), kids;
        }
        var p := found.value;
        var rb := sh.ranges[p];
        OnlyOne(d.ranges, rb);
        KidsOf(rb);
        kids := rb.children;
        if |rb.children| == 0 {
          var mid := Sample(RK(id, rb.idx));
          if mid.None? {
            return Failure(NothingToSplit), kids;
          }
          SampleInside(before, id, d.ranges, rb, mid.value);
          kids := Cut(rb, mid.value, d.next);
          assert kids[0].hi == mid.value;
          CutChain(rb, mid.value, d.next);
          BeginSplit(p, mid.value);
          TurnedAt(d.ranges, rb.idx, rb.idx, Splitting, Some(kids), p);
          ReplacedTurned(d.ranges, rb.idx, Splitting, Some(kids), kids);
          rb := doc.ranges[p];
        }
        if rb.state == Splitting {
          ghost var mid, zmid := doc, db.zsets;
          DrainSplit(p);
          ReplacedTurned(mid.ranges, rb.idx, Draining, None, kids);
          SameThroughout(before, d.ranges, zmid, mid.ranges, db.zsets, doc.ranges, id, db.rows);
          TurnedAt(mid.ranges, rb.idx, rb.idx, Draining, None, p);
          rb := doc.ranges[p];
        }
        if rb.state == Draining {
          ghost var mid, zmid := doc, db.zsets;
          FinishSplit(p, passes);
          ElsewhereTwice(before, zmid, db.zsets, id, {bucketIdx, kids[0].idx, kids[1].idx});
          SameThroughout(before, d.ranges, zmid, mid.ranges, db.zsets, doc.ranges, id, db.rows);
          return Success(()), kids;
        }
      }
      r := Failure(Stale);
    }

    /** Both buckets of a merge are emptied into its target. */
    method MovePair(left: nat, right: nat, merged: RangeBucket, ghost li: nat, ghost ri: nat, ghost fits: bool)
      requires batch > 0 && merged.idx != left && merged.idx != right
      requires fits ==> Valid() && MergeOf(doc.ranges, li, ri, left, right, merged)
      modifies db`zsets
      ensures PairMoved(old(db.zsets), db.zsets, id, left, right, merged.idx, db.rows)
      ensures fits ==> Valid() && SameLiving(old(db.zsets), doc.ranges, db.zsets, doc.ranges, id, db.rows)
      ensures fits ==> At(db.zsets, RK(id, left)) == map[] && At(db.zsets, RK(id, right)) == map[]
    {
      hide Moved, SameLiving, RangesSound, PairMoved;
      ghost var before := db.zsets;
      var route := MergeRoute(id, merged.idx);
      db.MoveBucket(RK(id, left), route, batch);
      ghost var mid := db.zsets;
      db.MoveBucket(RK(id, right), route, batch);
      PairPasses(before, mid, db.zsets, id, left, right, merged.idx, db.rows);
      if fits {
        MergePassSound(doc, before, mid, db.zsets, id, db.rows, li, ri);
      }
    }

    /** First two CASes of a merge: one number, then both buckets with their target. */
    method BeginMerge(left: RangeBucket, right: RangeBucket, ghost li: nat, ghost ri: nat) returns (merged: RangeBucket)
      requires Valid() && li < |doc.ranges| && ri < |doc.ranges| && left == doc.ranges[li] && right == doc.ranges[ri]
      requires IsRight(doc.ranges, li, ri) && Leaf(left)
      modifies this`doc
      ensures merged == MergeTarget(old(doc), li, ri) && doc.ranges == BegunMerge(old(doc), li, ri)
      ensures Leaf(right) ==>
                && Valid() && SameLiving(db.zsets, old(doc).ranges, db.zsets, doc.ranges, id, db.rows)
                && MergeOf(doc.ranges, li, ri, left.idx, right.idx, merged)
    {
      hide SameLiving, Partition, Proper, Placed, OneScore, FreshEmpty, Numbered;
      ghost var d := doc;
      var sh := doc;
      merged := RangeBucket(sh.next, left.lo, right.hi, Active, []);
      var reserved := CasNext(sh.version, sh.next + 1);
      var sh2 := doc;
      var ranges := SetStates(sh2.ranges, left.idx, right.idx, Merging, Some([merged, merged]));
      var stored := CasRanges(sh2.version, ranges);
      if Leaf(right) {
        BeginMergeSound(d, doc, db.zsets, id, db.rows, li, ri);
        RightStays(d.ranges, left.idx, right.idx, Merging, Some([merged, merged]), li, ri);
      }
    }

    /** A pass while both sides are written, then the CAS to the draining state. */
    method DrainMerge(left: nat, right: nat, merged: RangeBucket, ghost li: nat, ghost ri: nat, ghost fits: bool)
      requires batch > 0 && merged.idx != left && merged.idx != right
      requires fits ==> Valid() && MergeOf(doc.ranges, li, ri, left, right, merged)
      modifies this`doc, db`zsets
      ensures doc.ranges == Turned(old(doc).ranges, left, right, MergeDrain, None)
      ensures PairMoved(old(db.zsets), db.zsets, id, left, right, merged.idx, db.rows)
      ensures fits ==>
                && Valid() && SameLiving(old(db.zsets), old(doc).ranges, db.zsets, doc.ranges, id, db.rows)
                && MergeOf(doc.ranges, li, ri, left, right, merged)
    {
      hide SameLiving, RangesSound, PairMoved;
      ghost var d, before := doc, db.zsets;
      MovePair(left, right, merged, li, ri, fits);
      var sh2 := doc;
      var ranges := SetStates(sh2.ranges, left, right, MergeDrain, None);
      var stored := CasRanges(sh2.version, ranges);
      if fits {
        DrainMergeSound(d, doc, db.zsets, id, db.rows, li, ri);
        RightStays(d.ranges, left, right, MergeDrain, None, li, ri);
        SameThroughout(before, d.ranges, db.zsets, d.ranges, db.zsets, doc.ranges, id, db.rows);
      }
    }

    /** Passes until the grace period is over, both UNLINKs, and the list with the target in place. */
    method FinishMerge(left: nat, right: nat, merged: RangeBucket, passes: nat, ghost li: nat, ghost ri: nat,
        ghost fits: bool)
      requires batch > 0 && merged.idx != left && merged.idx != right
      requires fits ==> Valid() && MergeOf(doc.ranges, li, ri, left, right, merged)
      modifies this`doc, db`zsets
      ensures doc.ranges == AfterMerge(old(doc).ranges, left, right, merged)
      ensures PairMoved(old(db.zsets), db.zsets, id, left, right, merged.idx, db.rows)
      ensures fits ==> Valid() && SameLiving(old(db.zsets), old(doc).ranges, db.zsets, doc.ranges, id, db.rows)
      ensures fits ==> At(db.zsets, RK(id, left)) == map[] && At(db.zsets, RK(id, right)) == map[]
    {
      hide SameLiving, RangesSound, AfterMerge, At, PairMoved;
      ghost var d, before := doc, db.zsets;
      MovePair(left, right, merged, li, ri, fits);
      for i := 0 to passes
        invariant doc == d && PairMoved(before, db.zsets, id, left, right, merged.idx, db.rows)
        invariant fits ==> Valid() && SameLiving(before, d.ranges, db.zsets, d.ranges, id, db.rows)
        invariant fits ==> At(db.zsets, RK(id, left)) == map[] && At(db.zsets, RK(id, right)) == map[]
      {
        ghost var mid := db.zsets;
        MovePair(left, right, merged, li, ri, fits);
        PairAgain(before, mid, db.zsets, id, left, right, merged.idx, db.rows);
        if fits {
          SameThroughout(before, d.ranges, mid, d.ranges, db.zsets, d.ranges, id, db.rows);
        }
      }
      ghost var mid := db.zsets;
      db.zsets := db.zsets - {RK(id, left)};
      db.zsets := db.zsets - {RK(id, right)};
      PairEmpties(before, mid, id, left, right, merged.idx, db.rows);
      BothUnlinked(mid, RK(id, left), RK(id, right));
      PairSame(before, mid, db.zsets, id, left, right, merged.idx, db.rows);
      if fits {
        SoundSame(d, mid, db.zsets, id, db.rows);
        SameThroughout(before, d.ranges, mid, d.ranges, db.zsets, d.ranges, id, db.rows);
      }
      var sh2 := doc;
      var ranges := MergeInPlace(sh2.ranges, left, right, merged);
      var stored := CasRanges(sh2.version, ranges);
      if fits {
        MergeDoneSound(d, doc, db.zsets, id, db.rows, li, ri);
        SameThroughout(before, d.ranges, db.zsets, d.ranges, db.zsets, doc.ranges, id, db.rows);
      }
    }

    method MergeInPlace(ranges: seq<RangeBucket>, left: nat, right: nat, merged: RangeBucket)
        returns (out: seq<RangeBucket>)
      ensures out == AfterMerge(ranges, left, right, merged)
    {
      out := [];
      for i := 0 to |ranges|
        invariant out + AfterMerge(ranges[i..], left, right, merged) == AfterMerge(ranges, left, right, merged)
      {
        assert ranges[i..][1..] == ranges[i + 1..];
        if ranges[i].idx == left {
          out := out + [merged];
        } else if ranges[i].idx != right {
          out := out + [ranges[i]];
        }
      }
    }

    /**
     * Merge of a range bucket with the one that starts where it ends. The state of the left
     * bucket alone decides what happens: readers keep what they find under the guard.
     */
    method MergeRange(leftIdx: nat, passes: nat) returns (r: Result<(), Refusal>, ghost li: nat, ghost ri: nat)
      requires Valid()
      modifies this, db`zsets
      ensures r.Success? ==>
                && MayMerge(old(doc), li, ri) && old(doc).ranges[li].idx == leftIdx
                && doc.ranges == EndedMerge(old(doc), li, ri)
      ensures r.Success? ==>
                PairMoved(old(db.zsets), db.zsets, id, leftIdx, old(doc).ranges[ri].idx,
                    MergeTarget(old(doc), li, ri).idx, db.rows)
      ensures r.Success? && MergeGuard(old(doc).ranges, li, ri) ==>
                KeptThroughout(old(doc), old(db.zsets), db.zsets, id, li, ri, db.rows)
      ensures r.Success? && InMerge(old(doc).ranges[li]) ==>
          (Partition(doc.ranges) <==> MergeGuard(old(doc).ranges, li, ri))
      ensures r.Success? && FitsMerge(old(doc).ranges, li, ri) ==> Valid()
      ensures r.Failure? ==> doc == old(doc) && db.zsets == old(db.zsets)
      ensures hot == old(hot)
      ensures r == Failure(NotFound) <==> forall x <- old(doc).ranges :: x.idx != leftIdx
      ensures r == Failure(NoSibling)
              <==> exists x <- old(doc).ranges :: x.idx == leftIdx && forall y <- old(doc).ranges :: y.lo != x.hi
      ensures r == Failure(Stale)
              <==> exists x <- old(doc).ranges ::
                     x.idx == leftIdx && InSplit(x) && exists y <- old(doc).ranges :: y.lo == x.hi
    {
      hide SameLiving, Turned, AfterMerge, At, Placed, OneScore, FreshEmpty, Partition, Chain, ChildrenApart, OnlyPairs,
           Allocated, Halves, Spanned, PairMoved, KeptThroughout, MergeGuard;
      ghost var d, before := doc, db.zsets;
      li, ri := 0, 0;
      for attempt := 0 to Splitter.MAX_STEP_RETRIES
        invariant doc == d && db.zsets == before && hot == old(hot)
        invariant attempt > 0 ==>
                    exists x <- d.ranges :: x.idx == leftIdx && InSplit(x) && exists y <- d.ranges :: y.lo == x.hi
      {
        var sh := doc;
        var l := FindNumber(sh.ranges, leftIdx);
        if l.None? {
          return Failure(NotFound), li, ri;
        }
        var left := sh.ranges[l.value];
        OnlyOne(d.ranges, left);
        var nb := FindRight(sh.ranges, l.value);
        if nb.None? {
          return Failure(NoSibling), li, ri;
        }
        var right := sh.ranges[nb.value];
        li, ri := l.value, nb.value;
        ghost var fits := FitsMerge(d.ranges, li, ri);
        KidsOf(left);
        var state := left.state;
        if !InSplit(left) {
          TargetIsNew(d, li, ri);
        }
        var merged := MergeTarget(sh, l.value, nb.value);
        if fits {
          MergeFits(d.ranges, li, ri);
        }
        if state == Active {
          merged := BeginMerge(left, right, li, ri);
          AfterMergeTurned(d.ranges, left.idx, right.idx, Merging, Some([merged, merged]), merged);
          state := Merging;
        }
        ghost var drained := false;
        if state == Merging {
          ghost var mid := doc;
          DrainMerge(left.idx, right.idx, merged, li, ri, fits);
          AfterMergeTurned(mid.ranges, left.idx, right.idx, MergeDrain, None, merged);
          drained := true;
          state := MergeDrain;
        }
        if state == MergeDrain {
          ghost var mid := db.zsets;
          FinishMerge(left.idx, right.idx, merged, passes, li, ri, fits);
          if drained {
            PairAgain(before, mid, db.zsets, id, left.idx, right.idx, merged.idx, db.rows);
          }
          EndIsPartition(d, li, ri);
          if MergeGuard(d.ranges, li, ri) {
            GuardKeeps(d, before, db.zsets, id, li, ri, db.rows);
          }
          return Success(()), li, ri;
        }
      }
      r := Failure(Stale);
    }
  }

  /** The merge under way at these positions, by its three bucket numbers. */
  ghost predicate MergeOf(ranges: seq<RangeBucket>, li: nat, ri: nat, left: nat, right: nat, merged: RangeBucket) {
    && li < |ranges| && ri < |ranges| && IsRight(ranges, li, ri) && Halves(ranges, li, ri)
    && ranges[li].idx == left && ranges[ri].idx == right && ranges[li].children[0] == merged
  }

  lemma ElsewhereSelf(zs: Zsets, id: string)
    ensures forall nums :: Elsewhere(zs, zs, id, nums)
  {
  }

  lemma KidsOf(x: RangeBucket)
    requires Proper(x)
    ensures InSplit(x) ==>
              && |x.children| == 2 && Chain(x.children, x.lo, x.hi) && x.children[0].hi == x.children[1].lo
              && Leaf(x.children[0]) && Leaf(x.children[1])
    ensures !InSplit(x) && !InMerge(x) <==> x.children == []
  {
    if InSplit(x) {
      ChainLinks(x.children, x.lo, x.hi);
    }
  }

  lemma CutChain(x: RangeBucket, mid: Score, next: nat)
    requires RangeContains(x, mid)
    ensures Chain(Cut(x, mid, next), x.lo, x.hi)
  {
    ChainLinks(Cut(x, mid, next), x.lo, x.hi);
  }

  lemma {:induction false} ReplacedTurned(ranges: seq<RangeBucket>, idx: nat, st: State,
      kids: Option<seq<RangeBucket>>, parts: seq<RangeBucket>)
    ensures Replaced(Turned(ranges, idx, idx, st, kids), idx, parts) == Replaced(ranges, idx, parts)
  {
    if ranges != [] {
      assert Turned(ranges, idx, idx, st, kids)[1..] == Turned(ranges[1..], idx, idx, st, kids);
      ReplacedTurned(ranges[1..], idx, st, kids, parts);
    }
  }

  /** The number names one bucket of the list. */
  lemma OnlyOne(ranges: seq<RangeBucket>, rb: RangeBucket)
    requires DistinctIdx(ranges) && rb in ranges
    ensures forall x <- ranges :: x.idx == rb.idx ==> x == rb
  {
    forall x | x in ranges && x.idx == rb.idx ensures x == rb {
      IdxUnique(ranges, x, rb);
    }
  }

  lemma SampleInside(zs: Zsets, id: string, ranges: seq<RangeBucket>, rb: RangeBucket, mid: Score)
    requires Placed(zs, id, ranges) && rb in ranges && exists m: Member :: Has(zs, RK(id, rb.idx), m, mid)
    ensures RangeContains(rb, mid)
  {
  }

  lemma TurnedAt(ranges: seq<RangeBucket>, l: nat, r: nat, st: State, kids: Option<seq<RangeBucket>>, p: nat)
    requires p < |ranges|
    ensures |Turned(ranges, l, r, st, kids)| == |ranges|
    ensures Turned(ranges, l, r, st, kids)[p] == Turn(ranges[p], l, r, st, kids)
  {
  }

  lemma BothUnlinked(zs: Zsets, a: Key, b: Key)
    requires At(zs, a) == map[] && At(zs, b) == map[]
    ensures forall k: Key :: At(zs - {a} - {b}, k) == At(zs, k)
  {
  }

  lemma MergeFits(ranges: seq<RangeBucket>, li: nat, ri: nat)
    requires li < |ranges| && ri < |ranges| && Proper(ranges[li]) && FitsMerge(ranges, li, ri)
    ensures ranges[li].state == Active ==> Leaf(ranges[ri])
    ensures ranges[li].state != Active ==> Halves(ranges, li, ri)
  {
  }
}
