/**
 * When a merge of two range buckets may start, or be taken up again: the controller looks at
 * the left bucket's state only, and what happens to readers depends on the right one too.
 */
module RangeMerge {
  import opened Wrappers
  import opened BucketMap
  import opened WritePath
  import opened Buckets
  import opened RangeShape
  import opened RangeSafety

  // ----- what a call stores and moves -------------------------------------------------------------

  /** The bucket that a merge of the two fills. */
  function MergeTarget(d: Doc, li: nat, ri: nat): RangeBucket
    requires li < |d.ranges| && ri < |d.ranges|
  {
    var left, right := d.ranges[li], d.ranges[ri];
    if left.children == [] then RangeBucket(d.next, left.lo, right.hi, Active, []) else left.children[0]
  }

  /** The list once the merge is under way. */
  function BegunMerge(d: Doc, li: nat, ri: nat): seq<RangeBucket>
    requires li < |d.ranges| && ri < |d.ranges|
  {
    var m := MergeTarget(d, li, ri);
    if d.ranges[li].children == []
    then Turned(d.ranges, d.ranges[li].idx, d.ranges[ri].idx, Merging, Some([m, m]))
    else d.ranges
  }

  /** The list once only the target is written. */
  function DrainedMerge(d: Doc, li: nat, ri: nat): seq<RangeBucket>
    requires li < |d.ranges| && ri < |d.ranges|
  {
    Turned(BegunMerge(d, li, ri), d.ranges[li].idx, d.ranges[ri].idx, MergeDrain, None)
  }

  /** The list once the merge is over. */
  function EndedMerge(d: Doc, li: nat, ri: nat): seq<RangeBucket>
    requires li < |d.ranges| && ri < |d.ranges|
  {
    AfterMerge(d.ranges, d.ranges[li].idx, d.ranges[ri].idx, MergeTarget(d, li, ri))
  }

  function Living(z: Zset, rows: set<string>): Zset { map m <- z | m.pk in rows :: z[m] }

  /** Both buckets are empty, their living members are in the third, nothing else has changed. */
  ghost predicate PairMoved(zs: Zsets, zs': Zsets, id: string, l: nat, r: nat, t: nat, rows: set<string>) {
    forall k: Key :: PairMovedAt(zs, zs', id, l, r, t, rows, k)
  }

  ghost predicate PairMovedAt(zs: Zsets, zs': Zsets, id: string, l: nat, r: nat, t: nat, rows: set<string>, k: Key) {
    At(zs', k) ==
    if k == RK(id, l) || k == RK(id, r) then map[]
    else if k == RK(id, t) then At(zs, k) + Living(At(zs, RK(id, l)), rows) + Living(At(zs, RK(id, r)), rows)
    else At(zs, k)
  }

  function MergeRoute(id: string, t: nat): Route {
    (m: Member, s: Score) => (RK(id, t), s)
  }

  lemma RoutedLiving(z: Zset, rows: set<string>, id: string, t: nat, k: Key)
    ensures Routed(z, rows, MergeRoute(id, t), k) == if k == RK(id, t) then Living(z, rows) else map[]
  {
  }

  /** A pass over one bucket, key by key. */
  lemma PassAt(zs: Zsets, zs': Zsets, id: string, l: nat, t: nat, rows: set<string>, k: Key)
    requires t != l && Moved(zs, zs', RK(id, l), At(zs, RK(id, l)), rows, MergeRoute(id, t))
    ensures At(zs', k)
            == if k == RK(id, l) then map[] else if k == RK(id, t) then At(zs, k) + Living(At(zs, RK(id, l)), rows)
                else At(zs, k)
  {
    hide At, Routed, Living;
    var a := At(zs, RK(id, l));
    RoutedLiving(a, rows, id, t, k);
    assert a - a.Keys == map[] && At(zs, k) + map[] == At(zs, k);
  }

  /** A pass over the one and then over the other. */
  lemma PairPasses(zs: Zsets, mid: Zsets, zs': Zsets, id: string, l: nat, r: nat, t: nat, rows: set<string>)
    requires t != l && t != r
    requires Moved(zs, mid, RK(id, l), At(zs, RK(id, l)), rows, MergeRoute(id, t))
    requires Moved(mid, zs', RK(id, r), At(mid, RK(id, r)), rows, MergeRoute(id, t))
    ensures PairMoved(zs, zs', id, l, r, t, rows)
  {
    hide At, Moved, Living, MergeRoute;
    NoneLiving(rows);
    PassAt(zs, mid, id, l, t, rows, RK(id, r));
    forall k: Key ensures PairMovedAt(zs, zs', id, l, r, t, rows, k) {
      PassAt(zs, mid, id, l, t, rows, k);
      PassAt(mid, zs', id, r, t, rows, k);
      if l == r {
        SameTwice(At(zs, k), Living(At(zs, RK(id, l)), rows));
      }
    }
  }

  lemma NoneLiving(rows: set<string>)
    ensures Living(map[], rows) == map[]
  {
  }

  lemma SameTwice(a: Zset, b: Zset)
    ensures a + b + map[] == a + b && a + b + b == a + b && a + map[] + map[] == a
  {
  }

  /** Doing it again makes no difference. */
  lemma PairAgain(zs: Zsets, mid: Zsets, zs': Zsets, id: string, l: nat, r: nat, t: nat, rows: set<string>)
    requires t != l && t != r
    requires PairMoved(zs, mid, id, l, r, t, rows) && PairMoved(mid, zs', id, l, r, t, rows)
    ensures PairMoved(zs, zs', id, l, r, t, rows)
  {
    hide At, Living;
    NoneLiving(rows);
    SameTwice(At(mid, RK(id, t)), map[]);
    assert PairMovedAt(zs, mid, id, l, r, t, rows, RK(id, l)) && PairMovedAt(zs, mid, id, l, r, t, rows, RK(id, r));
    forall k: Key ensures PairMovedAt(zs, zs', id, l, r, t, rows, k) {
      assert PairMovedAt(zs, mid, id, l, r, t, rows, k) && PairMovedAt(mid, zs', id, l, r, t, rows, k);
    }
  }

  lemma PairEmpties(zs: Zsets, zs': Zsets, id: string, l: nat, r: nat, t: nat, rows: set<string>)
    requires PairMoved(zs, zs', id, l, r, t, rows)
    ensures At(zs', RK(id, l)) == map[] && At(zs', RK(id, r)) == map[]
  {
    assert PairMovedAt(zs, zs', id, l, r, t, rows, RK(id, l)) && PairMovedAt(zs, zs', id, l, r, t, rows, RK(id, r));
  }

  lemma PairSame(zs: Zsets, mid: Zsets, zs': Zsets, id: string, l: nat, r: nat, t: nat, rows: set<string>)
    requires PairMoved(zs, mid, id, l, r, t, rows) && forall k: Key :: At(zs', k) == At(mid, k)
    ensures PairMoved(zs, zs', id, l, r, t, rows)
  {
    hide At, Living;
    forall k: Key ensures PairMovedAt(zs, zs', id, l, r, t, rows, k) {
      assert PairMovedAt(zs, mid, id, l, r, t, rows, k);
    }
  }

  /** Member by member; copies of a member have one score. */
  lemma PairHas(zs: Zsets, zs': Zsets, id: string, l: nat, r: nat, t: nat, rows: set<string>, b: nat, m: Member,
      s: Score)
    requires OneScore(zs, id) && PairMoved(zs, zs', id, l, r, t, rows) && t != l && t != r
    ensures Has(zs', RK(id, b), m, s) <==>
            && b != l && b != r
            && (Has(zs, RK(id, b), m, s) || (b == t && m.pk in rows &&
                (Has(zs, RK(id, l), m, s) || Has(zs, RK(id, r), m, s))))
  {
    hide At;
    assert PairMovedAt(zs, zs', id, l, r, t, rows, RK(id, b));
    OnlyScore(zs, id, l, t, m);
    OnlyScore(zs, id, r, t, m);
    OnlyScore(zs, id, l, r, m);
  }

  lemma OnlyScore(zs: Zsets, id: string, a: nat, b: nat, m: Member)
    requires OneScore(zs, id)
    ensures m in At(zs, RK(id, a)) && m in At(zs, RK(id, b)) ==> At(zs, RK(id, a))[m] == At(zs, RK(id, b))[m]
  {
    hide At;
    if m in At(zs, RK(id, a)) && m in At(zs, RK(id, b)) {
      assert Has(zs, RK(id, a), m, At(zs, RK(id, a))[m]) && Has(zs, RK(id, b), m, At(zs, RK(id, b))[m]);
    }
  }

  // ----- the guard --------------------------------------------------------------------------------------

  /**
   * The two stored buckets fit: to start, the right one is idle or empty of scores; to take up
   * again, the bucket under way spans the two.
   */
  predicate MergeGuard(ranges: seq<RangeBucket>, li: nat, ri: nat)
    requires li < |ranges| && ri < |ranges|
  {
    var left, right := ranges[li], ranges[ri];
    if left.children == [] then Leaf(right) || right.lo == right.hi
    else left.children[0].lo == left.lo && left.children[0].hi == right.hi
  }

  /** Each list that the call stores is a partition under which readers find the same living members. */
  ghost predicate KeptThroughout(d: Doc, zs: Zsets, zs': Zsets, id: string, li: nat, ri: nat, rows: set<string>)
    requires li < |d.ranges| && ri < |d.ranges|
  {
    && Partition(BegunMerge(d, li, ri)) && SameLiving(zs, d.ranges, zs, BegunMerge(d, li, ri), id, rows)
    && Partition(DrainedMerge(d, li, ri)) && SameLiving(zs, d.ranges, zs', DrainedMerge(d, li, ri), id, rows)
    && Partition(EndedMerge(d, li, ri)) && SameLiving(zs, d.ranges, zs', EndedMerge(d, li, ri), id, rows)
  }

  ghost predicate SafeMerge(d: Doc, id: string, li: nat, ri: nat)
    requires li < |d.ranges| && ri < |d.ranges|
  {
    forall zs: Zsets, zs': Zsets, rows: set<string> ::
      && RangesSound(d, zs, id)
      && PairMoved(zs, zs', id, d.ranges[li].idx, d.ranges[ri].idx, MergeTarget(d, li, ri).idx, rows) ==>
        KeptThroughout(d, zs, zs', id, li, ri, rows)
  }

  // ----- what the guard gives ---------------------------------------------------------------------------

  /** The stored buckets that a call may meet: it refuses a left one that is under split. */
  ghost predicate MayMerge(d: Doc, li: nat, ri: nat) {
    && li < |d.ranges| && ri < |d.ranges| && Stored(d.ranges, d.next) && IsRight(d.ranges, li, ri)
    && !InSplit(d.ranges[li])
  }

  lemma TargetIsNew(d: Doc, li: nat, ri: nat)
    requires MayMerge(d, li, ri)
    ensures var t := MergeTarget(d, li, ri);
            t.children == [] && t.idx <= d.next && t.idx != d.ranges[li].idx && t.idx != d.ranges[ri].idx
    ensures d.ranges[li].children != [] ==>
              && MergeTarget(d, li, ri) in d.ranges[li].children
              && d.ranges[li].children == [MergeTarget(d, li, ri), MergeTarget(d, li, ri)]
    ensures d.ranges[li].children == [] <==> Leaf(d.ranges[li])
  {
    hide Chain, Partition, IsRight, Spanned;
    var left := d.ranges[li];
    assert left in d.ranges && d.ranges[ri] in d.ranges && Proper(left);
    assert NewTo(left, left) && NewTo(d.ranges[ri], left);
    if left.children != [] {
      assert left.children[0] in left.children;
    }
  }

  /** The target spans both buckets, and a right bucket with scores in it has no other child. */
  lemma GuardSpans(d: Doc, li: nat, ri: nat)
    requires MayMerge(d, li, ri) && MergeGuard(d.ranges, li, ri)
    ensures var left, right, t := d.ranges[li], d.ranges[ri], MergeTarget(d, li, ri);
            && t.lo == left.lo && t.hi == right.hi && left.hi == right.lo
            && left.lo.LessEq(left.hi) && right.lo.LessEq(right.hi)
            && (right.lo != right.hi ==>
                  if left.children == [] then right.children == [] else right.children == left.children)
  {
    var left, right, t := d.ranges[li], d.ranges[ri], MergeTarget(d, li, ri);
    TargetIsNew(d, li, ri);
    ChainOrdered(d.ranges, NegInf, PosInf);
    assert left in d.ranges && right in d.ranges && Proper(left);
    if right.lo != right.hi && left.children != [] {
      var s := right.lo;
      hide Chain, Numbered;
      assert RangeContains(right, s) && RangeContains(t, s);
      assert MateFor(d.ranges, left, s);
      var y :| y in d.ranges && Mates(left, y) && RangeContains(y, s);
      OneAround(d.ranges, right, y, s);
    }
  }

  lemma OneAround(ranges: seq<RangeBucket>, x: RangeBucket, y: RangeBucket, s: Score)
    requires Partition(ranges) && x in ranges && y in ranges && RangeContains(x, s) && RangeContains(y, s)
    ensures x == y
  {
    ChainOrdered(ranges, NegInf, PosInf);
    hide Chain;
    ChainFinds(ranges, NegInf, PosInf, s);
  }

  /** A bucket mentions its own number and its children's. */
  predicate Names(x: RangeBucket, b: nat) { b == x.idx || exists c <- x.children :: c.idx == b }

  lemma ReadsName(y: RangeBucket, b: nat)
    requires b in BucketReads(y)
    ensures Names(y, b)
  {
  }

  lemma NamedIsMentioned(d: Doc, zs: Zsets, id: string, x: RangeBucket, b: nat, m: Member, s: Score)
    requires RangesSound(d, zs, id) && x in d.ranges && Names(x, b) && Has(zs, RK(id, b), m, s)
    ensures Held(zs, id, d.ranges, m, s)
  {
    hide Has, Partition, Numbered, OneScore, FreshEmpty, Spanned, Placed;
    assert HeldBy(zs, id, x, m, s);
    HeldIs(zs, id, d.ranges, m, s);
    hide Stored;
    InSight(d, zs, id, m, s);
  }

  /** Nothing that the new lists mention holds a living member that readers did not find before. */
  lemma NothingNew(d: Doc, zs: Zsets, zs': Zsets, id: string, li: nat, ri: nat, rows: set<string>, y: RangeBucket,
      b: nat, m: Member, s: Score)
    requires MayMerge(d, li, ri) && RangesSound(d, zs, id)
    requires zs' == zs || PairMoved(zs, zs', id, d.ranges[li].idx, d.ranges[ri].idx, MergeTarget(d, li, ri).idx, rows)
    requires b == MergeTarget(d, li, ri).idx || (y in d.ranges && Names(y, b))
    requires Has(zs', RK(id, b), m, s)
    ensures Held(zs, id, d.ranges, m, s)
  {
    hide Has, Names, Partition, Numbered, Placed, Spanned, IsRight;
    var left, right, t := d.ranges[li], d.ranges[ri], MergeTarget(d, li, ri);
    TargetIsNew(d, li, ri);
    assert left in d.ranges && right in d.ranges;
    assert Names(left, left.idx) && Names(right, right.idx) && (left.children != [] ==> Names(left, t.idx)) by {
      OwnNames(left, t);
      OwnNames(right, t);
    }
    if left.children == [] {
      FreshHasNothing(zs, id, d.next, d.next);
    }
    if zs' != zs {
      PairHas(zs, zs', id, left.idx, right.idx, t.idx, rows, b, m, s);
    }
    hide MergeTarget, Stored;
    if Has(zs, RK(id, b), m, s) {
      if y in d.ranges && Names(y, b) {
        NamedIsMentioned(d, zs, id, y, b, m, s);
      } else {
        NamedIsMentioned(d, zs, id, left, b, m, s);
      }
    } else if Has(zs, RK(id, left.idx), m, s) {
      NamedIsMentioned(d, zs, id, left, left.idx, m, s);
    } else {
      NamedIsMentioned(d, zs, id, right, right.idx, m, s);
    }
  }

  lemma OwnNames(x: RangeBucket, t: RangeBucket)
    ensures Names(x, x.idx) && (t in x.children ==> Names(x, t.idx))
  {
  }

  /** A bucket around the score and a number under it that holds the member. */
  lemma Witness(d: Doc, zs: Zsets, id: string, m: Member, s: Score) returns (x: RangeBucket, b: nat)
    requires RangesSound(d, zs, id) && Held(zs, id, d.ranges, m, s)
    ensures x in d.ranges && RangeContains(x, s) && Names(x, b) && b in BucketReads(x) && Has(zs, RK(id, b), m, s)
  {
    assert forall y <- d.ranges :: Proper(y);
    hide Has, Proper, BucketReads, RangesSound, ReadsOver;
    InSight(d, zs, id, m, s);
    HeldIs(zs, id, d.ranges, m, s);
    var w :| w in d.ranges && HeldBy(zs, id, w, m, s);
    x := AroundIt(d, zs, id, w, m, s);
    HeldReads(zs, id, x, m, s);
    b :| b in BucketReads(x) && Has(zs, RK(id, b), m, s);
    ReadsName(x, b);
  }

  lemma ReadHere(zs: Zsets, id: string, ranges: seq<RangeBucket>, y: RangeBucket, b: nat, m: Member, s: Score)
    requires y in ranges && RangeContains(y, s) && b in BucketReads(y) && Has(zs, RK(id, b), m, s)
    ensures Held(zs, id, ranges, m, s)
  {
    hide Has, BucketReads, ReadsOver;
    ReadsAt(ranges, s, s, b);
  }

  lemma ReadBy(zs: Zsets, id: string, ranges: seq<RangeBucket>, m: Member, s: Score) returns (y: RangeBucket, b: nat)
    requires Held(zs, id, ranges, m, s)
    ensures y in ranges && RangeOverlaps(y, s, s) && Names(y, b) && b in BucketReads(y) && Has(zs, RK(id, b), m, s)
  {
    hide Has, BucketReads, ReadsOver, RangeOverlaps;
    b :| b in ReadsOver(ranges, s, s) && Has(zs, RK(id, b), m, s);
    ReadsAt(ranges, s, s, b);
    y :| y in ranges && RangeOverlaps(y, s, s) && b in BucketReads(y);
    ReadsName(y, b);
  }

  // ----- each list in turn ---------------------------------------------------------------------------------

  /** A bucket that is neither of the two stays in every list, and its numbers are not theirs. */
  lemma OthersStay(d: Doc, li: nat, ri: nat, x: RangeBucket, b: nat)
    requires MayMerge(d, li, ri) && x in d.ranges && x != d.ranges[li] && x != d.ranges[ri]
    ensures x in BegunMerge(d, li, ri) && x in DrainedMerge(d, li, ri) && x in EndedMerge(d, li, ri)
    ensures Names(x, b) ==> b != d.ranges[li].idx && b != d.ranges[ri].idx
  {
    var left, right, t := d.ranges[li], d.ranges[ri], MergeTarget(d, li, ri);
    OneOfTwo(d.ranges, d.next, x, left, right);
    assert left in d.ranges && right in d.ranges && NewTo(left, x) && NewTo(right, x);
    hide Stored, Turned, AfterMerge, IsRight;
    TurnedHas(d.ranges, left.idx, right.idx, Merging, Some([t, t]), x);
    TurnedHas(BegunMerge(d, li, ri), left.idx, right.idx, MergeDrain, None, x);
    AfterMergeFrom(d.ranges, left.idx, right.idx, t, x);
  }

  /** One of the two, as the first two lists have it. */
  function OneBegun(d: Doc, li: nat, ri: nat, x: RangeBucket): RangeBucket
    requires li < |d.ranges| && ri < |d.ranges|
  {
    var t := MergeTarget(d, li, ri);
    if d.ranges[li].children == [] then x.(state := Merging, children := [t, t]) else x
  }

  lemma TwoTurn(d: Doc, li: nat, ri: nat, x: RangeBucket)
    requires MayMerge(d, li, ri) && (x == d.ranges[li] || x == d.ranges[ri])
    ensures OneBegun(d, li, ri, x) in BegunMerge(d, li, ri)
    ensures OneBegun(d, li, ri, x).(state := MergeDrain) in DrainedMerge(d, li, ri)
    ensures MergeTarget(d, li, ri) in EndedMerge(d, li, ri)
  {
    var left, right, t := d.ranges[li], d.ranges[ri], MergeTarget(d, li, ri);
    assert left in d.ranges && right in d.ranges;
    hide Stored, Turned, AfterMerge, IsRight;
    TurnedHas(d.ranges, left.idx, right.idx, Merging, Some([t, t]), x);
    TurnedHas(BegunMerge(d, li, ri), left.idx, right.idx, MergeDrain, None, OneBegun(d, li, ri, x));
    AfterMergeFrom(d.ranges, left.idx, right.idx, t, t);
  }

  /** What the lists mention was mentioned before, but for the target. */
  lemma MentionedBefore(d: Doc, li: nat, ri: nat, y: RangeBucket, b: nat) returns (x: RangeBucket)
    requires MayMerge(d, li, ri) && Names(y, b)
    requires y in BegunMerge(d, li, ri) || y in DrainedMerge(d, li, ri) || y in EndedMerge(d, li, ri)
    ensures b == MergeTarget(d, li, ri).idx || (x in d.ranges && Names(x, b))
  {
    var left, right, t := d.ranges[li], d.ranges[ri], MergeTarget(d, li, ri);
    TargetIsNew(d, li, ri);
    hide Stored, Turned, AfterMerge, IsRight;
    x := y;
    if y in EndedMerge(d, li, ri) {
      AfterMergeFrom(d.ranges, left.idx, right.idx, t, y);
    } else {
      var z := y;
      if y !in BegunMerge(d, li, ri) {
        z := TurnedFrom(BegunMerge(d, li, ri), left.idx, right.idx, MergeDrain, None, y);
      }
      x := z;
      if left.children == [] {
        x := TurnedFrom(d.ranges, left.idx, right.idx, Merging, Some([t, t]), z);
      }
    }
  }

  lemma NotLost(d: Doc, zs: Zsets, zs': Zsets, id: string, li: nat, ri: nat, rows: set<string>,
      ranges: seq<RangeBucket>, m: Member, s: Score)
    requires MayMerge(d, li, ri) && RangesSound(d, zs, id) && m.pk in rows
    requires zs' == zs || PairMoved(zs, zs', id, d.ranges[li].idx, d.ranges[ri].idx, MergeTarget(d, li, ri).idx, rows)
    requires ranges == BegunMerge(d, li, ri) || ranges == DrainedMerge(d, li, ri) || ranges == EndedMerge(d, li, ri)
    ensures Held(zs', id, ranges, m, s) ==> Held(zs, id, d.ranges, m, s)
  {
    if Held(zs', id, ranges, m, s) {
      hide Has, Names, Held, MayMerge, RangesSound, BegunMerge, DrainedMerge, EndedMerge;
      var y, b := ReadBy(zs', id, ranges, m, s);
      var x := MentionedBefore(d, li, ri, y, b);
      NothingNew(d, zs, zs', id, li, ri, rows, x, b, m, s);
    }
  }

  /** While the merge starts. */
  lemma BegunKeeps(d: Doc, zs: Zsets, id: string, li: nat, ri: nat, rows: set<string>, m: Member, s: Score)
    requires MayMerge(d, li, ri) && MergeGuard(d.ranges, li, ri) && RangesSound(d, zs, id)
    requires m.pk in rows && Held(zs, id, d.ranges, m, s)
    ensures Held(zs, id, BegunMerge(d, li, ri), m, s)
  {
    var left, right := d.ranges[li], d.ranges[ri];
    if left.children == [] {
      GuardSpans(d, li, ri);
      hide Has, Names, Held, RangesSound, Stored, IsRight, MergeGuard, BucketReads, MergeTarget, BegunMerge,
           DrainedMerge, EndedMerge;
      var x, b := Witness(d, zs, id, m, s);
      if x == left || x == right {
        TwoTurn(d, li, ri, x);
        assert x.children == [] by { NotEmptyAt(x, s); }
        assert b == x.idx by { NoKids(x, b); }
        OwnIsRead(OneBegun(d, li, ri, x));
        ReadHere(zs, id, BegunMerge(d, li, ri), OneBegun(d, li, ri, x), b, m, s);
      } else {
        OthersStay(d, li, ri, x, b);
        ReadHere(zs, id, BegunMerge(d, li, ri), x, b, m, s);
      }
    }
  }

  lemma NotEmptyAt(x: RangeBucket, s: Score)
    requires RangeContains(x, s)
    ensures x.lo != x.hi
  {
  }

  lemma NoKids(x: RangeBucket, b: nat)
    requires Names(x, b)
    ensures x.children == [] ==> b == x.idx
    ensures |x.children| == 2 && x.children[0] == x.children[1] ==> b == x.idx || b == x.children[0].idx
  {
  }

  /** After the passes: what was in one of the two is in the target, all else where it was. */
  lemma WitnessMoved(d: Doc, zs: Zsets, zs': Zsets, id: string, li: nat, ri: nat, rows: set<string>, m: Member,
      s: Score)
      returns (x: RangeBucket, b: nat)
    requires MayMerge(d, li, ri) && MergeGuard(d.ranges, li, ri) && RangesSound(d, zs, id)
    requires PairMoved(zs, zs', id, d.ranges[li].idx, d.ranges[ri].idx, MergeTarget(d, li, ri).idx, rows)
    requires m.pk in rows && Held(zs, id, d.ranges, m, s)
    ensures x in d.ranges && RangeContains(x, s) && Has(zs', RK(id, b), m, s)
    ensures if x == d.ranges[li] || x == d.ranges[ri] then b == MergeTarget(d, li, ri).idx
        else Names(x, b) && b in BucketReads(x)
  {
    var left, right, t := d.ranges[li], d.ranges[ri], MergeTarget(d, li, ri);
    GuardSpans(d, li, ri);
    TargetIsNew(d, li, ri);
    assert OneScore(zs, id);
    hide Has, Names, Held, RangesSound, OneScore, Stored, IsRight, MergeGuard, BucketReads, MergeTarget, PairMoved;
    x, b := Witness(d, zs, id, m, s);
    PairHas(zs, zs', id, left.idx, right.idx, t.idx, rows, b, m, s);
    if x == left || x == right {
      NotEmptyAt(x, s);
      NoKids(x, b);
      PairHas(zs, zs', id, left.idx, right.idx, t.idx, rows, t.idx, m, s);
      b := t.idx;
    } else {
      OthersStay(d, li, ri, x, b);
    }
  }

  lemma DrainedKeeps(d: Doc, zs: Zsets, zs': Zsets, id: string, li: nat, ri: nat, rows: set<string>, m: Member,
      s: Score)
    requires MayMerge(d, li, ri) && MergeGuard(d.ranges, li, ri) && RangesSound(d, zs, id)
    requires PairMoved(zs, zs', id, d.ranges[li].idx, d.ranges[ri].idx, MergeTarget(d, li, ri).idx, rows)
    requires m.pk in rows && Held(zs, id, d.ranges, m, s)
    ensures Held(zs', id, DrainedMerge(d, li, ri), m, s)
  {
    var left, right, t := d.ranges[li], d.ranges[ri], MergeTarget(d, li, ri);
    GuardSpans(d, li, ri);
    TargetIsNew(d, li, ri);
    hide Has, Names, Held, RangesSound, Stored, IsRight, MergeGuard, MergeTarget, BegunMerge, DrainedMerge, EndedMerge,
         PairMoved;
    var x, b := WitnessMoved(d, zs, zs', id, li, ri, rows, m, s);
    if x == left || x == right {
      NotEmptyAt(x, s);
      TwoTurn(d, li, ri, x);
      var y := OneBegun(d, li, ri, x).(state := MergeDrain);
      assert y.children == [t, t];
      assert b in BucketReads(y) by { assert BucketReads(y)[1] == t.idx; }
      ReadHere(zs', id, DrainedMerge(d, li, ri), y, b, m, s);
    } else {
      OthersStay(d, li, ri, x, b);
      ReadHere(zs', id, DrainedMerge(d, li, ri), x, b, m, s);
    }
  }

  lemma EndedKeeps(d: Doc, zs: Zsets, zs': Zsets, id: string, li: nat, ri: nat, rows: set<string>, m: Member, s: Score)
    requires MayMerge(d, li, ri) && MergeGuard(d.ranges, li, ri) && RangesSound(d, zs, id)
    requires PairMoved(zs, zs', id, d.ranges[li].idx, d.ranges[ri].idx, MergeTarget(d, li, ri).idx, rows)
    requires m.pk in rows && Held(zs, id, d.ranges, m, s)
    ensures Held(zs', id, EndedMerge(d, li, ri), m, s)
  {
    var left, right, t := d.ranges[li], d.ranges[ri], MergeTarget(d, li, ri);
    GuardSpans(d, li, ri);
    TargetIsNew(d, li, ri);
    hide Has, Names, Held, RangesSound, Stored, IsRight, MergeGuard, MergeTarget, BegunMerge, DrainedMerge, EndedMerge,
         PairMoved;
    var x, b := WitnessMoved(d, zs, zs', id, li, ri, rows, m, s);
    if x == left || x == right {
      TwoTurn(d, li, ri, x);
      assert RangeContains(t, s) by { SpansBoth(left, right, t, x, s); }
      OwnIsRead(t);
      ReadHere(zs', id, EndedMerge(d, li, ri), t, b, m, s);
    } else {
      OthersStay(d, li, ri, x, b);
      ReadHere(zs', id, EndedMerge(d, li, ri), x, b, m, s);
    }
  }

  lemma SpansBoth(left: RangeBucket, right: RangeBucket, t: RangeBucket, x: RangeBucket, s: Score)
    requires t.lo == left.lo && t.hi == right.hi && left.hi == right.lo && left.lo.LessEq(left.hi)
    requires right.lo.LessEq(right.hi)
    requires (x == left || x == right) && RangeContains(x, s)
    ensures RangeContains(t, s)
  {
  }

  /** With the guard, readers find the same living members under each list that the call stores. */
  lemma GuardKeeps(d: Doc, zs: Zsets, zs': Zsets, id: string, li: nat, ri: nat, rows: set<string>)
    requires MayMerge(d, li, ri) && MergeGuard(d.ranges, li, ri) && RangesSound(d, zs, id)
    requires PairMoved(zs, zs', id, d.ranges[li].idx, d.ranges[ri].idx, MergeTarget(d, li, ri).idx, rows)
    ensures KeptThroughout(d, zs, zs', id, li, ri, rows)
  {
    GuardSpans(d, li, ri);
    ListsPartition(d, li, ri);
    hide Has, Held, RangesSound, MayMerge, MergeGuard, MergeTarget, BegunMerge, DrainedMerge, EndedMerge, PairMoved,
         Partition;
    forall m: Member, s: Score | m.pk in rows
      ensures Held(zs, id, d.ranges, m, s) <==> Held(zs, id, BegunMerge(d, li, ri), m, s)
      ensures Held(zs, id, d.ranges, m, s) <==> Held(zs', id, DrainedMerge(d, li, ri), m, s)
      ensures Held(zs, id, d.ranges, m, s) <==> Held(zs', id, EndedMerge(d, li, ri), m, s)
    {
      NotLost(d, zs, zs, id, li, ri, rows, BegunMerge(d, li, ri), m, s);
      NotLost(d, zs, zs', id, li, ri, rows, DrainedMerge(d, li, ri), m, s);
      NotLost(d, zs, zs', id, li, ri, rows, EndedMerge(d, li, ri), m, s);
      if Held(zs, id, d.ranges, m, s) {
        BegunKeeps(d, zs, id, li, ri, rows, m, s);
        DrainedKeeps(d, zs, zs', id, li, ri, rows, m, s);
        EndedKeeps(d, zs, zs', id, li, ri, rows, m, s);
      }
    }
  }

  lemma ListsPartition(d: Doc, li: nat, ri: nat)
    requires MayMerge(d, li, ri)
    ensures Partition(BegunMerge(d, li, ri)) && Partition(DrainedMerge(d, li, ri))
    ensures Partition(EndedMerge(d, li, ri))
            <==> MergeTarget(d, li, ri).lo == d.ranges[li].lo && MergeTarget(d, li, ri).hi == d.ranges[ri].hi
  {
    hide Chain, Partition, Numbered, Turned, AfterMerge, Spanned;
    var left, right, t := d.ranges[li], d.ranges[ri], MergeTarget(d, li, ri);
    TurnedPartition(d.ranges, left.idx, right.idx, Merging, Some([t, t]));
    TurnedPartition(BegunMerge(d, li, ri), left.idx, right.idx, MergeDrain, None);
    assert DistinctIdx(d.ranges) by { NumberedApart(d); }
    MergeKeepsPartition(d.ranges, li, ri, t);
  }

  lemma NumberedApart(d: Doc)
    requires Numbered(d.ranges, d.next)
    ensures DistinctIdx(d.ranges)
  {
  }

  // ----- what happens without it ------------------------------------------------------------------------------

  /** A score strictly between two others. */
  lemma Inner(lo: Score, hi: Score) returns (s: Score)
    requires lo.Less(hi)
    ensures lo.Less(s) && s.Less(hi)
  {
    match (lo, hi) {
      case (NegInf, Fin(b)) => s := Fin(b - 1.0);
      case (NegInf, PosInf) => s := Fin(0.0);
      case (Fin(a), Fin(b)) => s := Fin((a + b) / 2.0);
      case (Fin(a), PosInf) => s := Fin(a + 1.0);
      case _ =>
    }
  }

  /** Around a score strictly inside one bucket there is no other. */
  lemma OnlyAround(ranges: seq<RangeBucket>, x: RangeBucket, y: RangeBucket, s: Score)
    requires Partition(ranges) && x in ranges && y in ranges && x.lo.Less(s) && s.Less(x.hi) && RangeOverlaps(y, s, s)
    ensures x == y
  {
    hide Chain;
    ChainLinks(ranges, NegInf, PosInf);
    var i :| 0 <= i < |ranges| && ranges[i] == x;
    var j :| 0 <= j < |ranges| && ranges[j] == y;
    if j < i {
      Precedes(ranges, j, i);
    } else if i < j {
      Precedes(ranges, i, j);
    }
  }

  lemma Precedes(ranges: seq<RangeBucket>, i: nat, j: nat)
    requires Links(ranges, NegInf, PosInf) && i < j < |ranges|
    ensures ranges[i].hi.LessEq(ranges[j].lo)
  {
    EndsOrdered(ranges, NegInf, PosInf, i, j - 1);
    assert ranges[j - 1].hi == ranges[j].lo;
  }

  lemma SoleMember(d: Doc, zs: Zsets, id: string, x: RangeBucket, c: RangeBucket, mem: Member, s: Score)
    requires Stored(d.ranges, d.next) && x in d.ranges && c in x.children && RangeContains(c, s)
    requires zs == map[RK(id, c.idx) := map[mem := s]]
    ensures RangesSound(d, zs, id) && Held(zs, id, d.ranges, mem, s)
    ensures forall b: nat, m: Member, t: Score :: Has(zs, RK(id, b), m, t) <==> b == c.idx && m == mem && t == s
  {
    assert forall b: nat, m: Member, t: Score :: Has(zs, RK(id, b), m, t) <==> b == c.idx && m == mem && t == s;
    hide Has, RangeContains, Partition, Spanned;
    forall y | y in d.ranges ensures Inside(zs, id, y) && forall e <- y.children :: Inside(zs, id, e) {
      assert NewTo(y, x) && Apart(x, y);
      forall e | e in y.children && e.idx == c.idx ensures e == c {
        SameChild(x, c, y, e);
      }
    }
    assert c.idx < d.next && Proper(x);
    hide Stored, Placed, OneScore;
    NamedIsMentioned(d, zs, id, x, c.idx, mem, s);
  }

  /** A right bucket with scores in it that is not idle has a child around one of them. */
  lemma ChildAround(right: RangeBucket) returns (c: RangeBucket, s: Score)
    requires Proper(right) && !Leaf(right) && right.lo.Less(right.hi)
    ensures c in right.children && RangeContains(c, s) && right.lo.Less(s) && s.Less(right.hi)
  {
    s := Inner(right.lo, right.hi);
    if InSplit(right) {
      ChainLinks(right.children, right.lo, right.hi);
      assert right.children[0].hi == right.children[1].lo;
      c := if s.Less(right.children[0].hi) then right.children[0] else right.children[1];
    } else {
      c := right.children[0];
    }
  }

  /** Once the merge has started, a read strictly inside the right bucket misses its former children. */
  lemma ChildHidden(d: Doc, id: string, li: nat, ri: nat, c: RangeBucket, m: Member, s: Score) returns (zs: Zsets)
    requires MayMerge(d, li, ri) && d.ranges[li].children == []
    requires c in d.ranges[ri].children && RangeContains(c, s) && d.ranges[ri].lo.Less(s) && s.Less(d.ranges[ri].hi)
    ensures RangesSound(d, zs, id) && Has(zs, RK(id, c.idx), m, s) && Held(zs, id, d.ranges, m, s)
    ensures c.idx !in ReadsOver(BegunMerge(d, li, ri), s, s) && !Held(zs, id, BegunMerge(d, li, ri), m, s)
  {
    var left, right, t := d.ranges[li], d.ranges[ri], MergeTarget(d, li, ri);
    assert left in d.ranges && right in d.ranges;
    zs := map[RK(id, c.idx) := map[m := s]];
    SoleMember(d, zs, id, right, c, m, s);
    assert c.idx < d.next && NewTo(right, right);
    hide Has, Names, Chain, Proper, Numbered, Spanned, RangesSound, IsRight, Turned, BucketReads;
    ReadsAt(BegunMerge(d, li, ri), s, s, c.idx);
    if y :| y in BegunMerge(d, li, ri) && RangeOverlaps(y, s, s) && c.idx in BucketReads(y) {
      var x := TurnedFrom(d.ranges, left.idx, right.idx, Merging, Some([t, t]), y);
      assert RangeOverlaps(x, s, s);
      OnlyAround(d.ranges, right, x, s);
      ReadsName(y, c.idx);
      NoKids(y, c.idx);
      assert false;
    }
  }

  /** Started over a right bucket that is under split or merge, the call hides what its child holds. */
  lemma StartLoses(d: Doc, id: string, li: nat, ri: nat) returns (zs: Zsets, m: Member, s: Score)
    requires MayMerge(d, li, ri) && d.ranges[li].children == [] && !MergeGuard(d.ranges, li, ri)
    ensures RangesSound(d, zs, id) && Held(zs, id, d.ranges, m, s) && !Held(zs, id, BegunMerge(d, li, ri), m, s)
  {
    assert d.ranges[ri] in d.ranges && Proper(d.ranges[ri]);
    ChainOrdered(d.ranges, NegInf, PosInf);
    hide Proper, Numbered, Spanned, RangesSound, Held;
    var c;
    c, s := ChildAround(d.ranges[ri]);
    m := Plain("p", 1);
    zs := ChildHidden(d, id, li, ri, c, m, s);
  }

  lemma NothingAtAll(d: Doc, id: string, li: nat, ri: nat, rows: set<string>)
    requires MayMerge(d, li, ri)
    ensures RangesSound(d, map[], id)
    ensures PairMoved(map[], map[], id, d.ranges[li].idx, d.ranges[ri].idx, MergeTarget(d, li, ri).idx, rows)
  {
    hide Stored, IsRight;
    NoneLiving(rows);
    SameTwice(map[], map[]);
    assert forall k: Key :: At(map[], k) == map[];
  }

  /** Where the members of the two buckets go. */
  function AfterPasses(zs: Zsets, id: string, l: nat, r: nat, t: nat, rows: set<string>): Zsets {
    zs[RK(id, t) := At(zs, RK(id, t)) + Living(At(zs, RK(id, l)), rows) + Living(At(zs, RK(id, r)), rows)]
      [RK(id, l) := map[]][RK(id, r) := map[]]
  }

  lemma PassesExist(zs: Zsets, id: string, l: nat, r: nat, t: nat, rows: set<string>)
    requires t != l && t != r
    ensures PairMoved(zs, AfterPasses(zs, id, l, r, t, rows), id, l, r, t, rows)
  {
  }

  /**
   * Over every state of the two buckets that the controller does not refuse, starting a merge
   * or taking one up again keeps the partition and every living member readable, for all
   * contents, exactly when the guard on the two stored buckets holds.
   */
  lemma MergeIsSafeIff(d: Doc, id: string, li: nat, ri: nat)
    requires MayMerge(d, li, ri)
    ensures SafeMerge(d, id, li, ri) <==> MergeGuard(d.ranges, li, ri)
  {
    var l, r, t := d.ranges[li].idx, d.ranges[ri].idx, MergeTarget(d, li, ri).idx;
    TargetIsNew(d, li, ri);
    hide MayMerge, MergeGuard, MergeTarget, BegunMerge, DrainedMerge, EndedMerge, PairMoved, RangesSound, SameLiving,
         Partition, Held;
    if MergeGuard(d.ranges, li, ri) {
      forall zs: Zsets, zs': Zsets, rows: set<string> | RangesSound(d, zs, id) && PairMoved(zs, zs', id, l, r, t, rows)
        ensures KeptThroughout(d, zs, zs', id, li, ri, rows)
      {
        GuardKeeps(d, zs, zs', id, li, ri, rows);
      }
    } else if d.ranges[li].children == [] {
      var zs, m, s := StartLoses(d, id, li, ri);
      PassesExist(zs, id, l, r, t, {m.pk});
      Differs(zs, d.ranges, zs, BegunMerge(d, li, ri), id, m, s);
      assert !KeptThroughout(d, zs, AfterPasses(zs, id, l, r, t, {m.pk}), id, li, ri, {m.pk});
    } else {
      NothingAtAll(d, id, li, ri, {});
      EndIsPartition(d, li, ri);
      assert !KeptThroughout(d, map[], map[], id, li, ri, {});
    }
  }

  lemma Differs(zs: Zsets, a: seq<RangeBucket>, zs': Zsets, b: seq<RangeBucket>, id: string, m: Member, s: Score)
    requires Held(zs, id, a, m, s) && !Held(zs', id, b, m, s)
    ensures !SameLiving(zs, a, zs', b, id, {m.pk})
  {
    hide Held;
  }

  /** Taken up again where the bucket under way does not span the two, the call leaves no partition. */
  lemma EndIsPartition(d: Doc, li: nat, ri: nat)
    requires MayMerge(d, li, ri)
    ensures d.ranges[li].children != [] ==> (Partition(EndedMerge(d, li, ri)) <==> MergeGuard(d.ranges, li, ri))
  {
    ListsPartition(d, li, ri);
  }

  /**
   * So the right half of a merge is not where one can be taken up again: if the left half has
   * any score in it, the list that results is no partition.
   */
  lemma RightHalfBreaks(d: Doc, p: nat, li: nat, ri: nat)
    requires MayMerge(d, li, ri) && p < li && Halves(d.ranges, p, li)
    ensures d.ranges[p].lo != d.ranges[p].hi ==> !Partition(EndedMerge(d, li, ri))
  {
    hide Proper, Numbered, Spanned, IsRight, EndedMerge, Links, InSplit, InMerge;
    EndIsPartition(d, li, ri);
    hide Chain;
    ChainOrdered(d.ranges, NegInf, PosInf);
    ChainLinks(d.ranges, NegInf, PosInf);
    assert d.ranges[p] in d.ranges;
    Precedes(d.ranges, p, li);
    NotBelow(d.ranges[p], d.ranges[li]);
  }

  lemma NotBelow(x: RangeBucket, y: RangeBucket)
    requires x.lo.LessEq(x.hi) && x.hi.LessEq(y.lo)
    ensures x.lo == y.lo ==> x.lo == x.hi
  {
  }

  // ----- a merge over the left half of another one ---------------------------------------------------------------

  /** Bucket 1 is idle; buckets 2 and 3 are being merged into bucket 8, where the controller stopped. */
  function Interrupted(): Doc {
    var m := RangeBucket(8, Fin(5.0), PosInf, Active, []);
    Doc(0, 9, map[], [
      RangeBucket(1, NegInf, Fin(5.0), Active, []),
      RangeBucket(2, Fin(5.0), Fin(9.0), Merging, [m, m]),
      RangeBucket(3, Fin(9.0), PosInf, Merging, [m, m])])
  }

  lemma InterruptedIsStored()
    ensures var d := Interrupted(); Stored(d.ranges, d.next) && MayMerge(d, 0, 1) && Halves(d.ranges, 1, 2)
  {
    var d := Interrupted();
    var a, b, c := d.ranges[0], d.ranges[1], d.ranges[2];
    ThreeInARow(a, b, c);
    assert Leaf(a) && Proper(a) && Proper(b) && Proper(c) && Mates(b, c) && !InMerge(a);
    hide Chain, Proper;
    InterruptedSpanned(a, b, c, b.children[0]);
    InterruptedNumbered(a, b, c, b.children[0]);
  }

  lemma InterruptedSpanned(a: RangeBucket, b: RangeBucket, c: RangeBucket, m: RangeBucket)
    requires Leaf(a) && Mates(b, c) && b.children == [m, m] && b.lo == m.lo && b.hi == c.lo && c.hi == m.hi
    ensures Spanned([a, b, c])
  {
    forall x, s: Score | x in [a, b, c] && InMerge(x) && x.children != [] && RangeContains(x.children[0], s)
      ensures MateFor([a, b, c], x, s)
    {
      assert x == b || x == c;
      assert RangeContains(b, s) || RangeContains(c, s);
      assert b in [a, b, c] && c in [a, b, c];
    }
  }

  lemma InterruptedNumbered(a: RangeBucket, b: RangeBucket, c: RangeBucket, m: RangeBucket)
    requires Leaf(a) && Mates(b, c) && b.children == [m, m] && a.idx == 1 && b.idx == 2 && c.idx == 3 && m.idx == 8
    ensures Numbered([a, b, c], 9) && forall x <- [a, b, c] :: x == a || x == b || x == c
  {
    assert forall x <- [a, b, c] :: x == a || x == b || x == c;
    assert a.children == [] && !InMerge(a);
    hide Leaf, InMerge;
    assert forall y :: !Mates(a, y) && !Mates(y, a);
  }

  /**
   * A member of bucket 8 at score 7 is read through bucket 2; once a merge of buckets 1 and 2
   * has started, a read at 7 visits bucket 8 no more.
   */
  lemma MergeOverMergeLoses(id: string) returns (zs: Zsets, m: Member)
    ensures var d := Interrupted();
            && MayMerge(d, 0, 1) && Halves(d.ranges, 1, 2) && !MergeGuard(d.ranges, 0, 1) && RangesSound(d, zs, id)
            && Has(zs, RK(id, 8), m, Fin(7.0)) && Held(zs, id, d.ranges, m, Fin(7.0))
            && 8 !in ReadsOver(BegunMerge(d, 0, 1), Fin(7.0), Fin(7.0))
            && !Held(zs, id, BegunMerge(d, 0, 1), m, Fin(7.0))
  {
    InterruptedIsStored();
    hide Has, Stored, RangesSound, Held, BegunMerge, ReadsOver;
    m := Plain("p", 1);
    zs := ChildHidden(Interrupted(), id, 0, 1, Interrupted().ranges[1].children[0], m, Fin(7.0));
  }
}
