/**
 * The list of score intervals of a range index while buckets are split and merged: what a
 * stored list looks like, and how the two protocols rewrite it.
 */
module RangeShape {
  import opened Wrappers
  import opened BucketMap

  // ----- intervals in a row -------------------------------------------------------------------

  lemma LessEqTrans(a: Score, b: Score, c: Score)
    requires a.LessEq(b) && b.LessEq(c)
    ensures a.LessEq(c) && (a == c ==> a == b)
  {
  }

  /** A chain, told by positions. */
  ghost predicate Links(ranges: seq<RangeBucket>, lo: Score, hi: Score) {
    && (ranges == [] ==> lo == hi)
    && (ranges != [] ==> ranges[0].lo == lo && ranges[|ranges| - 1].hi == hi)
    && (forall i :: 0 <= i < |ranges| ==> ranges[i].lo.LessEq(ranges[i].hi))
    && (forall i, j :: 0 <= i < |ranges| && j == i + 1 < |ranges| ==> ranges[i].hi == ranges[j].lo)
  }

  lemma {:induction false} ChainLinks(ranges: seq<RangeBucket>, lo: Score, hi: Score)
    ensures Chain(ranges, lo, hi) <==> Links(ranges, lo, hi)
  {
    if ranges != [] {
      var rest := ranges[1..];
      ChainLinks(rest, ranges[0].hi, hi);
      if Links(rest, ranges[0].hi, hi) && ranges[0].lo == lo && lo.LessEq(ranges[0].hi) {
        forall i, j | 0 <= i < |ranges| && j == i + 1 < |ranges| ensures ranges[i].hi == ranges[j].lo {
          assert rest[j - 1] == ranges[j];
          if i > 0 { assert rest[i - 1] == ranges[i]; }
        }
        forall i | 0 <= i < |ranges| ensures ranges[i].lo.LessEq(ranges[i].hi) {
          if i > 0 { assert rest[i - 1] == ranges[i]; }
        }
      }
      if Links(ranges, lo, hi) {
        forall i, j | 0 <= i < |rest| && j == i + 1 < |rest| ensures rest[i].hi == rest[j].lo {
          assert rest[i] == ranges[i + 1] && rest[j] == ranges[j + 1];
        }
        assert forall i :: 0 <= i < |rest| ==> rest[i] == ranges[i + 1];
      }
    }
  }

  lemma {:induction false} LinksOrdered(ranges: seq<RangeBucket>, lo: Score, hi: Score, i: nat, j: nat)
    requires Links(ranges, lo, hi) && i <= j < |ranges|
    ensures ranges[i].lo.LessEq(ranges[j].lo) && ranges[i].lo.LessEq(ranges[j].hi)
    decreases j
  {
    if i < j {
      LinksOrdered(ranges, lo, hi, i, j - 1);
      assert ranges[j - 1].hi == ranges[j].lo;
    }
    LessEqTrans(ranges[i].lo, ranges[j].lo, ranges[j].hi);
  }

  // ----- lists as they are stored ---------------------------------------------------------------

  predicate Leaf(c: RangeBucket) { c.state.Active? && c.children == [] }

  predicate InSplit(rb: RangeBucket) { rb.state in {Splitting, Draining} }
  predicate InMerge(rb: RangeBucket) { rb.state in {Merging, MergeDrain} }

  /** Two adjoining children to split into, or twice the one bucket to merge into. */
  predicate Proper(rb: RangeBucket) {
    if InSplit(rb) then
      && |rb.children| == 2 && Leaf(rb.children[0]) && Leaf(rb.children[1]) && rb.children[0].idx != rb.children[1].idx
      && Chain(rb.children, rb.lo, rb.hi)
    else if InMerge(rb) then
      && |rb.children| == 2 && Leaf(rb.children[0]) && rb.children[0] == rb.children[1]
      && rb.children[0].lo.LessEq(rb.lo) && rb.hi.LessEq(rb.children[0].hi)
    else
      Leaf(rb)
  }

  predicate Mates(a: RangeBucket, b: RangeBucket) { InMerge(a) && InMerge(b) && a.children == b.children }

  predicate DistinctIdx(ranges: seq<RangeBucket>) {
    forall i, j :: 0 <= i < j < |ranges| ==> ranges[i].idx != ranges[j].idx
  }

  predicate Allocated(ranges: seq<RangeBucket>, next: nat) {
    forall x <- ranges :: x.idx < next && forall c <- x.children :: c.idx < next
  }

  predicate NewTo(x: RangeBucket, y: RangeBucket) { forall c <- y.children :: c.idx != x.idx }

  predicate ChildrenNew(ranges: seq<RangeBucket>) { forall x <- ranges, y <- ranges :: NewTo(x, y) }

  /** Only the two halves of a merge share a child. */
  predicate Apart(x: RangeBucket, y: RangeBucket) {
    forall c <- x.children, d <- y.children :: c.idx == d.idx ==> x == y || Mates(x, y)
  }

  predicate ChildrenApart(ranges: seq<RangeBucket>) { forall x <- ranges, y <- ranges :: Apart(x, y) }

  predicate OnlyPairs(ranges: seq<RangeBucket>) {
    forall x <- ranges, y <- ranges, z <- ranges :: Mates(x, y) && Mates(y, z) ==> x == y || y == z || x == z
  }

  predicate Numbered(ranges: seq<RangeBucket>, next: nat) {
    DistinctIdx(ranges) && Allocated(ranges, next) && ChildrenNew(ranges) && ChildrenApart(ranges) && OnlyPairs(ranges)
  }

  /** Every score of a merge's bucket lies in one of the halves that are merged into it. */
  ghost predicate Spanned(ranges: seq<RangeBucket>) {
    forall x <- ranges, s: Score ::
      InMerge(x) && x.children != [] && RangeContains(x.children[0], s) ==> MateFor(ranges, x, s)
  }

  ghost predicate MateFor(ranges: seq<RangeBucket>, x: RangeBucket, s: Score) {
    exists y <- ranges :: Mates(x, y) && RangeContains(y, s)
  }

  ghost predicate Stored(ranges: seq<RangeBucket>, next: nat) {
    && Partition(ranges) && Numbered(ranges, next) && Spanned(ranges) && forall x <- ranges :: Proper(x)
  }

  // ----- rewriting the list -----------------------------------------------------------------------

  /** The bucket numbered `idx` gives way to the list `by`. */
  function Replaced(ranges: seq<RangeBucket>, idx: nat, parts: seq<RangeBucket>): seq<RangeBucket> {
    if ranges == [] then []
    else (if ranges[0].idx == idx then parts else [ranges[0]]) + Replaced(ranges[1..], idx, parts)
  }

  lemma {:induction false} ReplacedNone(ranges: seq<RangeBucket>, idx: nat, parts: seq<RangeBucket>)
    requires forall x <- ranges :: x.idx != idx
    ensures Replaced(ranges, idx, parts) == ranges
  {
    if ranges != [] {
      ReplacedNone(ranges[1..], idx, parts);
    }
  }

  lemma {:induction false} ReplacedAt(ranges: seq<RangeBucket>, p: nat, parts: seq<RangeBucket>)
    requires p < |ranges| && DistinctIdx(ranges)
    ensures Replaced(ranges, ranges[p].idx, parts) == ranges[..p] + parts + ranges[p + 1..]
  {
    var idx := ranges[p].idx;
    if p == 0 {
      ReplacedNone(ranges[1..], idx, parts);
    } else {
      ReplacedAt(ranges[1..], p - 1, parts);
      hide Replaced;
      var rest := ranges[1..];
      assert rest[p..] == ranges[p + 1..];
      assert [ranges[0]] + rest[..p - 1] == ranges[..p];
      assert [ranges[0]] + (rest[..p - 1] + parts + rest[p..]) == ([ranges[0]] + rest[..p - 1]) + parts + rest[p..];
      ReplacedHead(ranges, idx, parts);
    }
  }

  lemma ReplacedHead(ranges: seq<RangeBucket>, idx: nat, parts: seq<RangeBucket>)
    requires ranges != []
    ensures Replaced(ranges, idx, parts)
            == (if ranges[0].idx == idx then parts else [ranges[0]]) + Replaced(ranges[1..], idx, parts)
  {
  }

  lemma {:induction false} ChainParts(ranges: seq<RangeBucket>, p: nat, lo: Score, hi: Score)
    requires p < |ranges| && Chain(ranges, lo, hi)
    ensures Chain(ranges[..p], lo, ranges[p].lo) && ranges[p].lo.LessEq(ranges[p].hi)
    ensures Chain(ranges[p + 1..], ranges[p].hi, hi)
  {
    if p > 0 {
      ChainParts(ranges[1..], p - 1, ranges[0].hi, hi);
      assert ranges[..p][1..] == ranges[1..][..p - 1];
      assert ranges[1..][p..] == ranges[p + 1..];
    }
  }

  /** Covering the same interval with other buckets keeps the partition. */
  lemma ReplaceKeepsPartition(ranges: seq<RangeBucket>, p: nat, parts: seq<RangeBucket>)
    requires Partition(ranges) && p < |ranges| && parts != [] && Chain(parts, ranges[p].lo, ranges[p].hi)
    ensures Partition(ranges[..p] + parts + ranges[p + 1..])
  {
    ChainParts(ranges, p, NegInf, PosInf);
    ChainAppend(ranges[..p], parts, NegInf, ranges[p].lo, ranges[p].hi);
    ChainAppend(ranges[..p] + parts, ranges[p + 1..], NegInf, ranges[p].hi, PosInf);
  }

  /** The first bucket that starts where bucket `li` ends. */
  ghost predicate IsRight(ranges: seq<RangeBucket>, li: nat, ri: nat) {
    && li < |ranges| && ri < |ranges| && ranges[ri].lo == ranges[li].hi
    && forall i :: 0 <= i < ri ==> ranges[i].lo != ranges[li].hi
  }

  /** That is the neighbour, unless bucket `li` is empty: then it and all before it up to `ri` are. */
  lemma RightIs(ranges: seq<RangeBucket>, li: nat, ri: nat)
    requires Partition(ranges) && IsRight(ranges, li, ri)
    ensures ri <= li + 1
    ensures ri <= li ==> forall i :: ri <= i <= li ==> ranges[i].lo == ranges[li].hi && ranges[i].hi == ranges[li].hi
  {
    hide Chain;
    ChainLinks(ranges, NegInf, PosInf);
    if li + 1 < |ranges| {
      assert ranges[li].hi == ranges[li + 1].lo;
    }
    if ri <= li {
      forall i | ri <= i <= li ensures ranges[i].lo == ranges[li].hi && ranges[i].hi == ranges[li].hi {
        LinksOrdered(ranges, NegInf, PosInf, ri, i);
        LinksOrdered(ranges, NegInf, PosInf, i, li);
        LessEqTrans(ranges[ri].lo, ranges[i].lo, ranges[li].hi);
        LessEqTrans(ranges[i].lo, ranges[i].hi, ranges[li].hi) by { EndsOrdered(ranges, NegInf, PosInf, i, li); }
      }
    }
  }

  lemma EndsOrdered(ranges: seq<RangeBucket>, lo: Score, hi: Score, i: nat, j: nat)
    requires Links(ranges, lo, hi) && i <= j < |ranges|
    ensures ranges[i].hi.LessEq(ranges[j].hi)
  {
    if i < j {
      assert ranges[i].hi == ranges[i + 1].lo;
      LinksOrdered(ranges, lo, hi, i + 1, j);
    }
  }

  /** The list after a merge: the merged bucket in the left one's place, the right one gone. */
  function AfterMerge(ranges: seq<RangeBucket>, left: nat, right: nat, merged: RangeBucket): seq<RangeBucket> {
    if ranges == [] then []
    else
      (if ranges[0].idx == left then [merged] else if ranges[0].idx == right then [] else [ranges[0]])
      + AfterMerge(ranges[1..], left, right, merged)
  }

  lemma {:induction false} AfterMergeNone(ranges: seq<RangeBucket>, left: nat, right: nat, merged: RangeBucket)
    requires forall x <- ranges :: x.idx != left && x.idx != right
    ensures AfterMerge(ranges, left, right, merged) == ranges
  {
    if ranges != [] {
      AfterMergeNone(ranges[1..], left, right, merged);
    }
  }

  lemma {:induction false} AfterMergeAppend(a: seq<RangeBucket>, b: seq<RangeBucket>, left: nat, right: nat,
      merged: RangeBucket)
    ensures AfterMerge(a + b, left, right, merged)
            == AfterMerge(a, left, right, merged) + AfterMerge(b, left, right, merged)
  {
    if a == [] {
      assert a + b == b;
    } else {
      assert (a + b)[1..] == a[1..] + b;
      AfterMergeAppend(a[1..], b, left, right, merged);
    }
  }

  lemma AfterMergeParts(head: seq<RangeBucket>, x: RangeBucket, tail: seq<RangeBucket>, left: nat, right: nat,
      merged: RangeBucket)
    requires forall y <- head :: y.idx != left && y.idx != right
    ensures AfterMerge(head + [x] + tail, left, right, merged)
            == head + AfterMerge([x], left, right, merged) + AfterMerge(tail, left, right, merged)
  {
    hide AfterMerge;
    AfterMergeNone(head, left, right, merged);
    AfterMergeAppend(head, [x], left, right, merged);
    AfterMergeAppend(head + [x], tail, left, right, merged);
  }

  ghost predicate Free(s: seq<RangeBucket>, left: nat, right: nat) { forall y <- s :: y.idx != left && y.idx != right }

  lemma AfterMergeTwo(head: seq<RangeBucket>, x: RangeBucket, inner: seq<RangeBucket>, y: RangeBucket,
      tail: seq<RangeBucket>, left: nat, right: nat, merged: RangeBucket)
    requires Free(head, left, right) && Free(inner, left, right) && Free(tail, left, right)
    ensures AfterMerge(head + [x] + (inner + [y] + tail), left, right, merged)
            == head + AfterMerge([x], left, right, merged) + (inner + AfterMerge([y], left, right, merged) + tail)
  {
    hide AfterMerge;
    AfterMergeNone(tail, left, right, merged);
    AfterMergeParts(head, x, inner + [y] + tail, left, right, merged);
    AfterMergeParts(inner, y, tail, left, right, merged);
  }

  lemma PartsFree(ranges: seq<RangeBucket>, a: nat, b: nat)
    requires a <= b < |ranges|
    requires DistinctIdx(ranges)
    ensures var left, right := ranges[a].idx, ranges[b].idx;
            && Free(ranges[..a], left, right) && Free(Between(ranges, a, b), left, right)
            && Free(ranges[b + 1..], left, right)
  {
  }

  /** Positions `a < b` hold the two buckets, or `a == b` the one that is both. */
  lemma AfterMergeSplit(ranges: seq<RangeBucket>, a: nat, b: nat, left: nat, right: nat, merged: RangeBucket)
    requires a <= b < |ranges|
    requires ((ranges[a].idx == left && ranges[b].idx == right) || (ranges[a].idx == right && ranges[b].idx == left))
    requires DistinctIdx(ranges)
    ensures ranges[b].idx == left ==>
              AfterMerge(ranges, left, right, merged) ==
                  ranges[..a] + Between(ranges, a, b) + [merged] + ranges[b + 1..]
    ensures ranges[a].idx == left ==>
              AfterMerge(ranges, left, right, merged) ==
                  ranges[..a] + [merged] + Between(ranges, a, b) + ranges[b + 1..]
  {
    hide AfterMerge, Free, DistinctIdx;
    PartsFree(ranges, a, b);
    FreeEither(ranges, a, b);
    AfterMergeOne(ranges[a], left, right, merged);
    AfterMergeOne(ranges[b], left, right, merged);
    if a == b {
      AfterMergeSame(ranges, a, left, merged);
    } else {
      AfterMergeApart(ranges, a, b, left, right, merged);
      assert ranges[a].idx != ranges[b].idx by { ApartIdx(ranges, a, b); }
    }
  }

  lemma ApartIdx(ranges: seq<RangeBucket>, a: nat, b: nat)
    requires a < b < |ranges| && DistinctIdx(ranges)
    ensures ranges[a].idx != ranges[b].idx
  {
  }

  lemma AfterMergeSame(ranges: seq<RangeBucket>, a: nat, left: nat, merged: RangeBucket)
    requires a < |ranges| && ranges[a].idx == left && Free(ranges[..a], left, left) && Free(ranges[a + 1..], left, left)
    ensures AfterMerge(ranges, left, left, merged) == ranges[..a] + Between(ranges, a, a) + [merged] + ranges[a + 1..]
    ensures AfterMerge(ranges, left, left, merged) == ranges[..a] + [merged] + Between(ranges, a, a) + ranges[a + 1..]
  {
    hide AfterMerge, Free;
    assert ranges == ranges[..a] + [ranges[a]] + ranges[a + 1..];
    AfterMergeSingle(ranges[..a], ranges[a], ranges[a + 1..], left, merged);
  }

  lemma AfterMergeApart(ranges: seq<RangeBucket>, a: nat, b: nat, left: nat, right: nat, merged: RangeBucket)
    requires a < b < |ranges| && Free(ranges[..a], left, right) && Free(Between(ranges, a, b), left, right)
    requires Free(ranges[b + 1..], left, right)
    ensures AfterMerge(ranges, left, right, merged)
            == ranges[..a] + AfterMerge([ranges[a]], left, right, merged) +
                (Between(ranges, a, b) + AfterMerge([ranges[b]], left, right, merged) + ranges[b + 1..])
  {
    hide AfterMerge, Free;
    var head, inner, tail := ranges[..a], Between(ranges, a, b), ranges[b + 1..];
    assert ranges == head + [ranges[a]] + (inner + [ranges[b]] + tail);
    AfterMergeTwo(head, ranges[a], inner, ranges[b], tail, left, right, merged);
  }

  lemma FreeEither(ranges: seq<RangeBucket>, a: nat, b: nat)
    requires a <= b < |ranges|
    ensures var left, right := ranges[a].idx, ranges[b].idx;
            forall s :: Free(s, left, right) <==> Free(s, right, left)
  {
  }

  lemma AfterMergeSingle(head: seq<RangeBucket>, x: RangeBucket, tail: seq<RangeBucket>, left: nat, merged: RangeBucket)
    requires Free(head, left, left) && Free(tail, left, left) && x.idx == left
    ensures AfterMerge(head + [x] + tail, left, left, merged) == head + [merged] + tail
  {
    hide AfterMerge;
    AfterMergeNone(tail, left, left, merged);
    AfterMergeOne(x, left, left, merged);
    AfterMergeParts(head, x, tail, left, left, merged);
  }

  function Between(ranges: seq<RangeBucket>, a: nat, b: nat): seq<RangeBucket>
    requires a <= b < |ranges|
  {
    if a < b then ranges[a + 1..b] else []
  }

  lemma PartsHold(ranges: seq<RangeBucket>, a: nat, b: nat, x: RangeBucket)
    requires a <= b < |ranges|
    requires DistinctIdx(ranges)
    ensures x in ranges[..a] + Between(ranges, a, b) + ranges[b + 1..]
            <==> x in ranges && x != ranges[a] && x != ranges[b]
  {
    var inner, tail := Between(ranges, a, b), ranges[b + 1..];
    if x in ranges {
      var i :| 0 <= i < |ranges| && ranges[i] == x;
      if i < a {
        assert ranges[..a][i] == x;
      } else if a < i < b {
        assert inner[i - a - 1] == x;
      } else if b < i {
        assert tail[i - b - 1] == x;
      }
    }
  }

  /** The list splits at the positions of the two buckets, whichever comes first. */
  lemma AfterMergeForm(ranges: seq<RangeBucket>, li: nat, ri: nat, merged: RangeBucket)
      returns (pre: seq<RangeBucket>, post: seq<RangeBucket>)
    requires Partition(ranges) && IsRight(ranges, li, ri)
    requires DistinctIdx(ranges)
    ensures AfterMerge(ranges, ranges[li].idx, ranges[ri].idx, merged) == pre + [merged] + post
    ensures Chain(pre, NegInf, ranges[li].lo) && Chain(post, ranges[ri].hi, PosInf)
    ensures forall x :: x in pre + post <==> x in ranges && x != ranges[li] && x != ranges[ri]
  {
    hide Chain, AfterMerge;
    RightIs(ranges, li, ri);
    ChainParts(ranges, li, NegInf, PosInf);
    ChainParts(ranges, ri, NegInf, PosInf);
    if ri < li {
      AfterMergeSplit(ranges, ri, li, ranges[li].idx, ranges[ri].idx, merged);
      var inner := Between(ranges, ri, li);
      pre, post := ranges[..ri] + inner, ranges[li + 1..];
      var upTo := ranges[..li];
      ChainParts(upTo, ri, NegInf, ranges[li].lo);
      assert upTo[..ri] == ranges[..ri] && upTo[ri + 1..] == inner;
      ChainAppend(ranges[..ri], inner, NegInf, ranges[ri].hi, ranges[li].lo);
      forall x ensures x in pre + post <==> x in ranges && x != ranges[li] && x != ranges[ri] {
        PartsHold(ranges, ri, li, x);
      }
    } else {
      AfterMergeSplit(ranges, li, ri, ranges[li].idx, ranges[ri].idx, merged);
      assert Between(ranges, li, ri) == [];
      pre, post := ranges[..li], ranges[ri + 1..];
      forall x ensures x in pre + post <==> x in ranges && x != ranges[li] && x != ranges[ri] {
        PartsHold(ranges, li, ri, x);
      }
    }
  }

  lemma AfterMergeOne(x: RangeBucket, left: nat, right: nat, merged: RangeBucket)
    ensures AfterMerge([x], left, right, merged)
            == if x.idx == left then [merged] else if x.idx == right then [] else [x]
  {
    assert [x][1..] == [];
  }

  lemma {:induction false} ChainEnd(s: seq<RangeBucket>, lo: Score, a: Score, b: Score)
    requires Chain(s, lo, a) && Chain(s, lo, b)
    ensures a == b
  {
    if s != [] {
      ChainEnd(s[1..], s[0].hi, a, b);
    }
  }

  /** A merge keeps the partition exactly when its bucket spans the two that it replaces. */
  lemma MergeKeepsPartition(ranges: seq<RangeBucket>, li: nat, ri: nat, merged: RangeBucket)
    requires Partition(ranges) && IsRight(ranges, li, ri)
    requires DistinctIdx(ranges)
    ensures Partition(AfterMerge(ranges, ranges[li].idx, ranges[ri].idx, merged))
            <==> merged.lo == ranges[li].lo && merged.hi == ranges[ri].hi
  {
    var pre, post := AfterMergeForm(ranges, li, ri, merged);
    var out := pre + [merged] + post;
    ChainParts(ranges, li, NegInf, PosInf);
    ChainParts(ranges, ri, NegInf, PosInf);
    if merged.lo == ranges[li].lo && merged.hi == ranges[ri].hi {
      LessEqTrans(ranges[li].lo, ranges[li].hi, ranges[ri].hi);
      assert Chain([merged][1..], merged.hi, merged.hi);
      ChainAppend(pre, [merged], NegInf, merged.lo, merged.hi);
      ChainAppend(pre + [merged], post, NegInf, merged.hi, PosInf);
    }
    if Partition(out) {
      ChainParts(out, |pre|, NegInf, PosInf);
      assert out[..|pre|] == pre && out[|pre| + 1..] == post;
      ChainEnd(pre, NegInf, merged.lo, ranges[li].lo);
    }
  }

  lemma ThreeInARow(a: RangeBucket, b: RangeBucket, c: RangeBucket)
    requires a.lo == NegInf && a.hi == b.lo && b.hi == c.lo && c.hi == PosInf && b.lo.LessEq(b.hi)
    ensures Partition([a, b, c])
  {
    ChainLinks([a, b, c], NegInf, PosInf);
  }

  // ----- the protocols' steps on the list ---------------------------------------------------------

  /** One CAS that sets the state, and with `kids` the children, of the buckets `l` and `r`. */
  function Turn(x: RangeBucket, l: nat, r: nat, st: State, kids: Option<seq<RangeBucket>>): RangeBucket {
    if x.idx == l || x.idx == r then x.(state := st, children := if kids.Some? then kids.value else x.children) else x
  }

  function Turned(ranges: seq<RangeBucket>, l: nat, r: nat, st: State,
      kids: Option<seq<RangeBucket>>): seq<RangeBucket> {
    seq(|ranges|, i requires 0 <= i < |ranges| => Turn(ranges[i], l, r, st, kids))
  }

  lemma TurnedFrom(ranges: seq<RangeBucket>, l: nat, r: nat, st: State, kids: Option<seq<RangeBucket>>, y: RangeBucket)
      returns (x: RangeBucket)
    requires y in Turned(ranges, l, r, st, kids)
    ensures x in ranges && y == Turn(x, l, r, st, kids)
  {
    var i :| 0 <= i < |ranges| && Turned(ranges, l, r, st, kids)[i] == y;
    x := ranges[i];
  }

  lemma TurnedHas(ranges: seq<RangeBucket>, l: nat, r: nat, st: State, kids: Option<seq<RangeBucket>>, x: RangeBucket)
    requires x in ranges
    ensures Turn(x, l, r, st, kids) in Turned(ranges, l, r, st, kids)
  {
    var i :| 0 <= i < |ranges| && ranges[i] == x;
    assert Turned(ranges, l, r, st, kids)[i] == Turn(x, l, r, st, kids);
  }

  lemma TurnedPartition(ranges: seq<RangeBucket>, l: nat, r: nat, st: State, kids: Option<seq<RangeBucket>>)
    requires Partition(ranges)
    ensures Partition(Turned(ranges, l, r, st, kids))
  {
    hide Chain, Links, Turned;
    ChainLinks(ranges, NegInf, PosInf);
    ChainLinks(Turned(ranges, l, r, st, kids), NegInf, PosInf);
    TurnedLinks(ranges, l, r, st, kids);
  }

  lemma TurnedLinks(ranges: seq<RangeBucket>, l: nat, r: nat, st: State, kids: Option<seq<RangeBucket>>)
    requires Links(ranges, NegInf, PosInf) && ranges != []
    ensures Links(Turned(ranges, l, r, st, kids), NegInf, PosInf) && Turned(ranges, l, r, st, kids) != []
  {
    var out := Turned(ranges, l, r, st, kids);
    assert forall i :: 0 <= i < |ranges| ==> out[i].lo == ranges[i].lo && out[i].hi == ranges[i].hi;
  }

  lemma IdxUnique(ranges: seq<RangeBucket>, x: RangeBucket, y: RangeBucket)
    requires DistinctIdx(ranges) && x in ranges && y in ranges && x.idx == y.idx
    ensures x == y
  {
    var i :| 0 <= i < |ranges| && ranges[i] == x;
    var j :| 0 <= j < |ranges| && ranges[j] == y;
  }

  /** Fresh children for one bucket about to split, or for two about to merge. */
  lemma FreshKids(ranges: seq<RangeBucket>, l: nat, r: nat, st: State, kids: seq<RangeBucket>, next: nat, next': nat)
    requires Stored(ranges, next) && next <= next' && kids != [] && forall k <- kids :: next <= k.idx < next'
    requires st in {Splitting, Merging} && (l == r || st == Merging)
    requires forall x <- ranges :: x.idx == l || x.idx == r ==>
               x.children == [] && Proper(Turn(x, l, r, st, Some(kids)))
    requires st == Merging ==> CoveredBy(ranges, l, r, kids[0])
    ensures Stored(Turned(ranges, l, r, st, Some(kids)), next')
  {
    hide Partition, Proper, Mates, Apart, Turn, Spanned, CoveredBy;
    FreshSpanned(ranges, l, r, st, kids);
    TurnedPartition(ranges, l, r, st, Some(kids));
    FreshNumbers(ranges, l, r, st, kids, next, next');
    FreshApartAll(ranges, l, r, st, kids, next);
    FreshPairs(ranges, l, r, st, kids, next);
    forall y | y in Turned(ranges, l, r, st, Some(kids)) ensures Proper(y) {
      var x := TurnedFrom(ranges, l, r, st, Some(kids), y);
      NotTurned(x, l, r, st, Some(kids));
    }
  }

  /** The buckets `l` and `r` hold every score of `m`. */
  ghost predicate CoveredBy(ranges: seq<RangeBucket>, l: nat, r: nat, m: RangeBucket) {
    forall s: Score :: RangeContains(m, s) ==> exists x <- ranges :: (x.idx == l || x.idx == r) && RangeContains(x, s)
  }

  lemma FreshSpanned(ranges: seq<RangeBucket>, l: nat, r: nat, st: State, kids: seq<RangeBucket>)
    requires Spanned(ranges) && st in {Splitting, Merging} && kids != []
    requires forall x <- ranges :: x.idx == l || x.idx == r ==> x.children == []
    requires st == Merging ==> CoveredBy(ranges, l, r, kids[0])
    ensures Spanned(Turned(ranges, l, r, st, Some(kids)))
  {
    hide Turned, RangeContains;
    var out := Turned(ranges, l, r, st, Some(kids));
    forall y, s: Score | y in out && InMerge(y) && y.children != [] && RangeContains(y.children[0], s)
      ensures MateFor(out, y, s)
    {
      var x := TurnedFrom(ranges, l, r, st, Some(kids), y);
      var z: RangeBucket;
      if x.idx == l || x.idx == r {
        z :| z in ranges && (z.idx == l || z.idx == r) && RangeContains(z, s);
      } else {
        assert MateFor(ranges, x, s);
        z :| z in ranges && Mates(x, z) && RangeContains(z, s);
      }
      TurnedHas(ranges, l, r, st, Some(kids), z);
      TurnContains(z, l, r, st, Some(kids), s);
      assert Mates(y, Turn(z, l, r, st, Some(kids)));
    }
  }

  lemma TurnContains(x: RangeBucket, l: nat, r: nat, st: State, kids: Option<seq<RangeBucket>>, s: Score)
    ensures RangeContains(Turn(x, l, r, st, kids), s) <==> RangeContains(x, s)
  {
  }

  lemma FreshNumbers(ranges: seq<RangeBucket>, l: nat, r: nat, st: State, kids: seq<RangeBucket>, next: nat, next': nat)
    requires DistinctIdx(ranges) && Allocated(ranges, next) && ChildrenNew(ranges)
    requires next <= next' && forall k <- kids :: next <= k.idx < next'
    ensures var out := Turned(ranges, l, r, st, Some(kids));
            DistinctIdx(out) && Allocated(out, next') && ChildrenNew(out)
  {
    TurnedDistinct(ranges, l, r, st, Some(kids));
    hide NewTo, Turned, DistinctIdx;
    var out := Turned(ranges, l, r, st, Some(kids));
    forall y | y in out ensures y.idx < next' && forall c <- y.children :: c.idx < next' {
      var x := TurnedFrom(ranges, l, r, st, Some(kids), y);
    }
    forall y, z | y in out && z in out ensures NewTo(y, z) {
      var y0 := TurnedFrom(ranges, l, r, st, Some(kids), y);
      var z0 := TurnedFrom(ranges, l, r, st, Some(kids), z);
      TurnNew(y0, z0, l, r, st, Some(kids));
    }
  }

  lemma TurnedDistinct(ranges: seq<RangeBucket>, l: nat, r: nat, st: State, kids: Option<seq<RangeBucket>>)
    requires DistinctIdx(ranges)
    ensures DistinctIdx(Turned(ranges, l, r, st, kids))
  {
  }

  lemma TurnNew(y: RangeBucket, z: RangeBucket, l: nat, r: nat, st: State, kids: Option<seq<RangeBucket>>)
    requires NewTo(y, z) && (kids.Some? ==> forall k <- kids.value :: y.idx < k.idx)
    ensures NewTo(Turn(y, l, r, st, kids), Turn(z, l, r, st, kids))
  {
  }

  lemma FreshApartAll(ranges: seq<RangeBucket>, l: nat, r: nat, st: State, kids: seq<RangeBucket>, next: nat)
    requires DistinctIdx(ranges) && Allocated(ranges, next) && ChildrenApart(ranges)
    requires (forall k <- kids :: next <= k.idx) && (l == r || st == Merging)
    ensures ChildrenApart(Turned(ranges, l, r, st, Some(kids)))
  {
    hide Apart, Turn, DistinctIdx, Allocated;
    var out := Turned(ranges, l, r, st, Some(kids));
    forall y, z | y in out && z in out ensures Apart(y, z) {
      var y0 := TurnedFrom(ranges, l, r, st, Some(kids), y);
      var z0 := TurnedFrom(ranges, l, r, st, Some(kids), z);
      FreshApart(ranges, next, y0, z0, l, r, st, kids);
    }
  }

  lemma FreshPairs(ranges: seq<RangeBucket>, l: nat, r: nat, st: State, kids: seq<RangeBucket>, next: nat)
    requires DistinctIdx(ranges) && Allocated(ranges, next) && OnlyPairs(ranges)
    requires kids != [] && forall k <- kids :: next <= k.idx
    ensures OnlyPairs(Turned(ranges, l, r, st, Some(kids)))
  {
    hide Mates, Turn, DistinctIdx, Allocated, Turned;
    var out := Turned(ranges, l, r, st, Some(kids));
    forall x, y, z | x in out && y in out && z in out && Mates(x, y) && Mates(y, z) ensures x == y || y == z || x == z {
      var x0 := TurnedFrom(ranges, l, r, st, Some(kids), x);
      var y0 := TurnedFrom(ranges, l, r, st, Some(kids), y);
      var z0 := TurnedFrom(ranges, l, r, st, Some(kids), z);
      FreshMates(ranges, next, x0, y0, l, r, st, kids);
      FreshMates(ranges, next, y0, z0, l, r, st, kids);
      FreshTwo(ranges, x0, y0, z0, l, r);
      NotTurned(x0, l, r, st, Some(kids));
      NotTurned(y0, l, r, st, Some(kids));
      NotTurned(z0, l, r, st, Some(kids));
    }
  }

  lemma NotTurned(x: RangeBucket, l: nat, r: nat, st: State, kids: Option<seq<RangeBucket>>)
    ensures !(x.idx == l || x.idx == r) ==> Turn(x, l, r, st, kids) == x
  {
  }

  lemma FreshTwo(ranges: seq<RangeBucket>, x: RangeBucket, y: RangeBucket, z: RangeBucket, l: nat, r: nat)
    requires DistinctIdx(ranges) && x in ranges && y in ranges && z in ranges
    ensures (x.idx == l || x.idx == r) && (y.idx == l || y.idx == r) && (z.idx == l || z.idx == r) ==>
              x == y || y == z || x == z
  {
    if x.idx == y.idx { IdxUnique(ranges, x, y); }
    if y.idx == z.idx { IdxUnique(ranges, y, z); }
    if x.idx == z.idx { IdxUnique(ranges, x, z); }
  }

  lemma FreshApart(ranges: seq<RangeBucket>, next: nat, y: RangeBucket, z: RangeBucket, l: nat, r: nat, st: State,
      kids: seq<RangeBucket>)
    requires y in ranges && z in ranges && DistinctIdx(ranges) && Allocated(ranges, next) && Apart(y, z)
    requires forall k <- kids :: next <= k.idx
    requires l == r || st == Merging
    ensures Apart(Turn(y, l, r, st, Some(kids)), Turn(z, l, r, st, Some(kids)))
  {
    if y.idx == z.idx { IdxUnique(ranges, y, z); }
  }

  /** Fresh and old children differ, so a turned bucket is no mate of another. */
  lemma FreshMates(ranges: seq<RangeBucket>, next: nat, y: RangeBucket, z: RangeBucket, l: nat, r: nat, st: State,
      kids: seq<RangeBucket>)
    requires y in ranges && z in ranges && Allocated(ranges, next) && kids != [] && (forall k <- kids :: next <= k.idx)
    requires Mates(Turn(y, l, r, st, Some(kids)), Turn(z, l, r, st, Some(kids)))
    ensures (y.idx == l || y.idx == r) <==> (z.idx == l || z.idx == r)
    ensures !(y.idx == l || y.idx == r) ==> Mates(y, z)
  {
    assert kids[0] in kids;
    assert forall c <- y.children :: c.idx < next;
    assert forall c <- z.children :: c.idx < next;
  }

  /** A later state of the same protocol for the buckets `l` and `r`. */
  lemma NewState(ranges: seq<RangeBucket>, l: nat, r: nat, st: State, next: nat)
    requires Stored(ranges, next) && st in {Draining, MergeDrain}
    requires forall x <- ranges :: x.idx == l || x.idx == r ==> if st == Draining then InSplit(x) else InMerge(x)
    ensures Stored(Turned(ranges, l, r, st, None), next)
  {
    hide Partition, Proper, Mates, Apart, Turn, InSplit, InMerge, Spanned;
    TurnedPartition(ranges, l, r, st, None);
    OldSpanned(ranges, l, r, st);
    OldNumbers(ranges, l, r, st, next);
    var out := Turned(ranges, l, r, st, None);
    forall y | y in out ensures Proper(y) {
      var x := TurnedFrom(ranges, l, r, st, None, y);
      StaysProper(x, l, r, st);
    }
    forall y, z | y in out && z in out ensures Apart(y, z) {
      var y0 := TurnedFrom(ranges, l, r, st, None, y);
      var z0 := TurnedFrom(ranges, l, r, st, None, z);
      SameMates(y0, z0, l, r, st);
    }
    forall x, y, z | x in out && y in out && z in out && Mates(x, y) && Mates(y, z) ensures x == y || y == z || x == z {
      var x0 := TurnedFrom(ranges, l, r, st, None, x);
      var y0 := TurnedFrom(ranges, l, r, st, None, y);
      var z0 := TurnedFrom(ranges, l, r, st, None, z);
      SameMates(x0, y0, l, r, st);
      SameMates(y0, z0, l, r, st);
    }
  }

  lemma OldSpanned(ranges: seq<RangeBucket>, l: nat, r: nat, st: State)
    requires Spanned(ranges) && st in {Draining, MergeDrain}
    requires forall x <- ranges :: x.idx == l || x.idx == r ==> if st == Draining then InSplit(x) else InMerge(x)
    ensures Spanned(Turned(ranges, l, r, st, None))
  {
    hide Turned, RangeContains;
    var out := Turned(ranges, l, r, st, None);
    forall y, s: Score | y in out && InMerge(y) && y.children != [] && RangeContains(y.children[0], s)
      ensures MateFor(out, y, s)
    {
      var x := TurnedFrom(ranges, l, r, st, None, y);
      SameKind(x, l, r, st);
      var z :| z in ranges && Mates(x, z) && RangeContains(z, s);
      hide Mates, InMerge, InSplit, Turn;
      TurnedHas(ranges, l, r, st, None, z);
      TurnContains(z, l, r, st, None, s);
      SameMates(x, z, l, r, st);
    }
  }

  lemma SameKind(x: RangeBucket, l: nat, r: nat, st: State)
    requires x.idx == l || x.idx == r ==> if st == Draining then InSplit(x) else st == MergeDrain && InMerge(x)
    ensures InMerge(Turn(x, l, r, st, None)) <==> InMerge(x)
    ensures Turn(x, l, r, st, None).children == x.children
  {
  }

  lemma OldNumbers(ranges: seq<RangeBucket>, l: nat, r: nat, st: State, next: nat)
    requires DistinctIdx(ranges) && Allocated(ranges, next) && ChildrenNew(ranges)
    ensures var out := Turned(ranges, l, r, st, None); DistinctIdx(out) && Allocated(out, next) && ChildrenNew(out)
  {
    TurnedDistinct(ranges, l, r, st, None);
    hide NewTo, Turned, DistinctIdx;
    var out := Turned(ranges, l, r, st, None);
    forall y | y in out ensures y.idx < next && forall c <- y.children :: c.idx < next {
      var x := TurnedFrom(ranges, l, r, st, None, y);
    }
    forall y, z | y in out && z in out ensures NewTo(y, z) {
      var y0 := TurnedFrom(ranges, l, r, st, None, y);
      var z0 := TurnedFrom(ranges, l, r, st, None, z);
      TurnNew(y0, z0, l, r, st, None);
    }
  }

  lemma StaysProper(x: RangeBucket, l: nat, r: nat, st: State)
    requires Proper(x)
    requires x.idx == l || x.idx == r ==> if st == Draining then InSplit(x) else st == MergeDrain && InMerge(x)
    ensures Proper(Turn(x, l, r, st, None))
  {
  }

  lemma SameMates(y: RangeBucket, z: RangeBucket, l: nat, r: nat, st: State)
    requires forall x <- [y, z] :: x.idx == l || x.idx == r ==>
               if st == Draining then InSplit(x) else st == MergeDrain && InMerge(x)
    ensures Mates(Turn(y, l, r, st, None), Turn(z, l, r, st, None)) <==> Mates(y, z)
    ensures Apart(y, z) ==> Apart(Turn(y, l, r, st, None), Turn(z, l, r, st, None))
  {
    assert y in [y, z] && z in [y, z];
  }

  /** The children of a finished split take its place. */
  lemma SplitDone(ranges: seq<RangeBucket>, x: RangeBucket, next: nat)
    requires Stored(ranges, next) && x in ranges && InSplit(x)
    ensures Stored(Replaced(ranges, x.idx, x.children), next)
    ensures forall y :: y in Replaced(ranges, x.idx, x.children) <==> (y in ranges && y != x) || y in x.children
  {
    hide Chain, Replaced;
    var p :| 0 <= p < |ranges| && ranges[p] == x;
    var out := ranges[..p] + x.children + ranges[p + 1..];
    ReplacedAt(ranges, p, x.children);
    ReplaceKeepsPartition(ranges, p, x.children);
    forall y ensures y in out <==> (y in ranges && y != x) || y in x.children {
      if y in ranges && y != x {
        var i :| 0 <= i < |ranges| && ranges[i] == y;
        if i < p { assert ranges[..p][i] == y; } else { assert ranges[p + 1..][i - p - 1] == y; }
      }
    }
    SplitDistinct(ranges, p);
    SplitNumbered(ranges, out, x, next);
    hide Proper;
    assert forall c <- x.children :: Leaf(c) by { SplitLeaves(x); }
    DoneSpanned(ranges, out, [x], x.children);
  }

  lemma SplitLeaves(x: RangeBucket)
    requires Proper(x) && InSplit(x)
    ensures forall c <- x.children :: Leaf(c)
  {
    hide Chain, Leaf;
    assert forall c <- x.children :: c == x.children[0] || c == x.children[1];
  }

  /** Buckets that no remaining merge has as a half give way to idle ones. */
  lemma DoneSpanned(ranges: seq<RangeBucket>, out: seq<RangeBucket>, gone: seq<RangeBucket>, come: seq<RangeBucket>)
    requires Spanned(ranges) && forall c <- come :: Leaf(c)
    requires forall y <- ranges, g <- gone :: Mates(y, g) ==> y in gone
    requires forall y :: y in out <==> (y in ranges && y !in gone) || y in come
    ensures Spanned(out)
  {
    hide RangeContains;
    forall y, s: Score | y in out && InMerge(y) && y.children != [] && RangeContains(y.children[0], s)
      ensures MateFor(out, y, s)
    {
      assert y in ranges && MateFor(ranges, y, s);
      var z :| z in ranges && Mates(y, z) && RangeContains(z, s);
      assert z in out;
    }
  }

  lemma SplitDistinct(ranges: seq<RangeBucket>, p: nat)
    requires DistinctIdx(ranges) && ChildrenNew(ranges) && p < |ranges| && InSplit(ranges[p]) && Proper(ranges[p])
    ensures DistinctIdx(ranges[..p] + ranges[p].children + ranges[p + 1..])
  {
    hide Chain, Leaf;
    var kids := ranges[p].children;
    assert ranges[p] in ranges;
    assert forall x <- ranges :: NewTo(x, ranges[p]);
    assert forall c <- kids, x <- ranges :: c.idx != x.idx;
    hide Proper, ChildrenNew;
    var out := ranges[..p] + kids + ranges[p + 1..];
    assert |kids| == 2;
    forall i, j | 0 <= i < j < |out| ensures out[i].idx != out[j].idx {
      assert out[i] == if i < p then ranges[i] else if i < p + 2 then kids[i - p] else ranges[i - 1];
      assert out[j] == if j < p then ranges[j] else if j < p + 2 then kids[j - p] else ranges[j - 1];
    }
  }

  lemma SplitNumbered(ranges: seq<RangeBucket>, out: seq<RangeBucket>, x: RangeBucket, next: nat)
    requires Numbered(ranges, next) && (forall y <- ranges :: Proper(y)) && x in ranges && InSplit(x)
    requires DistinctIdx(out) && forall y :: y in out <==> (y in ranges && y != x) || y in x.children
    ensures Numbered(out, next) && forall y <- out :: Proper(y)
  {
    hide Chain, DistinctIdx, Mates, Apart;
    forall c | c in x.children ensures Leaf(c) && Proper(c) {
      assert c == x.children[0] || c == x.children[1];
    }
    hide Proper, Leaf;
    forall y, z | y in out && z in out ensures Apart(y, z) && NewTo(y, z) {
      if y in x.children { LeafApart(y, z); }
      if z in x.children { LeafApart(z, y); }
      if z in ranges && y in x.children {
        assert Apart(x, z);
        SplitHasNoMate(x, z);
      }
    }
    forall a, b, c | a in out && b in out && c in out && Mates(a, b) && Mates(b, c) ensures a == b || b == c || a == c {
      if a in x.children { LeafApart(a, b); }
      if b in x.children { LeafApart(b, a); }
      if c in x.children { LeafApart(c, b); }
    }
  }

  lemma LeafApart(y: RangeBucket, z: RangeBucket)
    requires Leaf(y)
    ensures Apart(y, z) && Apart(z, y) && !Mates(y, z) && !Mates(z, y)
  {
  }

  lemma SplitHasNoMate(x: RangeBucket, z: RangeBucket)
    requires InSplit(x) && Apart(x, z) && z != x
    ensures forall c <- x.children, d <- z.children :: c.idx != d.idx
  {
  }

  lemma {:induction false} AfterMergeFrom(ranges: seq<RangeBucket>, left: nat, right: nat, merged: RangeBucket,
      y: RangeBucket)
    ensures y in AfterMerge(ranges, left, right, merged) <==>
            (y in ranges && y.idx != left && y.idx != right) || (y == merged && exists x <- ranges :: x.idx == left)
  {
    if ranges != [] {
      AfterMergeFrom(ranges[1..], left, right, merged, y);
      assert forall x :: x in ranges <==> x == ranges[0] || x in ranges[1..];
    }
  }

  lemma {:induction false} AfterMergeDistinct(ranges: seq<RangeBucket>, left: nat, right: nat, merged: RangeBucket)
    requires DistinctIdx(ranges) && forall x <- ranges :: x.idx != merged.idx
    ensures DistinctIdx(AfterMerge(ranges, left, right, merged))
  {
    if ranges != [] {
      var rest := AfterMerge(ranges[1..], left, right, merged);
      assert DistinctIdx(ranges[1..]) by {
        assert forall i :: 0 <= i < |ranges[1..]| ==> ranges[1..][i] == ranges[i + 1];
      }
      AfterMergeDistinct(ranges[1..], left, right, merged);
      forall y | y in rest ensures y.idx != ranges[0].idx && (ranges[0].idx == left ==> y.idx != merged.idx) {
        AfterMergeFrom(ranges[1..], left, right, merged, y);
        HeadDistinct(ranges, y);
        if x :| x in ranges[1..] && x.idx == left { HeadDistinct(ranges, x); }
      }
      ConsDistinct(ranges[0], rest);
      ConsDistinct(merged, rest);
    }
  }

  lemma HeadDistinct(ranges: seq<RangeBucket>, y: RangeBucket)
    requires DistinctIdx(ranges) && ranges != []
    ensures y in ranges[1..] ==> y.idx != ranges[0].idx && y in ranges
  {
    if y in ranges[1..] {
      var i :| 0 <= i < |ranges[1..]| && ranges[1..][i] == y;
      assert ranges[i + 1] == y;
    }
  }

  lemma ConsDistinct(x: RangeBucket, rest: seq<RangeBucket>)
    requires DistinctIdx(rest)
    ensures (forall y <- rest :: y.idx != x.idx) ==> DistinctIdx([x] + rest)
    ensures DistinctIdx([] + rest)
  {
    assert [] + rest == rest;
  }

  /** Both buckets, and no third, are being merged into one that spans them. */
  predicate Halves(ranges: seq<RangeBucket>, li: nat, ri: nat)
    requires li < |ranges| && ri < |ranges|
  {
    var left, right := ranges[li], ranges[ri];
    && Mates(left, right) && left.children != []
    && left.children[0].lo == left.lo && left.children[0].hi == right.hi
    && forall z <- ranges :: Mates(left, z) ==> z == left || z == right
  }

  /** The merged bucket takes the place of its two halves. */
  lemma MergeDone(ranges: seq<RangeBucket>, li: nat, ri: nat, next: nat)
    requires Stored(ranges, next) && IsRight(ranges, li, ri) && Halves(ranges, li, ri)
    ensures Stored(AfterMerge(ranges, ranges[li].idx, ranges[ri].idx, ranges[li].children[0]), next)
  {
    hide Chain, Partition, Leaf;
    var left, right := ranges[li], ranges[ri];
    var merged := left.children[0];
    var out := AfterMerge(ranges, left.idx, right.idx, merged);
    MergeKeepsPartition(ranges, li, ri, merged);
    assert merged in left.children;
    assert forall x <- ranges :: NewTo(x, left);
    AfterMergeDistinct(ranges, left.idx, right.idx, merged);
    forall y ensures y in out <==> (y in ranges && y != left && y != right) || y == merged {
      AfterMergeFrom(ranges, left.idx, right.idx, merged, y);
      if y in ranges && y.idx == left.idx { IdxUnique(ranges, y, left); }
      if y in ranges && y.idx == right.idx { IdxUnique(ranges, y, right); }
    }
    MergeNumbered(ranges, out, left, right, merged, next);
    assert Leaf(merged) by { assert Proper(left); }
    DoneSpanned(ranges, out, [left, right], [merged]);
  }

  lemma MergeNumbered(ranges: seq<RangeBucket>, out: seq<RangeBucket>, left: RangeBucket, right: RangeBucket,
      merged: RangeBucket, next: nat)
    requires Numbered(ranges, next) && (forall y <- ranges :: Proper(y)) && left in ranges && right in ranges
    requires Mates(left, right) && merged in left.children
    requires forall z <- ranges :: Mates(left, z) ==> z == left || z == right
    requires DistinctIdx(out) && forall y :: y in out <==> (y in ranges && y != left && y != right) || y == merged
    ensures Numbered(out, next) && forall y <- out :: Proper(y)
  {
    hide Chain, DistinctIdx, Apart;
    assert Leaf(merged) && Proper(merged) by { assert Proper(left); }
    hide Proper, Leaf, Mates;
    assert forall y <- ranges :: NewTo(y, left);
    forall y, z | y in out && z in out ensures Apart(y, z) && NewTo(y, z) {
      if y == merged { LeafApart(y, z); }
      if z == merged { LeafApart(z, y); }
      if z in ranges {
        assert Apart(left, z);
        if y == merged && z != left && z != right { ThirdIsApart(left, right, z, merged); }
      }
    }
    forall a, b, c | a in out && b in out && c in out && Mates(a, b) && Mates(b, c) ensures a == b || b == c || a == c {
      if a == merged { LeafApart(a, b); }
      if b == merged { LeafApart(b, a); }
      if c == merged { LeafApart(c, b); }
    }
  }

  /** A bucket that is no half of the merge does not share its child. */
  lemma ThirdIsApart(left: RangeBucket, right: RangeBucket, z: RangeBucket, merged: RangeBucket)
    requires Apart(left, z) && (Mates(left, z) ==> z == left || z == right)
    requires z != left && z != right && merged in left.children
    ensures NewTo(merged, z)
  {
  }
}
