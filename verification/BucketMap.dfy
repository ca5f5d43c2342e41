/**
 * The routing document of one index: which bucket numbers hold a value's members and
 * which score interval each range bucket covers, together with the rules that writers
 * and readers derive from it.
 */
module BucketMap {
  import opened Wrappers

  datatype State = Active | Splitting | Draining | Merging | MergeDrain | Deleted

  /** xxhash64 of a primary key; routing needs only that it is a function. */
  type Hash = string -> nat

  datatype SplitInfo = SplitInfo(state: State, parents: seq<nat>, children: seq<nat>)
  datatype EqEntry = EqEntry(buckets: seq<nat>, split: Option<SplitInfo>)

  /** Range scores are totally ordered, with both infinities. */
  datatype Score = NegInf | Fin(r: real) | PosInf {
    predicate Less(other: Score) {
      match (this, other)
      case (NegInf, NegInf) => false
      case (NegInf, _) => true
      case (Fin(a), Fin(b)) => a < b
      case (Fin(_), PosInf) => true
      case (_, _) => false
    }
    predicate LessEq(other: Score) { this == other || Less(other) }
  }

  datatype RangeBucket = RangeBucket(idx: nat, lo: Score, hi: Score, state: State, children: seq<RangeBucket>)

  datatype Doc = Doc(version: nat, next: nat, eq: map<string, EqEntry>, ranges: seq<RangeBucket>)

  function DefaultDoc(): Doc {
    Doc(0, 1, map[], [RangeBucket(0, NegInf, PosInf, Active, [])])
  }

  // ----- equality buckets ---------------------------------------------------------------

  function EqSubFor(hash: Hash, pk: string, k: nat): (i: nat)
    ensures k > 0 ==> i < k
  {
    if k <= 1 then 0 else hash(pk) % k
  }

  /** The bucket is the remainder of the hash, so each one is somebody's. */
  lemma EqSubIs(hash: Hash, pk: string, k: nat, q: nat, i: nat)
    requires i < k && hash(pk) == q * k + i
    ensures EqSubFor(hash, pk, k) == i
  {
    RemainderOf(q, k, i);
  }

  lemma RemainderOf(q: nat, k: nat, i: nat)
    requires i < k
    ensures (q * k + i) % k == i
  {
    var n := q * k + i;
    OneQuotient(n / k, n % k, q, i, k);
  }

  lemma OneQuotient(a: nat, r: nat, b: nat, i: nat, k: nat)
    requires a * k + r == b * k + i && r < k && i < k
    ensures r == i
  {
    if a < b {
      FarApart(a, b, k);
    } else if b < a {
      FarApart(b, a, k);
    }
  }

  lemma FarApart(a: nat, b: nat, k: nat)
    requires a < b
    ensures b * k >= a * k + k
  {
    assert b * k == a * k + k + (b - a - 1) * k;
  }

  predicate ValidSplit(sp: SplitInfo) { sp.parents != [] && sp.children != [] }

  predicate ValidEntry(e: EqEntry) {
    && e.buckets != []
    && (e.split.Some? ==> ValidSplit(e.split.value))
  }

  predicate ValidEq(d: Doc) {
    forall v <- d.eq :: ValidEntry(d.eq[v])
  }

  /** An absent entry stands for the single default bucket 0. */
  function EntryOf(d: Doc, enc: string): EqEntry {
    if enc in d.eq then d.eq[enc] else EqEntry([0], None)
  }

  /** The buckets a writer aims a member at, given one entry. */
  function EntryTargets(e: EqEntry, hash: Hash, pk: string): seq<nat>
    requires ValidEntry(e)
  {
    if e.split.Some? then
      var sp := e.split.value;
      var parent := sp.parents[EqSubFor(hash, pk, |sp.parents|)];
      var child := sp.children[EqSubFor(hash, pk, |sp.children|)];
      match sp.state
      case Splitting => [parent, child]
      case Merging => [parent, child]
      case Draining => [child]
      case MergeDrain => [parent]
      case _ => [e.buckets[EqSubFor(hash, pk, |e.buckets|)]]
    else
      [e.buckets[EqSubFor(hash, pk, |e.buckets|)]]
  }

  /** The buckets a reader visits, given one entry. */
  function EntryReads(e: EqEntry): seq<nat> {
    if e.split.Some? then e.split.value.parents + e.split.value.children else e.buckets
  }

  function WriteTargetsEq(d: Doc, hash: Hash, enc: string, pk: string): seq<nat>
    requires ValidEq(d)
  {
    if enc !in d.eq then [0] else EntryTargets(d.eq[enc], hash, pk)
  }

  function ReadBucketsEq(d: Doc, enc: string): seq<nat> {
    if enc !in d.eq then [0] else EntryReads(d.eq[enc])
  }

  // ----- the entry transitions of the split and merge protocols -------------------------

  datatype Direction = Split | Merge

  function DualState(dir: Direction): State { if dir.Split? then Splitting else Merging }
  function DrainState(dir: Direction): State { if dir.Split? then Draining else MergeDrain }

  /** Number of fresh buckets: twice as many to split, half as many to merge. */
  function FreshCount(dir: Direction, e: EqEntry): nat {
    if dir.Split? then 2 * |e.buckets| else |e.buckets| / 2
  }

  function Fresh(next: nat, count: nat): (s: seq<nat>)
    ensures |s| == count && forall b <- s :: next <= b < next + count
  {
    seq(count, i requires 0 <= i < count => next + i)
  }

  /** First CAS on the entry: old and new buckets are written side by side. */
  function Begin(dir: Direction, e: EqEntry, next: nat): EqEntry {
    var added := Fresh(next, FreshCount(dir, e));
    EqEntry(e.buckets, Some(if dir.Split? then SplitInfo(Splitting, e.buckets, added)
                            else SplitInfo(Merging, added, e.buckets)))
  }

  /** Second CAS on the entry: only the new buckets are written. */
  function ToDrain(dir: Direction, e: EqEntry): EqEntry
    requires e.split.Some?
  {
    e.(split := Some(e.split.value.(state := DrainState(dir))))
  }

  /** Last CAS on the entry: the new buckets are all that is left. */
  function Finish(dir: Direction, sp: SplitInfo): EqEntry {
    EqEntry(Targets(dir, sp), None)
  }

  /** The buckets being emptied and the buckets being filled. */
  function Sources(dir: Direction, sp: SplitInfo): seq<nat> { if dir.Split? then sp.parents else sp.children }
  function Targets(dir: Direction, sp: SplitInfo): seq<nat> { if dir.Split? then sp.children else sp.parents }

  function DirOf(st: State): Direction {
    if st in {Merging, MergeDrain} then Merge else Split
  }

  /** One protocol step of an entry, with `next` the allocator before the step. */
  predicate EntryStep(e: EqEntry, e': EqEntry, next: nat) {
    exists dir: Direction ::
      || (e.split.None? && FreshCount(dir, e) > 0 && e' == Begin(dir, e, next))
      || (e.split.Some? && e.split.value.state == DualState(dir) && e' == ToDrain(dir, e))
      || (e.split.Some? && e.split.value.state == DrainState(dir) && e' == Finish(dir, e.split.value))
  }

  /** The shape every stored entry has: a split starts from, or a merge empties, `buckets`. */
  predicate Shaped(e: EqEntry) {
    && ValidEntry(e)
    && (e.split.Some? ==>
          && e.split.value.state in {Splitting, Draining, Merging, MergeDrain}
          && Sources(DirOf(e.split.value.state), e.split.value) == e.buckets)
  }

  /** The buckets of an entry that no running protocol empties. */
  function Settled(e: EqEntry): seq<nat> {
    if e.split.Some? then Targets(DirOf(e.split.value.state), e.split.value) else e.buckets
  }

  /** A stored entry under the allocator `next`: old and new numbers are distinct and allocated. */
  predicate EntryOK(e: EqEntry, next: nat) {
    && Shaped(e) && NoRepeats(e.buckets) && NoRepeats(Settled(e))
    && (forall b <- EntryReads(e) :: b < next)
    && (e.split.Some? ==> forall b <- e.buckets :: b !in Settled(e))
  }

  predicate DocOK(d: Doc) {
    && d.next > 0 && d.ranges != []
    && forall enc <- d.eq :: EntryOK(d.eq[enc], d.next)
  }

  /** The first CAS only adds buckets, and only ones from `first` up. */
  lemma BeginEntry(dir: Direction, e: EqEntry, first: nat, next: nat)
    requires EntryOK(e, first) && e.split.None? && FreshCount(dir, e) > 0 && first + FreshCount(dir, e) <= next
    ensures EntryOK(Begin(dir, e, first), next)
    ensures forall b <- EntryReads(e) :: b in EntryReads(Begin(dir, e, first))
    ensures forall b <- Settled(Begin(dir, e, first)) :: first <= b
  {
    FreshDistinct(first, FreshCount(dir, e));
    hide Fresh, NoRepeats;
  }

  lemma FreshDistinct(next: nat, count: nat)
    ensures NoRepeats(Fresh(next, count)) && |Fresh(next, count)| == count
    ensures forall b <- Fresh(next, count) :: next <= b < next + count
  {
  }

  /** The second CAS changes the state alone. */
  lemma DrainEntry(dir: Direction, e: EqEntry, next: nat)
    requires EntryOK(e, next) && e.split.Some? && e.split.value.state == DualState(dir)
    ensures EntryOK(ToDrain(dir, e), next)
    ensures EntryReads(ToDrain(dir, e)) == EntryReads(e) && Settled(ToDrain(dir, e)) == Settled(e)
    ensures ToDrain(dir, e).buckets == e.buckets
  {
    hide NoRepeats;
  }

  lemma ChangedDocOK(d: Doc, enc: string, e: EqEntry, version: nat)
    requires DocOK(d) && EntryOK(e, d.next)
    ensures DocOK(d.(version := version, eq := d.eq[enc := e]))
  {
    hide EntryOK;
  }

  lemma FinishEntry(dir: Direction, sp: SplitInfo, e: EqEntry, next: nat)
    requires EntryOK(e, next) && e.split == Some(sp) && dir == DirOf(sp.state)
    ensures EntryOK(Finish(dir, sp), next)
  {
    assert forall b <- Targets(dir, sp) :: b in EntryReads(e);
  }

  lemma StepKeepsShape(e: EqEntry, e': EqEntry, next: nat)
    requires Shaped(e) && EntryStep(e, e', next)
    ensures Shaped(e')
  {
  }

  /** A writer and a reader that use the same document never miss each other. */
  lemma WriteWithinRead(d: Doc, hash: Hash, enc: string, pk: string)
    requires ValidEq(d) && Shaped(EntryOf(d, enc))
    ensures WriteTargetsEq(d, hash, enc, pk) != []
    ensures forall b <- WriteTargetsEq(d, hash, enc, pk) :: b in ReadBucketsEq(d, enc)
  {
  }

  /**
   * A writer one step behind the reader is still read, unless the step was the last one:
   * a finished entry no longer mentions the buckets that were emptied.
   */
  lemma StaleWriterIsRead(e: EqEntry, e': EqEntry, next: nat, hash: Hash, pk: string)
    requires Shaped(e) && EntryStep(e, e', next) && e'.split.Some?
    ensures forall b <- EntryTargets(e, hash, pk) :: b in EntryReads(e')
  {
  }

  /** Two steps behind, up to the draining state: the whole of a split before its last CAS. */
  lemma TwiceStaleWriterIsRead(e: EqEntry, e1: EqEntry, e2: EqEntry, next: nat, next1: nat, hash: Hash, pk: string)
    requires Shaped(e) && EntryStep(e, e1, next) && EntryStep(e1, e2, next1) && e.split.None? && e2.split.Some?
    ensures e2.split.value.state in {Draining, MergeDrain}
    ensures forall b <- EntryTargets(e, hash, pk) :: b in EntryReads(e2)
  {
  }

  /** A reader one step behind a writer still visits a bucket the writer aims at. */
  lemma StaleReaderSeesTarget(e: EqEntry, e': EqEntry, next: nat, hash: Hash, pk: string)
    requires Shaped(e) && EntryStep(e, e', next)
    ensures ValidEntry(e') && exists b <- EntryTargets(e', hash, pk) :: b in EntryReads(e)
  {
    StepKeepsShape(e, e', next);
    var t := EntryTargets(e', hash, pk);
    if e.split.None? {
      var k := EqSubFor(hash, pk, |e.buckets|);
      assert e.buckets[k] in t;
    } else {
      assert t[|t| - 1] in EntryReads(e);
    }
  }

  /**
   * From a split's or merge's start the old bucket of a key is still written, beside one new
   * one; from the draining state on that new one alone, which is then the key's bucket.
   */
  lemma TargetsMoveOn(dir: Direction, e: EqEntry, next: nat, hash: Hash, pk: string)
    requires EntryOK(e, next) && e.split.None? && FreshCount(dir, e) > 0
    ensures var dual := Begin(dir, e, next);
            var drain := ToDrain(dir, dual);
            && Shaped(dual) && Shaped(drain) && ValidEntry(Finish(dir, dual.split.value))
            && |EntryTargets(e, hash, pk)| == 1 && |EntryTargets(dual, hash, pk)| == 2
            && (forall b <- EntryTargets(e, hash, pk) :: b in EntryTargets(dual, hash, pk) && b < next)
            && |EntryTargets(drain, hash, pk)| == 1
            && (forall b <- EntryTargets(drain, hash, pk) :: b in EntryTargets(dual, hash, pk) && b >= next)
            && EntryTargets(Finish(dir, dual.split.value), hash, pk) == EntryTargets(drain, hash, pk)
  {
    var dual := Begin(dir, e, next);
    BeginEntry(dir, e, next, next + FreshCount(dir, e));
    var b := EntryTargets(e, hash, pk)[0];
    assert b in e.buckets && b in EntryReads(e);
    assert EntryTargets(dual, hash, pk)[if dir.Split? then 0 else 1] == b;
    var drain := ToDrain(dir, dual);
    var t := EntryTargets(drain, hash, pk)[0];
    assert EntryTargets(dual, hash, pk)[if dir.Split? then 1 else 0] == t;
  }

  // ----- range buckets ------------------------------------------------------------------

  predicate RangeContains(rb: RangeBucket, s: Score) { rb.lo.LessEq(s) && s.Less(rb.hi) }

  predicate RangeOverlaps(rb: RangeBucket, lo: Score, hi: Score) { rb.lo.LessEq(hi) && lo.LessEq(rb.hi) }

  /** Write targets inside the bucket that contains the score. */
  function BucketTargets(rb: RangeBucket, s: Score): seq<nat> {
    if |rb.children| == 2 then
      var child := if RangeContains(rb.children[1], s) then rb.children[1] else rb.children[0];
      match rb.state
      case Splitting => [rb.idx, child.idx]
      case Merging => [rb.children[0].idx, rb.idx]
      case Draining => [child.idx]
      case MergeDrain => [rb.children[0].idx]
      case _ => [rb.idx]
    else
      [rb.idx]
  }

  function BucketReads(rb: RangeBucket): seq<nat> {
    if |rb.children| == 2 then
      if rb.state == MergeDrain then [rb.idx, rb.children[0].idx]
      else [rb.idx, rb.children[0].idx, rb.children[1].idx]
    else
      [rb.idx]
  }

  /** The first interval that contains the score. */
  function Find(ranges: seq<RangeBucket>, s: Score): Option<RangeBucket> {
    if ranges == [] then None
    else if RangeContains(ranges[0], s) then Some(ranges[0])
    else Find(ranges[1..], s)
  }

  function WriteTargetsRange(d: Doc, s: Score): seq<nat>
    requires d.ranges != []
  {
    match Find(d.ranges, s)
    case Some(rb) => BucketTargets(rb, s)
    case None => [d.ranges[0].idx]
  }

  function ReadsOver(ranges: seq<RangeBucket>, lo: Score, hi: Score): seq<nat> {
    if ranges == [] then []
    else (if RangeOverlaps(ranges[0], lo, hi) then BucketReads(ranges[0]) else []) + ReadsOver(ranges[1..], lo, hi)
  }

  function ReadBucketsRange(d: Doc, lo: Score, hi: Score): seq<nat> { ReadsOver(d.ranges, lo, hi) }

  /** Contiguous half-open intervals from `lo` to `hi`; an interval may be empty. */
  predicate Chain(ranges: seq<RangeBucket>, lo: Score, hi: Score) {
    if ranges == [] then lo == hi
    else ranges[0].lo == lo && lo.LessEq(ranges[0].hi) && Chain(ranges[1..], ranges[0].hi, hi)
  }

  predicate Partition(ranges: seq<RangeBucket>) { ranges != [] && Chain(ranges, NegInf, PosInf) }

  lemma {:induction false} ChainAppend(a: seq<RangeBucket>, b: seq<RangeBucket>, lo: Score, mid: Score, hi: Score)
    requires Chain(a, lo, mid) && Chain(b, mid, hi)
    ensures Chain(a + b, lo, hi)
  {
    if a == [] {
      assert a + b == b;
    } else {
      assert (a + b)[1..] == a[1..] + b;
      ChainAppend(a[1..], b, a[0].hi, mid, hi);
    }
  }

  lemma {:induction false} ChainOrdered(ranges: seq<RangeBucket>, lo: Score, hi: Score)
    requires Chain(ranges, lo, hi)
    ensures lo.LessEq(hi)
    ensures forall rb <- ranges :: lo.LessEq(rb.lo) && rb.lo.LessEq(rb.hi) && rb.hi.LessEq(hi)
  {
    if ranges != [] {
      ChainOrdered(ranges[1..], ranges[0].hi, hi);
      forall rb | rb in ranges ensures lo.LessEq(rb.lo) && rb.lo.LessEq(rb.hi) && rb.hi.LessEq(hi) {
        assert rb == ranges[0] || rb in ranges[1..];
      }
    }
  }

  /** A score inside the chain lies in exactly one interval, and Find returns that one. */
  lemma {:induction false} ChainFinds(ranges: seq<RangeBucket>, lo: Score, hi: Score, s: Score)
    requires Chain(ranges, lo, hi) && lo.LessEq(s) && s.Less(hi)
    ensures Find(ranges, s).Some? && Find(ranges, s).value in ranges && RangeContains(Find(ranges, s).value, s)
    ensures forall rb <- ranges :: RangeContains(rb, s) ==> rb == Find(ranges, s).value
  {
    var first, rest := ranges[0], ranges[1..];
    ChainOrdered(rest, first.hi, hi);
    if RangeContains(first, s) {
      forall rb | rb in rest ensures !RangeContains(rb, s) {
        assert first.hi.LessEq(rb.lo);
      }
    } else {
      ChainFinds(rest, first.hi, hi, s);
    }
    forall rb | rb in ranges && RangeContains(rb, s) ensures rb == Find(ranges, s).value {
      assert rb == first || rb in rest;
    }
  }

  /** No interval contains a score at or above the upper end. */
  lemma {:induction false} FindAtEnd(ranges: seq<RangeBucket>, lo: Score, hi: Score)
    requires Chain(ranges, lo, hi)
    ensures Find(ranges, hi).None?
  {
    if ranges != [] {
      ChainOrdered(ranges[1..], ranges[0].hi, hi);
      FindAtEnd(ranges[1..], ranges[0].hi, hi);
    }
  }

  lemma {:induction false} ReadsInclude(ranges: seq<RangeBucket>, lo: Score, hi: Score, rb: RangeBucket)
    requires rb in ranges && RangeOverlaps(rb, lo, hi)
    ensures forall b <- BucketReads(rb) :: b in ReadsOver(ranges, lo, hi)
  {
    if rb != ranges[0] {
      ReadsInclude(ranges[1..], lo, hi, rb);
    }
  }

  lemma {:induction false} ReadsComeFrom(ranges: seq<RangeBucket>, lo: Score, hi: Score, b: nat)
      returns (rb: RangeBucket)
    requires b in ReadsOver(ranges, lo, hi)
    ensures rb in ranges && RangeOverlaps(rb, lo, hi) && b in BucketReads(rb)
  {
    if RangeOverlaps(ranges[0], lo, hi) && b in BucketReads(ranges[0]) {
      rb := ranges[0];
    } else {
      rb := ReadsComeFrom(ranges[1..], lo, hi, b);
    }
  }

  /** For a score below +inf, every write target is read by any query whose interval holds it. */
  lemma RangeWriteWithinRead(d: Doc, s: Score, lo: Score, hi: Score)
    requires Partition(d.ranges) && s != PosInf && lo.LessEq(s) && s.LessEq(hi)
    ensures forall b <- WriteTargetsRange(d, s) :: b in ReadBucketsRange(d, lo, hi)
  {
    ChainFinds(d.ranges, NegInf, PosInf, s);
    var rb := Find(d.ranges, s).value;
    ReadsInclude(d.ranges, lo, hi, rb);
  }

  /** Bucket numbers are used once, as the allocator guarantees. */
  predicate DistinctNumbers(ranges: seq<RangeBucket>) {
    forall i, j :: 0 <= i < |ranges| && 0 <= j < |ranges| && i != j ==>
      ranges[i].idx != ranges[j].idx && ranges[i].idx !in BucketReads(ranges[j])
  }

  /**
   * At +inf itself no half-open interval matches and the write falls back to the first
   * bucket, which a point query at +inf visits exactly when that bucket reaches +inf.
   */
  lemma RangeWriteAtInfinity(d: Doc)
    requires Partition(d.ranges) && DistinctNumbers(d.ranges)
    ensures WriteTargetsRange(d, PosInf) == [d.ranges[0].idx]
    ensures d.ranges[0].idx in ReadBucketsRange(d, PosInf, PosInf) <==> d.ranges[0].hi == PosInf
  {
    var ranges := d.ranges;
    FindAtEnd(ranges, NegInf, PosInf);
    if ranges[0].hi == PosInf {
      ReadsInclude(ranges, PosInf, PosInf, ranges[0]);
      assert BucketReads(ranges[0])[0] == ranges[0].idx;
    }
    if ranges[0].idx in ReadBucketsRange(d, PosInf, PosInf) {
      var rb := ReadsComeFrom(ranges, PosInf, PosInf, ranges[0].idx);
      var j :| 0 <= j < |ranges| && ranges[j] == rb;
      assert j == 0;
    }
  }
}
