/**
 * What every step of a range split or merge keeps: the stored list stays well formed, every
 * member stays inside the interval of a bucket that readers visit, and readers find the same
 * living members before and after.
 */
module RangeSafety {
  import opened Wrappers
  import opened BucketMap
  import opened WritePath
  import opened Buckets
  import opened RangeShape

  function RK(id: string, b: nat): Key { RangeKey(id, b) }

  ghost predicate Has(zs: Zsets, k: Key, m: Member, s: Score) { m in At(zs, k) && At(zs, k)[m] == s }

  /** The bucket holds only members whose score its interval contains. */
  ghost predicate Inside(zs: Zsets, id: string, rb: RangeBucket) {
    forall m: Member, s: Score :: Has(zs, RK(id, rb.idx), m, s) ==> RangeContains(rb, s)
  }

  ghost predicate Placed(zs: Zsets, id: string, ranges: seq<RangeBucket>) {
    forall x <- ranges :: Inside(zs, id, x) && forall c <- x.children :: Inside(zs, id, c)
  }

  /** A member's score follows from the column value it is stamped for, so copies agree. */
  ghost predicate OneScore(zs: Zsets, id: string) {
    forall m: Member, b: nat, b': nat, s: Score, s': Score ::
      Has(zs, RK(id, b), m, s) && Has(zs, RK(id, b'), m, s') ==> s == s'
  }

  ghost predicate FreshEmpty(zs: Zsets, id: string, next: nat) {
    forall b: nat :: next <= b ==> At(zs, RK(id, b)) == map[]
  }

  ghost predicate RangesSound(d: Doc, zs: Zsets, id: string) {
    && Stored(d.ranges, d.next) && Placed(zs, id, d.ranges) && OneScore(zs, id) && FreshEmpty(zs, id, d.next)
  }

  /** A read at the member's score visits a bucket that holds it. */
  ghost predicate Held(zs: Zsets, id: string, ranges: seq<RangeBucket>, m: Member, s: Score) {
    exists b <- ReadsOver(ranges, s, s) :: Has(zs, RK(id, b), m, s)
  }

  /** Readers find the same living members, each at its score. */
  ghost predicate SameLiving(zs: Zsets, ranges: seq<RangeBucket>, zs': Zsets, ranges': seq<RangeBucket>, id: string,
      rows: set<string>) {
    forall m: Member, s: Score :: m.pk in rows ==> (Held(zs, id, ranges, m, s) <==> Held(zs', id, ranges', m, s))
  }

  /** Some bucket that the list mentions holds the member with this score, wherever its interval is. */
  ghost predicate Mentioned(zs: Zsets, id: string, ranges: seq<RangeBucket>, m: Member, s: Score) {
    exists x <- ranges, b <- BucketReads(x) :: Has(zs, RK(id, b), m, s)
  }

  ghost predicate SameMentioned(zs: Zsets, ranges: seq<RangeBucket>, zs': Zsets, ranges': seq<RangeBucket>, id: string,
      rows: set<string>) {
    forall m: Member, s: Score ::
      m.pk in rows ==> (Mentioned(zs, id, ranges, m, s) <==> Mentioned(zs', id, ranges', m, s))
  }

  // ----- a pass over one bucket -----------------------------------------------------------------

  /** Every member goes, with its score, to a child whose interval contains it. */
  ghost predicate RoutesInto(zs: Zsets, id: string, x: RangeBucket, route: Route) {
    forall m: Member, s: Score ::
      Has(zs, RK(id, x.idx), m, s) ==> exists c <- x.children ::
          route(m, s) == (RK(id, c.idx), s) && RangeContains(c, s)
  }

  lemma SameChild(x: RangeBucket, c: RangeBucket, y: RangeBucket, d: RangeBucket)
    requires Apart(x, y) && Proper(x)
    requires c in x.children && d in y.children && c.idx == d.idx
    ensures c == d
  {
    hide Chain;
    assert c == x.children[0] || c == x.children[1];
    assert d == x.children[0] || d == x.children[1];
  }

  lemma HasAfter(zs: Zsets, zs': Zsets, id: string, x: RangeBucket, rows: set<string>, route: Route, b: nat,
      m: Member, s: Score)
    requires Moved(zs, zs', RK(id, x.idx), At(zs, RK(id, x.idx)), rows, route) && RoutesInto(zs, id, x, route)
    requires OneScore(zs, id)
    ensures MovedAt(zs, zs', id, x, rows, route, b, m, s)
  {
    hide At, RoutesInto, OneScore;
    var from, k := RK(id, x.idx), RK(id, b);
    var source := At(zs, from);
    if b != x.idx {
      assert At(zs', k) == At(zs, k) + Routed(source, rows, route, k);
      if m in source {
        KeepsScore(zs, id, x, route, b, m);
      }
    } else {
      assert At(zs', from) == source - source.Keys;
    }
  }

  /** A member moves with its score, which is the one it has wherever else it is. */
  lemma KeepsScore(zs: Zsets, id: string, x: RangeBucket, route: Route, b: nat, m: Member)
    requires RoutesInto(zs, id, x, route) && OneScore(zs, id) && m in At(zs, RK(id, x.idx))
    ensures route(m, At(zs, RK(id, x.idx))[m]).1 == At(zs, RK(id, x.idx))[m]
    ensures m in At(zs, RK(id, b)) ==> At(zs, RK(id, b))[m] == At(zs, RK(id, x.idx))[m]
  {
    hide At;
    assert Has(zs, RK(id, x.idx), m, At(zs, RK(id, x.idx))[m]);
    assert m in At(zs, RK(id, b)) ==> Has(zs, RK(id, b), m, At(zs, RK(id, b))[m]);
  }

  lemma PassKeeps(d: Doc, zs: Zsets, zs': Zsets, id: string, x: RangeBucket, rows: set<string>, route: Route)
    requires RangesSound(d, zs, id) && x in d.ranges && RoutesInto(zs, id, x, route)
    requires Moved(zs, zs', RK(id, x.idx), At(zs, RK(id, x.idx)), rows, route)
    ensures RangesSound(d, zs', id) && SameLiving(zs, d.ranges, zs', d.ranges, id, rows)
    ensures At(zs', RK(id, x.idx)) == map[]
  {
    hide Moved, RangeContains, Partition, Proper, Has, RoutesInto, At, BucketReads, Placed, SameMentioned, PassMoved;
    AllAfter(zs, zs', id, x, rows, route);
    PassPlaces(d, zs, zs', id, x, rows, route);
    PassHolds(d, zs, zs', id, x, rows, route);
    PassEmpties(d, zs, zs', id, x, rows, route);
    AllInSight(d, zs, d, zs', id, rows);
  }

  lemma AllAfter(zs: Zsets, zs': Zsets, id: string, x: RangeBucket, rows: set<string>, route: Route)
    requires Moved(zs, zs', RK(id, x.idx), At(zs, RK(id, x.idx)), rows, route) && RoutesInto(zs, id, x, route)
    requires OneScore(zs, id)
    ensures PassMoved(zs, zs', id, x, rows, route)
  {
    hide Moved, Has, RoutesInto, OneScore;
    forall b: nat, m: Member, s: Score ensures MovedAt(zs, zs', id, x, rows, route, b, m, s) {
      HasAfter(zs, zs', id, x, rows, route, b, m, s);
    }
  }

  lemma PassEmpties(d: Doc, zs: Zsets, zs': Zsets, id: string, x: RangeBucket, rows: set<string>, route: Route)
    requires Stored(d.ranges, d.next) && FreshEmpty(zs, id, d.next)
    requires x in d.ranges && RoutesInto(zs, id, x, route) && PassMoved(zs, zs', id, x, rows, route)
    ensures FreshEmpty(zs', id, d.next) && At(zs', RK(id, x.idx)) == map[]
  {
    hide RangeContains, Partition, Proper, Has, RoutesInto, At;
    forall b: nat | d.next <= b ensures At(zs', RK(id, b)) == map[] {
      forall m: Member, s: Score ensures !Has(zs', RK(id, b), m, s) {
        NothingHas(zs, RK(id, b), m, s);
        assert MovedAt(zs, zs', id, x, rows, route, b, m, s);
        if m.pk in rows && Has(zs, RK(id, x.idx), m, s) {
          var c := ChildFor(zs, id, x, route, m, s);
        }
      }
      EmptyAt(zs', RK(id, b));
    }
    forall m: Member, s: Score ensures !Has(zs', RK(id, x.idx), m, s) {
      assert MovedAt(zs, zs', id, x, rows, route, x.idx, m, s);
    }
    EmptyAt(zs', RK(id, x.idx));
  }

  lemma NothingHas(zs: Zsets, k: Key, m: Member, s: Score)
    requires At(zs, k) == map[]
    ensures !Has(zs, k, m, s)
  {
  }

  lemma EmptyAt(zs: Zsets, k: Key)
    requires forall m: Member, s: Score :: !Has(zs, k, m, s)
    ensures At(zs, k) == map[]
  {
    hide At;
    forall m ensures m !in At(zs, k) {
      assert m in At(zs, k) ==> Has(zs, k, m, At(zs, k)[m]);
    }
  }

  lemma ChildFor(zs: Zsets, id: string, x: RangeBucket, route: Route, m: Member, s: Score) returns (c: RangeBucket)
    requires RoutesInto(zs, id, x, route) && Has(zs, RK(id, x.idx), m, s)
    ensures c in x.children && route(m, s) == (RK(id, c.idx), s) && RangeContains(c, s)
  {
    c :| c in x.children && route(m, s) == (RK(id, c.idx), s) && RangeContains(c, s);
  }

  ghost predicate MovedAt(zs: Zsets, zs': Zsets, id: string, x: RangeBucket, rows: set<string>, route: Route, b: nat,
      m: Member, s: Score) {
    Has(zs', RK(id, b), m, s) <==>
    && b != x.idx
    && (Has(zs, RK(id, b), m, s) || (m.pk in rows && Has(zs, RK(id, x.idx), m, s) && route(m, s).0 == RK(id, b)))
  }

  ghost predicate PassMoved(zs: Zsets, zs': Zsets, id: string, x: RangeBucket, rows: set<string>, route: Route) {
    forall b: nat, m: Member, s: Score :: MovedAt(zs, zs', id, x, rows, route, b, m, s)
  }

  lemma ComesFrom(zs: Zsets, zs': Zsets, id: string, x: RangeBucket, rows: set<string>, route: Route, b: nat,
      m: Member, s: Score) returns (a: nat)
    requires PassMoved(zs, zs', id, x, rows, route) && Has(zs', RK(id, b), m, s)
    ensures Has(zs, RK(id, a), m, s) && b != x.idx
    ensures (a == b || (a == x.idx && m.pk in rows && route(m, s).0 == RK(id, b)))
  {
    hide Has;
    assert MovedAt(zs, zs', id, x, rows, route, b, m, s);
    a := if Has(zs, RK(id, b), m, s) then b else x.idx;
  }

  lemma PassPlaces(d: Doc, zs: Zsets, zs': Zsets, id: string, x: RangeBucket, rows: set<string>, route: Route)
    requires RangesSound(d, zs, id) && x in d.ranges && RoutesInto(zs, id, x, route)
    requires PassMoved(zs, zs', id, x, rows, route)
    ensures Placed(zs', id, d.ranges) && OneScore(zs', id)
  {
    hide RangeContains, Partition, Has, RoutesInto, FreshEmpty, Proper;
    forall m: Member, b: nat, b': nat, s: Score, s': Score | Has(zs', RK(id, b), m, s) && Has(zs', RK(id, b'), m, s')
      ensures s == s'
    {
      var a := ComesFrom(zs, zs', id, x, rows, route, b, m, s);
      var a' := ComesFrom(zs, zs', id, x, rows, route, b', m, s');
    }
    forall y | y in d.ranges ensures Inside(zs', id, y) && forall c <- y.children :: Inside(zs', id, c) {
      forall m: Member, s: Score | Has(zs', RK(id, y.idx), m, s) ensures RangeContains(y, s) {
        assert MovedAt(zs, zs', id, x, rows, route, y.idx, m, s);
        if !Has(zs, RK(id, y.idx), m, s) {
          var c := ChildFor(zs, id, x, route, m, s);
          assert false;
        }
      }
      forall e, m: Member, s: Score | e in y.children && Has(zs', RK(id, e.idx), m, s) ensures RangeContains(e, s) {
        assert MovedAt(zs, zs', id, x, rows, route, e.idx, m, s);
        if !Has(zs, RK(id, e.idx), m, s) {
          var c := ChildFor(zs, id, x, route, m, s);
          SameChild(x, c, y, e);
        }
      }
    }
  }

  lemma StaysHeld(zs: Zsets, zs': Zsets, id: string, x: RangeBucket, rows: set<string>, route: Route, b: nat,
      m: Member, s: Score)
    requires PassMoved(zs, zs', id, x, rows, route) && b != x.idx
    requires Has(zs, RK(id, b), m, s) || (m.pk in rows && Has(zs, RK(id, x.idx), m, s) && route(m, s).0 == RK(id, b))
    ensures Has(zs', RK(id, b), m, s)
  {
    hide Has;
    assert MovedAt(zs, zs', id, x, rows, route, b, m, s);
  }

  lemma PassHolds(d: Doc, zs: Zsets, zs': Zsets, id: string, x: RangeBucket, rows: set<string>, route: Route)
    requires RangesSound(d, zs, id) && x in d.ranges && RoutesInto(zs, id, x, route)
    requires PassMoved(zs, zs', id, x, rows, route)
    ensures SameMentioned(zs, d.ranges, zs', d.ranges, id, rows)
  {
    hide RangeContains, Partition, Has, RoutesInto, Placed, OneScore, FreshEmpty, BucketReads, Proper, Numbered,
         PassMoved;
    OwnIsRead(x);
    forall m: Member, s: Score | m.pk in rows
      ensures Mentioned(zs, id, d.ranges, m, s) <==> Mentioned(zs', id, d.ranges, m, s)
    {
      if Mentioned(zs, id, d.ranges, m, s) {
        var y, b :| y in d.ranges && b in BucketReads(y) && Has(zs, RK(id, b), m, s);
        if b == x.idx {
          var c := ChildFor(zs, id, x, route, m, s);
          ChildIsRead(x, c);
          ChildIsNew(d.ranges, d.next, x, c);
          StaysHeld(zs, zs', id, x, rows, route, c.idx, m, s);
        } else {
          StaysHeld(zs, zs', id, x, rows, route, b, m, s);
        }
      }
      if Mentioned(zs', id, d.ranges, m, s) {
        var y, b :| y in d.ranges && b in BucketReads(y) && Has(zs', RK(id, b), m, s);
        var a := ComesFrom(zs, zs', id, x, rows, route, b, m, s);
      }
    }
  }

  lemma ChildIsNew(ranges: seq<RangeBucket>, next: nat, x: RangeBucket, c: RangeBucket)
    requires Numbered(ranges, next) && x in ranges && c in x.children
    ensures c.idx != x.idx
  {
  }

  lemma OwnIsRead(x: RangeBucket)
    ensures x.idx in BucketReads(x)
  {
    assert BucketReads(x)[0] == x.idx;
  }

  lemma ChildIsRead(x: RangeBucket, c: RangeBucket)
    requires Proper(x) && c in x.children
    ensures c.idx in BucketReads(x)
  {
    assert BucketReads(x)[1] == x.children[0].idx;
    if x.state != MergeDrain {
      assert BucketReads(x)[2] == x.children[1].idx;
    }
  }

  /** Readers of a bucket visit it and its children, nothing else. */
  lemma ReadsAre(x: RangeBucket, b: nat)
    requires Proper(x)
    ensures b in BucketReads(x) <==> b == x.idx || exists c <- x.children :: b == c.idx
  {
    OwnIsRead(x);
    forall c | c in x.children ensures c.idx in BucketReads(x) {
      ChildIsRead(x, c);
    }
  }

  /** A read at one score visits what the buckets around it are read by. */
  lemma {:induction false} ReadsAt(ranges: seq<RangeBucket>, lo: Score, hi: Score, b: nat)
    ensures b in ReadsOver(ranges, lo, hi) <==> exists x <- ranges :: RangeOverlaps(x, lo, hi) && b in BucketReads(x)
  {
    hide RangeOverlaps, BucketReads;
    if ranges != [] {
      ReadsAt(ranges[1..], lo, hi, b);
      assert forall x :: x in ranges <==> x == ranges[0] || x in ranges[1..];
    }
  }

  /** A read over an interval visits whatever a read at a score in it visits. */
  lemma WiderReadsToo(ranges: seq<RangeBucket>, lo: Score, s: Score, hi: Score, b: nat)
    requires lo.LessEq(s) && s.LessEq(hi) && b in ReadsOver(ranges, s, s)
    ensures b in ReadsOver(ranges, lo, hi)
  {
    hide BucketReads;
    ReadsAt(ranges, s, s, b);
    ReadsAt(ranges, lo, hi, b);
  }

  /** A bucket around the score mentions the member, if any bucket does. */
  lemma AroundIt(d: Doc, zs: Zsets, id: string, x: RangeBucket, m: Member, s: Score) returns (y: RangeBucket)
    requires RangesSound(d, zs, id) && x in d.ranges && HeldBy(zs, id, x, m, s)
    ensures y in d.ranges && RangeContains(y, s) && HeldBy(zs, id, y, m, s)
  {
    hide Has, Partition, Numbered, OneScore, FreshEmpty;
    y := x;
    if c :| c in x.children && Has(zs, RK(id, c.idx), m, s) {
      assert RangeContains(c, s);
      if InSplit(x) {
        ChildInside(x, c, s);
      } else {
        MergeChild(x, c);
        assert MateFor(d.ranges, x, s);
        y :| y in d.ranges && Mates(x, y) && RangeContains(y, s);
        assert c in y.children;
      }
    } else {
      assert Has(zs, RK(id, x.idx), m, s);
    }
  }

  lemma ChildInside(x: RangeBucket, c: RangeBucket, s: Score)
    requires InSplit(x) && Proper(x) && c in x.children && RangeContains(c, s)
    ensures RangeContains(x, s)
  {
    ChainOrdered(x.children, x.lo, x.hi);
  }

  lemma MergeChild(x: RangeBucket, c: RangeBucket)
    requires !InSplit(x) && Proper(x) && c in x.children
    ensures InMerge(x) && x.children != [] && c == x.children[0]
  {
    hide Chain;
    assert InMerge(x);
    assert forall e <- x.children :: e == x.children[0];
  }

  /** In a sound state a member that the list mentions is where a read at its score looks. */
  lemma InSight(d: Doc, zs: Zsets, id: string, m: Member, s: Score)
    requires RangesSound(d, zs, id)
    ensures Held(zs, id, d.ranges, m, s) <==> Mentioned(zs, id, d.ranges, m, s)
  {
    assert forall x <- d.ranges :: Proper(x);
    hide Has, Proper, BucketReads, RangesSound, ReadsOver;
    HeldIs(zs, id, d.ranges, m, s);
    if Mentioned(zs, id, d.ranges, m, s) {
      var x :| x in d.ranges && HeldBy(zs, id, x, m, s);
      var y := AroundIt(d, zs, id, x, m, s);
      var b :| b in BucketReads(y) && Has(zs, RK(id, b), m, s) by { HeldReads(zs, id, y, m, s); }
      ReadsAt(d.ranges, s, s, b);
    }
    if Held(zs, id, d.ranges, m, s) {
      var b :| b in ReadsOver(d.ranges, s, s) && Has(zs, RK(id, b), m, s);
      ReadsAt(d.ranges, s, s, b);
    }
  }

  lemma HeldReads(zs: Zsets, id: string, y: RangeBucket, m: Member, s: Score)
    requires Proper(y) && HeldBy(zs, id, y, m, s)
    ensures exists b <- BucketReads(y) :: Has(zs, RK(id, b), m, s)
  {
    hide Has, BucketReads, Proper;
    OwnIsRead(y);
    if c :| c in y.children && Has(zs, RK(id, c.idx), m, s) { ChildIsRead(y, c); }
  }

  lemma AllInSight(d: Doc, zs: Zsets, d': Doc, zs': Zsets, id: string, rows: set<string>)
    requires RangesSound(d, zs, id) && RangesSound(d', zs', id) && SameMentioned(zs, d.ranges, zs', d'.ranges, id, rows)
    ensures SameLiving(zs, d.ranges, zs', d'.ranges, id, rows)
  {
    hide RangesSound, Held, Mentioned;
    forall m: Member, s: Score | m.pk in rows ensures Held(zs, id, d.ranges, m, s) <==> Held(zs', id, d'.ranges, m, s) {
      InSight(d, zs, id, m, s);
      InSight(d', zs', id, m, s);
    }
  }

  // ----- the steps on the document ----------------------------------------------------------------

  /** The bucket or one of its children holds the member. */
  ghost predicate HeldBy(zs: Zsets, id: string, x: RangeBucket, m: Member, s: Score) {
    Has(zs, RK(id, x.idx), m, s) || exists c <- x.children :: Has(zs, RK(id, c.idx), m, s)
  }

  lemma HeldIs(zs: Zsets, id: string, ranges: seq<RangeBucket>, m: Member, s: Score)
    requires forall x <- ranges :: Proper(x)
    ensures Mentioned(zs, id, ranges, m, s) <==> exists x <- ranges :: HeldBy(zs, id, x, m, s)
  {
    hide Proper, Has, BucketReads;
    if x :| x in ranges && HeldBy(zs, id, x, m, s) {
      OwnIsRead(x);
      if c :| c in x.children && Has(zs, RK(id, c.idx), m, s) { ChildIsRead(x, c); }
    }
    if Mentioned(zs, id, ranges, m, s) {
      var x, b :| x in ranges && b in BucketReads(x) && Has(zs, RK(id, b), m, s);
      ReadsAre(x, b);
    }
  }

  /** Every bucket's holdings reappear under some bucket of the other list. */
  ghost predicate Carries(zs: Zsets, id: string, a: seq<RangeBucket>, b: seq<RangeBucket>) {
    forall x <- a, m: Member, s: Score :: HeldBy(zs, id, x, m, s) ==> exists y <- b :: HeldBy(zs, id, y, m, s)
  }

  lemma CarriedBothWays(zs: Zsets, id: string, a: seq<RangeBucket>, b: seq<RangeBucket>, rows: set<string>)
    requires (forall x <- a :: Proper(x)) && (forall y <- b :: Proper(y)) && Carries(zs, id, a, b)
    requires Carries(zs, id, b, a)
    ensures SameMentioned(zs, a, zs, b, id, rows)
  {
    hide Proper, Mentioned, HeldBy;
    forall m: Member, s: Score | m.pk in rows ensures Mentioned(zs, id, a, m, s) <==> Mentioned(zs, id, b, m, s) {
      HeldIs(zs, id, a, m, s);
      HeldIs(zs, id, b, m, s);
    }
  }

  /** Adding fresh, hence empty, children to idle buckets. */
  lemma FreshKidsSound(d: Doc, d': Doc, zs: Zsets, id: string, rows: set<string>, l: nat, r: nat, st: State,
      kids: seq<RangeBucket>)
    requires RangesSound(d, zs, id) && d.next <= d'.next && kids != [] && forall k <- kids :: d.next <= k.idx < d'.next
    requires st in {Splitting, Merging} && (l == r || st == Merging)
    requires forall x <- d.ranges :: x.idx == l || x.idx == r ==>
               x.children == [] && Proper(Turn(x, l, r, st, Some(kids)))
    requires st == Merging ==> CoveredBy(d.ranges, l, r, kids[0])
    requires d'.ranges == Turned(d.ranges, l, r, st, Some(kids))
    ensures RangesSound(d', zs, id) && SameLiving(zs, d.ranges, zs, d'.ranges, id, rows)
  {
    hide Proper, Partition, Numbered, RangeContains, At, SameMentioned, OneScore, FreshEmpty;
    FreshKids(d.ranges, l, r, st, kids, d.next, d'.next);
    FreshStays(zs, id, d.next, d'.next);
    forall k | k in kids ensures forall m: Member, s: Score :: !Has(zs, RK(id, k.idx), m, s) {
      FreshHasNothing(zs, id, d.next, k.idx);
    }
    hide Has;
    forall y | y in d'.ranges ensures Inside(zs, id, y) && forall c <- y.children :: Inside(zs, id, c) {
      var x := TurnedFrom(d.ranges, l, r, st, Some(kids), y);
      SameInterval(zs, id, x, y);
    }
    forall y, m: Member, s: Score | y in d'.ranges && HeldBy(zs, id, y, m, s)
      ensures exists x <- d.ranges :: HeldBy(zs, id, x, m, s)
    {
      var x := TurnedFrom(d.ranges, l, r, st, Some(kids), y);
    }
    forall x, m: Member, s: Score | x in d.ranges && HeldBy(zs, id, x, m, s)
      ensures exists y <- d'.ranges :: HeldBy(zs, id, y, m, s)
    {
      TurnedHas(d.ranges, l, r, st, Some(kids), x);
    }
    CarriedBothWays(zs, id, d.ranges, d'.ranges, rows);
    AllInSight(d, zs, d', zs, id, rows);
  }

  lemma FreshHasNothing(zs: Zsets, id: string, next: nat, b: nat)
    requires FreshEmpty(zs, id, next) && next <= b
    ensures forall m: Member, s: Score :: !Has(zs, RK(id, b), m, s)
  {
  }

  lemma FreshStays(zs: Zsets, id: string, next: nat, next': nat)
    requires FreshEmpty(zs, id, next) && next <= next'
    ensures FreshEmpty(zs, id, next')
  {
  }

  lemma NewStateSound(d: Doc, d': Doc, zs: Zsets, id: string, rows: set<string>, l: nat, r: nat, st: State)
    requires RangesSound(d, zs, id) && d'.next == d.next && st in {Draining, MergeDrain}
    requires forall x <- d.ranges :: x.idx == l || x.idx == r ==> if st == Draining then InSplit(x) else InMerge(x)
    requires d'.ranges == Turned(d.ranges, l, r, st, None)
    ensures RangesSound(d', zs, id) && SameLiving(zs, d.ranges, zs, d'.ranges, id, rows)
  {
    hide Proper, Partition, Numbered, RangeContains, At, SameMentioned, Has, OneScore, FreshEmpty, InSplit, InMerge;
    NewState(d.ranges, l, r, st, d.next);
    forall y | y in d'.ranges ensures Inside(zs, id, y) && forall c <- y.children :: Inside(zs, id, c) {
      var x := TurnedFrom(d.ranges, l, r, st, None, y);
      SameInterval(zs, id, x, y);
    }
    forall y, m: Member, s: Score | y in d'.ranges && HeldBy(zs, id, y, m, s)
      ensures exists x <- d.ranges :: HeldBy(zs, id, x, m, s)
    {
      var x := TurnedFrom(d.ranges, l, r, st, None, y);
    }
    forall x, m: Member, s: Score | x in d.ranges && HeldBy(zs, id, x, m, s)
      ensures exists y <- d'.ranges :: HeldBy(zs, id, y, m, s)
    {
      TurnedHas(d.ranges, l, r, st, None, x);
    }
    CarriedBothWays(zs, id, d.ranges, d'.ranges, rows);
    AllInSight(d, zs, d', zs, id, rows);
  }

  lemma SameInterval(zs: Zsets, id: string, x: RangeBucket, y: RangeBucket)
    requires Inside(zs, id, x) && x.idx == y.idx && x.lo == y.lo && x.hi == y.hi
    ensures Inside(zs, id, y)
  {
  }

  /** The emptied bucket gives way to its children. */
  lemma SplitDoneSound(d: Doc, d': Doc, zs: Zsets, id: string, rows: set<string>, x: RangeBucket)
    requires RangesSound(d, zs, id) && d'.next == d.next && x in d.ranges && InSplit(x)
    requires At(zs, RK(id, x.idx)) == map[]
    requires d'.ranges == Replaced(d.ranges, x.idx, x.children)
    ensures RangesSound(d', zs, id) && SameLiving(zs, d.ranges, zs, d'.ranges, id, rows)
  {
    SplitDone(d.ranges, x, d.next);
    assert forall m: Member, s: Score :: !Has(zs, RK(id, x.idx), m, s);
    SplitKidsIdle(x);
    hide Proper, Partition, Numbered, RangeContains, At, SameMentioned, Has, OneScore, FreshEmpty, Replaced, Leaf;
    forall y | y in d'.ranges ensures Inside(zs, id, y) && forall c <- y.children :: Inside(zs, id, c) {
      if y in x.children { assert y.children == []; }
    }
    forall a, m: Member, s: Score | a in d.ranges && HeldBy(zs, id, a, m, s)
      ensures exists b <- d'.ranges :: HeldBy(zs, id, b, m, s)
    {
      if a == x {
        var c :| c in x.children && Has(zs, RK(id, c.idx), m, s);
        assert c in d'.ranges && HeldBy(zs, id, c, m, s);
      }
    }
    forall b, m: Member, s: Score | b in d'.ranges && HeldBy(zs, id, b, m, s)
      ensures exists a <- d.ranges :: HeldBy(zs, id, a, m, s)
    {
      if b in x.children { assert b.children == [] && HeldBy(zs, id, x, m, s); }
    }
    CarriedBothWays(zs, id, d.ranges, d'.ranges, rows);
    AllInSight(d, zs, d', zs, id, rows);
  }

  lemma SplitKidsIdle(x: RangeBucket)
    requires Proper(x)
    ensures forall c <- x.children :: c.children == []
  {
    hide Chain;
    forall c | c in x.children ensures c.children == [] {
      assert c == x.children[0] || c == x.children[1];
    }
  }

  /** The two emptied halves give way to the merged bucket. */
  lemma MergeDoneSound(d: Doc, d': Doc, zs: Zsets, id: string, rows: set<string>, li: nat, ri: nat)
    requires RangesSound(d, zs, id) && d'.next == d.next && IsRight(d.ranges, li, ri) && Halves(d.ranges, li, ri)
    requires At(zs, RK(id, d.ranges[li].idx)) == map[] && At(zs, RK(id, d.ranges[ri].idx)) == map[]
    requires d'.ranges == AfterMerge(d.ranges, d.ranges[li].idx, d.ranges[ri].idx, d.ranges[li].children[0])
    ensures RangesSound(d', zs, id) && SameLiving(zs, d.ranges, zs, d'.ranges, id, rows)
  {
    MergeDone(d.ranges, li, ri, d.next);
    MergeDonePlaced(d, d', zs, id, li, ri);
    hide Stored, Placed, OneScore, FreshEmpty, AfterMerge, Halves, IsRight, SameMentioned, SameLiving, At;
    MergeDoneSame(d, d', zs, id, rows, li, ri);
    AllInSight(d, zs, d', zs, id, rows);
  }

  lemma MergeDonePlaced(d: Doc, d': Doc, zs: Zsets, id: string, li: nat, ri: nat)
    requires RangesSound(d, zs, id) && IsRight(d.ranges, li, ri) && Halves(d.ranges, li, ri)
    requires d'.ranges == AfterMerge(d.ranges, d.ranges[li].idx, d.ranges[ri].idx, d.ranges[li].children[0])
    ensures Placed(zs, id, d'.ranges)
  {
    var left := d.ranges[li];
    var merged := left.children[0];
    assert merged in left.children && merged.children == [] by { assert Proper(left); }
    hide Proper, Partition, Numbered, Has, RangeContains, OneScore, FreshEmpty, AfterMerge, Leaf, Halves, IsRight,
         Spanned;
    forall y | y in d'.ranges ensures Inside(zs, id, y) && forall c <- y.children :: Inside(zs, id, c) {
      AfterMergeFrom(d.ranges, left.idx, d.ranges[ri].idx, merged, y);
    }
  }

  lemma MergeDoneSame(d: Doc, d': Doc, zs: Zsets, id: string, rows: set<string>, li: nat, ri: nat)
    requires RangesSound(d, zs, id) && IsRight(d.ranges, li, ri) && Halves(d.ranges, li, ri)
    requires At(zs, RK(id, d.ranges[li].idx)) == map[] && At(zs, RK(id, d.ranges[ri].idx)) == map[]
    requires d'.ranges == AfterMerge(d.ranges, d.ranges[li].idx, d.ranges[ri].idx, d.ranges[li].children[0])
    requires forall y <- d'.ranges :: Proper(y)
    ensures SameMentioned(zs, d.ranges, zs, d'.ranges, id, rows)
  {
    var left, right := d.ranges[li], d.ranges[ri];
    var merged := left.children[0];
    assert forall m: Member, s: Score :: !Has(zs, RK(id, left.idx), m, s) && !Has(zs, RK(id, right.idx), m, s);
    SplitKidsIdle(left);
    assert left.children == right.children == [merged, merged];
    hide Proper, Partition, Numbered, RangeContains, At, SameMentioned, Has, OneScore, FreshEmpty, AfterMerge, Leaf,
         Halves, IsRight, Placed, Spanned;
    assert merged in left.children && merged.children == [];
    forall y ensures y in d'.ranges <==> (y in d.ranges && y.idx != left.idx && y.idx != right.idx) || y == merged {
      AfterMergeFrom(d.ranges, left.idx, right.idx, merged, y);
    }
    forall a, m: Member, s: Score | a in d.ranges && HeldBy(zs, id, a, m, s)
      ensures exists b <- d'.ranges :: HeldBy(zs, id, b, m, s)
    {
      OneOfTwo(d.ranges, d.next, a, left, right);
      if a == left || a == right {
        assert Has(zs, RK(id, merged.idx), m, s);
        assert merged in d'.ranges && HeldBy(zs, id, merged, m, s);
      }
    }
    forall b, m: Member, s: Score | b in d'.ranges && HeldBy(zs, id, b, m, s)
      ensures exists a <- d.ranges :: HeldBy(zs, id, a, m, s)
    {
      if b == merged { assert HeldBy(zs, id, left, m, s); }
    }
    CarriedBothWays(zs, id, d.ranges, d'.ranges, rows);
  }

  lemma OneOfTwo(ranges: seq<RangeBucket>, next: nat, a: RangeBucket, left: RangeBucket, right: RangeBucket)
    requires Numbered(ranges, next) && a in ranges && left in ranges && right in ranges
    ensures a.idx == left.idx ==> a == left
    ensures a.idx == right.idx ==> a == right
  {
    if a.idx == left.idx { IdxUnique(ranges, a, left); }
    if a.idx == right.idx { IdxUnique(ranges, a, right); }
  }

  lemma SameThroughout(zs: Zsets, a: seq<RangeBucket>, zs1: Zsets, b: seq<RangeBucket>, zs2: Zsets,
      c: seq<RangeBucket>, id: string, rows: set<string>)
    requires SameLiving(zs, a, zs1, b, id, rows) && SameLiving(zs1, b, zs2, c, id, rows)
    ensures SameLiving(zs, a, zs2, c, id, rows)
  {
    hide Held;
  }
}
