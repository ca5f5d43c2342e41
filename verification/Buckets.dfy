/** The index buckets as the store holds them, and the batch move the controller works with. */
module Buckets {
  import opened Wrappers
  import opened BucketMap
  import opened WritePath

  type Zset = map<Member, Score>
  type Zsets = map<Key, Zset>

  /** Where a member goes, and with which score. */
  type Route = (Member, Score) -> (Key, Score)

  datatype Target = Target(member: Member, key: Key, score: Score)

  function At(zs: Zsets, k: Key): Zset { if k in zs then zs[k] else map[] }

  function ZAdd(zs: Zsets, k: Key, m: Member, s: Score): Zsets { zs[k := At(zs, k)[m := s]] }
  function ZRem(zs: Zsets, k: Key, m: Member): Zsets { zs[k := At(zs, k) - {m}] }

  /** The living members among `moved` that the route sends to `k`. */
  function Routed(moved: Zset, rows: set<string>, route: Route, k: Key): Zset {
    map m <- moved | m.pk in rows && route(m, moved[m]).0 == k :: route(m, moved[m]).1
  }

  /** `moved` has left `from`; its living members are at their targets. */
  ghost predicate Moved(zs: Zsets, zs': Zsets, from: Key, moved: Zset, rows: set<string>, route: Route) {
    && At(zs', from) == At(zs, from) - moved.Keys
    && forall k: Key :: k != from ==> At(zs', k) == At(zs, k) + Routed(moved, rows, route, k)
  }

  ghost predicate LeavesFrom(moved: Zset, from: Key, route: Route) {
    forall m <- moved :: route(m, moved[m]).0 != from
  }

  lemma RoutedUnion(a: Zset, b: Zset, rows: set<string>, route: Route, k: Key)
    requires a.Keys !! b.Keys
    ensures Routed(a + b, rows, route, k) == Routed(a, rows, route, k) + Routed(b, rows, route, k)
  {
  }

  /** Moving two disjoint parts of a bucket one after the other moves their union. */
  lemma MovedTwice(zs: Zsets, zs1: Zsets, zs2: Zsets, from: Key, a: Zset, b: Zset, rows: set<string>, route: Route)
    requires Moved(zs, zs1, from, a, rows, route) && Moved(zs1, zs2, from, b, rows, route) && a.Keys !! b.Keys
    ensures Moved(zs, zs2, from, a + b, rows, route)
  {
    hide At, Routed;
    forall k: Key | k != from ensures At(zs2, k) == At(zs, k) + Routed(a + b, rows, route, k) {
      RoutedUnion(a, b, rows, route, k);
      assert At(zs2, k) == At(zs, k) + Routed(a, rows, route, k) + Routed(b, rows, route, k);
    }
    assert (a + b).Keys == a.Keys + b.Keys;
    assert At(zs2, from) == At(zs, from) - (a + b).Keys;
  }

  function PageKeys(page: seq<(Member, Score)>): set<Member> { set e <- page :: e.0 }

  /** Distinct members of the bucket, each with its score. */
  predicate IsPage(page: seq<(Member, Score)>, bucket: Zset) {
    && (forall e <- page :: e.0 in bucket && e.1 == bucket[e.0])
    && (forall i, j :: 0 <= i < j < |page| ==> page[i].0 != page[j].0)
  }

  lemma RemoveOne(z: Zset, m: Member)
    requires m in z
    ensures |z - {m}| == |z| - 1
  {
    assert (z - {m}).Keys == z.Keys - {m};
  }

  lemma NothingRead(bucket: Zset)
    ensures IsPage([], bucket) && bucket - PageKeys([]) == bucket
  {
  }

  lemma AllRead(page: seq<(Member, Score)>, bucket: Zset)
    requires IsPage(page, bucket) && bucket - PageKeys(page) == map[]
    ensures PageKeys(page) == bucket.Keys
  {
    forall m | m in bucket ensures m in PageKeys(page) {
      assert m !in (bucket - PageKeys(page));
    }
  }

  lemma PageGrows(page: seq<(Member, Score)>, bucket: Zset, m: Member)
    requires IsPage(page, bucket) && m in bucket && m !in PageKeys(page)
    ensures IsPage(page + [(m, bucket[m])], bucket)
    ensures PageKeys(page + [(m, bucket[m])]) == PageKeys(page) + {m}
    ensures bucket - PageKeys(page + [(m, bucket[m])]) == bucket - PageKeys(page) - {m}
  {
    var longer := page + [(m, bucket[m])];
    assert longer[|page|].0 == m;
    forall i | 0 <= i < |page| ensures page[i].0 != m {
      assert page[i] in page;
    }
    assert PageKeys(longer) == PageKeys(page) + {m};
  }

  class Store {
    var zsets: Zsets
    var rows: set<string>       // primary keys of the rows that exist

    constructor ()
      ensures zsets == map[] && rows == {}
    {
      zsets, rows := map[], {};
    }

    /** ZRANGE key 0 count-1: the first members of the bucket, whatever their order. */
    method ZRange(k: Key, count: nat) returns (page: seq<(Member, Score)>)
      ensures |page| == if |At(zsets, k)| < count then |At(zsets, k)| else count
      ensures IsPage(page, At(zsets, k))
      ensures |page| < count ==> PageKeys(page) == At(zsets, k).Keys
    {
      hide IsPage, PageKeys;
      page := [];
      var bucket := At(zsets, k);
      var rest := bucket;
      NothingRead(bucket);
      while rest != map[] && |page| < count
        invariant IsPage(page, bucket) && rest == bucket - PageKeys(page)
        invariant |page| + |rest| == |bucket| && |page| <= count
        decreases |rest|
      {
        var m :| m in rest;
        assert m in bucket && m !in PageKeys(page);
        RemoveOne(rest, m);
        PageGrows(page, bucket, m);
        page := page + [(m, bucket[m])];
        rest := rest - {m};
      }
      if rest == map[] {
        AllRead(page, bucket);
      }
    }

    /**
     * One batch: which members belong to living rows, then for each in turn the ZADD of a
     * living member to its target and the ZREM of every member from the old bucket.
     */
    method MigrateBatch(from: Key, batch: seq<Target>, ghost moved: Zset, ghost route: Route)
      requires LeavesFrom(moved, from, route)
      requires forall i, j :: 0 <= i < j < |batch| ==> batch[i].member != batch[j].member
      requires moved.Keys == set t <- batch :: t.member
      requires forall t <- batch :: t.member in moved && (t.key, t.score) == route(t.member, moved[t.member])
      modifies this`zsets
      ensures Moved(old(zsets), zsets, from, moved, rows, route)
    {
      hide Moved, FirstOf;
      var living := rows;
      var alive := seq(|batch|, i requires 0 <= i < |batch| => batch[i].member.pk in living);
      ghost var before, part: Zset := zsets, map[];
      NothingMoved(zsets, from, rows, route, batch, moved);
      for i := 0 to |batch|
        invariant Moved(before, zsets, from, part, rows, route)
        invariant FirstOf(batch, i, moved, part)
      {
        var t := batch[i];
        ghost var mid := zsets;
        assert t in batch && t.key != from by { assert t.member in moved; }
        MoveOne(from, t, alive[i], moved[t.member], route);
        NextPart(batch, i, moved, part);
        MovedTwice(before, mid, zsets, from, part, map[t.member := moved[t.member]], rows, route);
        part := part + map[t.member := moved[t.member]];
      }
      WholePart(batch, moved, part);
    }

    /** ZADD of a living member to its target and ZREM from the old bucket. */
    method MoveOne(from: Key, t: Target, alive: bool, ghost score: Score, ghost route: Route)
      requires t.key != from && (t.key, t.score) == route(t.member, score) && alive == (t.member.pk in rows)
      modifies this`zsets
      ensures Moved(old(zsets), zsets, from, map[t.member := score], rows, route)
    {
      hide Moved;
      ghost var before := zsets;
      if alive {
        zsets := ZAdd(zsets, t.key, t.member, t.score);
      }
      zsets := ZRem(zsets, from, t.member);
      OneMoves(before, zsets, from, t, score, rows, route);
    }

    /** One bucket emptied page by page; a full page means there may be more. */
    method MoveBucket(from: Key, route: Route, batch: nat)
      requires batch > 0 && LeavesFrom(At(zsets, from), from, route)
      modifies this`zsets
      ensures Moved(old(zsets), zsets, from, At(old(zsets), from), rows, route)
      ensures At(zsets, from) == map[]
    {
      hide Moved, IsPage;
      ghost var before := zsets;
      ghost var whole := At(before, from);
      ghost var done: Zset := map[];
      StartMoving(before, from, rows, route);
      var more := true;
      while more
        invariant Moved(before, zsets, from, done, rows, route)
        invariant done == whole - At(zsets, from).Keys && At(zsets, from) == whole - done.Keys
        invariant !more ==> At(zsets, from) == map[]
        decreases more, |At(zsets, from)|
      {
        ghost var mid := zsets;
        var page := ZRange(from, batch);
        if |page| == 0 {
          more := false;
        } else {
          var targets := seq(|page|, i requires 0 <= i < |page| => Target(page[i].0, route(page[i].0, page[i].1).0,
              route(page[i].0, page[i].1).1));
          ghost var moved := Selected(At(mid, from), PageKeys(page));
          PageTargets(page, At(mid, from), targets, moved, route);
          MigrateBatch(from, targets, moved, route);
          MoveMore(before, mid, zsets, from, done, moved, page, rows, route);
          done := done + moved;
          more := |page| >= batch;
        }
      }
      assert done == whole;
    }
  }

  /** `part` is what the first `i` items of the batch stand for. */
  ghost predicate FirstOf(batch: seq<Target>, i: nat, moved: Zset, part: Zset)
    requires i <= |batch|
  {
    && part.Keys == (set t <- batch[..i] :: t.member)
    && forall m <- part :: m in moved && part[m] == moved[m]
  }

  lemma NothingMoved(zs: Zsets, from: Key, rows: set<string>, route: Route, batch: seq<Target>, moved: Zset)
    ensures Moved(zs, zs, from, map[], rows, route) && FirstOf(batch, 0, moved, map[])
  {
    assert At(zs, from) - {} == At(zs, from);
  }

  lemma NextPart(batch: seq<Target>, i: nat, moved: Zset, part: Zset)
    requires i < |batch| && FirstOf(batch, i, moved, part) && batch[i].member in moved
    requires forall i, j :: 0 <= i < j < |batch| ==> batch[i].member != batch[j].member
    ensures batch[i].member !in part
    ensures FirstOf(batch, i + 1, moved, part + map[batch[i].member := moved[batch[i].member]])
  {
    assert batch[..i + 1] == batch[..i] + [batch[i]];
  }

  lemma WholePart(batch: seq<Target>, moved: Zset, part: Zset)
    requires FirstOf(batch, |batch|, moved, part) && moved.Keys == set t <- batch :: t.member
    ensures part == moved
  {
    assert batch[..|batch|] == batch;
    assert part.Keys == moved.Keys;
  }

  lemma OneMoves(zs: Zsets, zs': Zsets, from: Key, t: Target, s: Score, rows: set<string>, route: Route)
    requires (t.key, t.score) == route(t.member, s) && t.key != from
    requires zs' == ZRem(if t.member.pk in rows then ZAdd(zs, t.key, t.member, t.score) else zs, from, t.member)
    ensures Moved(zs, zs', from, map[t.member := s], rows, route)
  {
    var one: Zset := map[t.member := s];
    forall k: Key | k != from ensures At(zs', k) == At(zs, k) + Routed(one, rows, route, k) {
      if t.member.pk in rows && k == t.key {
        assert Routed(one, rows, route, k) == map[t.member := t.score];
      } else {
        assert Routed(one, rows, route, k) == map[];
      }
    }
  }

  function Selected(z: Zset, keys: set<Member>): Zset { map m <- z | m in keys :: z[m] }

  lemma StartMoving(zs: Zsets, from: Key, rows: set<string>, route: Route)
    ensures Moved(zs, zs, from, map[], rows, route)
    ensures At(zs, from) - At(zs, from).Keys == map[]
  {
    assert At(zs, from) - {} == At(zs, from);
  }

  lemma PageTargets(page: seq<(Member, Score)>, bucket: Zset, targets: seq<Target>, moved: Zset, route: Route)
    requires IsPage(page, bucket) && moved == Selected(bucket, PageKeys(page))
    requires |targets| == |page|
    requires forall i :: 0 <= i < |page| ==>
               targets[i] == Target(page[i].0, route(page[i].0, page[i].1).0, route(page[i].0, page[i].1).1)
    ensures forall i, j :: 0 <= i < j < |targets| ==> targets[i].member != targets[j].member
    ensures moved.Keys == set t <- targets :: t.member
    ensures forall t <- targets :: t.member in moved && (t.key, t.score) == route(t.member, moved[t.member])
  {
    forall i | 0 <= i < |page| ensures page[i].0 in moved && moved[page[i].0] == page[i].1 {
      assert page[i] in page;
    }
    forall m ensures m in moved.Keys <==> m in (set t <- targets :: t.member) {
      if m in moved {
        var e :| e in page && e.0 == m;
        var i :| 0 <= i < |page| && page[i] == e;
        assert targets[i].member == m;
      }
    }
  }

  lemma MoveMore(before: Zsets, mid: Zsets, after: Zsets, from: Key, done: Zset, moved: Zset,
      page: seq<(Member, Score)>, rows: set<string>, route: Route)
    requires Moved(before, mid, from, done, rows, route) && Moved(mid, after, from, moved, rows, route)
    requires var whole := At(before, from);
             done == whole - At(mid, from).Keys && At(mid, from) == whole - done.Keys
    requires IsPage(page, At(mid, from)) && moved == Selected(At(mid, from), PageKeys(page))
    ensures Moved(before, after, from, done + moved, rows, route)
    ensures var whole := At(before, from);
            done + moved == whole - At(after, from).Keys && At(after, from) == whole - (done + moved).Keys
    ensures page != [] ==> |At(after, from)| < |At(mid, from)|
    ensures PageKeys(page) == At(mid, from).Keys ==> At(after, from) == map[]
  {
    hide At, Routed, Moved, IsPage, PageKeys, Selected;
    var rest := At(mid, from);
    PartsAddUp(At(before, from), rest, done, PageKeys(page));
    LeavesBucket(mid, after, from, moved, rows, route);
    MovedTwice(before, mid, after, from, done, moved, rows, route);
    if page != [] {
      FirstIsMoved(page, rest);
      SmallerMap(At(after, from), rest, page[0].0);
    }
    if PageKeys(page) == rest.Keys {
      AllSelected(rest);
    }
  }

  lemma LeavesBucket(zs: Zsets, zs': Zsets, from: Key, moved: Zset, rows: set<string>, route: Route)
    requires Moved(zs, zs', from, moved, rows, route)
    ensures At(zs', from) == At(zs, from) - moved.Keys
  {
  }

  lemma FirstIsMoved(page: seq<(Member, Score)>, bucket: Zset)
    requires IsPage(page, bucket) && page != []
    ensures page[0].0 in Selected(bucket, PageKeys(page)) && page[0].0 in bucket
  {
    assert page[0] in page;
  }

  lemma AllSelected(bucket: Zset)
    ensures bucket - Selected(bucket, bucket.Keys).Keys == map[]
  {
  }

  lemma PartsAddUp(whole: Zset, rest: Zset, done: Zset, keys: set<Member>)
    requires done == whole - rest.Keys && rest == whole - done.Keys
    ensures var moved := Selected(rest, keys);
            && done.Keys !! moved.Keys
            && done + moved == whole - (rest - moved.Keys).Keys
            && rest - moved.Keys == whole - (done + moved).Keys
  {
  }

  lemma SmallerMap(a: Zset, b: Zset, m: Member)
    requires a.Keys <= b.Keys - {m} && m in b
    ensures |a| < |b|
  {
    CardLe(a.Keys, b.Keys - {m});
    assert |b.Keys - {m}| == |b.Keys| - 1;
    assert |a| == |a.Keys| && |b| == |b.Keys|;
  }

  lemma {:induction false} CardLe(a: set<Member>, b: set<Member>)
    requires a <= b
    ensures |a| <= |b|
  {
    if a != {} {
      var x :| x in a;
      CardLe(a - {x}, b - {x});
    }
  }
}
