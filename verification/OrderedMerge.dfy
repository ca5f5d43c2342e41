/**
 * The merge behind range and prefix scans: each bucket is a way, its members fetched a page
 * at a time and only when none of them is left in the heap; a step pops a batch of
 * candidates and then refills the ways that have run dry.
 */
module OrderedMerge {
  import opened PriorityQueue

  /** The member at a place of a way's listing, with the key it is ordered by. */
  datatype Entry<K> = Entry(way: nat, pos: nat, key: K)

  function ByKey<K>(before: (K, K) -> bool): (Entry<K>, Entry<K>) -> bool {
    (a: Entry<K>, b: Entry<K>) => before(a.key, b.key)
  }

  lemma ByKeyOrders<K(!new)>(before: (K, K) -> bool)
    requires Orders(before)
    ensures Orders(ByKey(before))
  {
    var f := ByKey(before);
    forall a: Entry<K>, b: Entry<K> ensures f(a, b) ==> !f(b, a) {
      assert before(a.key, b.key) ==> !before(b.key, a.key);
    }
    forall a: Entry<K>, b: Entry<K>, c: Entry<K> ensures !f(b, a) && !f(c, b) ==> !f(c, a) {
      assert !before(b.key, a.key) && !before(c.key, b.key) ==> !before(c.key, a.key);
    }
  }

  /** The store lists the in-range members of a bucket in order. */
  predicate Listed<K>(before: (K, K) -> bool, list: seq<K>) {
    forall i, j :: 0 <= i < j < |list| ==> !before(list[j], list[i])
  }

  predicate IsEntry<K(==)>(lists: seq<seq<K>>, e: Entry<K>) {
    e.way < |lists| && e.pos < |lists[e.way]| && e.key == lists[e.way][e.pos]
  }

  ghost predicate Fetched<K>(lists: seq<seq<K>>, cursor: seq<nat>, e: Entry<K>)
    requires |cursor| == |lists|
  {
    IsEntry(lists, e) && e.pos < cursor[e.way]
  }

  predicate Distinct<K(==)>(s: seq<Entry<K>>) { forall i, j :: 0 <= i < j < |s| ==> s[i] != s[j] }

  ghost predicate CursorsOK<K>(lists: seq<seq<K>>, cursor: seq<nat>) {
    |cursor| == |lists| && forall w :: 0 <= w < |lists| ==> cursor[w] <= |lists[w]|
  }

  /** Every fetched entry is in the heap or has been put out, once. */
  ghost predicate Accounted<K(!new)>(lists: seq<seq<K>>, cursor: seq<nat>, held: set<Entry<K>>, out: seq<Entry<K>>) {
    && CursorsOK(lists, cursor)
    && (forall e: Entry<K> :: e in held || e in out <==> Fetched(lists, cursor, e))
    && (forall e <- out :: e !in held) && Distinct(out)
  }

  function OfWay<K(==)>(held: set<Entry<K>>, w: nat): set<Entry<K>> { set e <- held | e.way == w }

  ghost predicate Counted<K>(ways: nat, held: set<Entry<K>>, inHeap: seq<nat>) {
    |inHeap| == ways && forall w :: 0 <= w < ways ==> inHeap[w] == |OfWay(held, w)|
  }

  ghost predicate DoneOK<K>(lists: seq<seq<K>>, cursor: seq<nat>, done: seq<bool>) {
    |done| == |lists| == |cursor| && forall w :: 0 <= w < |lists| && done[w] ==> cursor[w] == |lists[w]|
  }

  /** Within a way nothing put out is after anything that comes later. */
  ghost predicate WayOrdered<K>(before: (K, K) -> bool, held: set<Entry<K>>, out: seq<Entry<K>>) {
    && (forall i, j :: 0 <= i < j < |out| && out[i].way == out[j].way ==> !before(out[j].key, out[i].key))
    && (forall e <- out, h <- held :: e.way == h.way ==> !before(h.key, e.key))
  }

  predicate Ascending<K>(before: (K, K) -> bool, out: seq<Entry<K>>) {
    forall i, j :: 0 <= i < j < |out| ==> !before(out[j].key, out[i].key)
  }

  /** Nothing put out is after anything still to come, in the heap or unread. */
  ghost predicate AllAhead<K>(before: (K, K) -> bool, lists: seq<seq<K>>, cursor: seq<nat>, held: set<Entry<K>>,
      out: seq<Entry<K>>)
    requires CursorsOK(lists, cursor)
  {
    && (forall e <- out, h <- held :: !before(h.key, e.key))
    && (forall e <- out, w, p :: 0 <= w < |lists| && cursor[w] <= p < |lists[w]| ==> !before(lists[w][p], e.key))
  }

  // ----- taking one out, putting one in ------------------------------------------------------------

  lemma PopAccounted<K(!new)>(lists: seq<seq<K>>, cursor: seq<nat>, held: set<Entry<K>>,
      out: seq<Entry<K>>, x: Entry<K>)
    requires Accounted(lists, cursor, held, out) && x in held
    ensures Accounted(lists, cursor, held - {x}, out + [x])
  {
    assert forall e: Entry<K> :: e in out + [x] <==> e in out || e == x;
  }

  lemma PopCounted<K(!new)>(ways: nat, held: set<Entry<K>>, inHeap: seq<nat>, x: Entry<K>)
    requires Counted(ways, held, inHeap) && x in held && x.way < ways
    ensures inHeap[x.way] > 0 && Counted(ways, held - {x}, inHeap[x.way := inHeap[x.way] - 1])
  {
    assert x in OfWay(held, x.way);
    forall w | 0 <= w < ways
      ensures OfWay(held - {x}, w) == if w == x.way then OfWay(held, w) - {x} else OfWay(held, w)
    {
    }
  }

  lemma PopWayOrdered<K(!new)>(before: (K, K) -> bool, held: set<Entry<K>>, out: seq<Entry<K>>, x: Entry<K>)
    requires WayOrdered(before, held, out) && x in held && forall h <- held :: !before(h.key, x.key)
    ensures WayOrdered(before, held - {x}, out + [x])
  {
    var longer := out + [x];
    forall i, j | 0 <= i < j < |longer| && longer[i].way == longer[j].way
      ensures !before(longer[j].key, longer[i].key)
    {
      if j == |out| { assert longer[i] in out; }
    }
    forall e, h | e in longer && h in held - {x} && e.way == h.way ensures !before(h.key, e.key) {
      assert e in out || e == x;
    }
  }

  lemma PushAccounted<K(!new)>(lists: seq<seq<K>>, cursor: seq<nat>, held: set<Entry<K>>, out: seq<Entry<K>>, w: nat)
    requires Accounted(lists, cursor, held, out) && w < |lists| && cursor[w] < |lists[w]|
    ensures var x := Entry(w, cursor[w], lists[w][cursor[w]]);
            x !in held && x !in out && Accounted(lists, cursor[w := cursor[w] + 1], held + {x}, out)
  {
    var x := Entry(w, cursor[w], lists[w][cursor[w]]);
    var cursor' := cursor[w := cursor[w] + 1];
    assert !Fetched(lists, cursor, x);
    forall e: Entry<K> ensures Fetched(lists, cursor', e) <==> Fetched(lists, cursor, e) || e == x {
    }
  }

  lemma PushCounted<K(!new)>(ways: nat, held: set<Entry<K>>, inHeap: seq<nat>, x: Entry<K>)
    requires Counted(ways, held, inHeap) && x !in held && x.way < ways
    ensures Counted(ways, held + {x}, inHeap[x.way := inHeap[x.way] + 1])
  {
    forall w | 0 <= w < ways
      ensures OfWay(held + {x}, w) == if w == x.way then OfWay(held, w) + {x} else OfWay(held, w)
    {
    }
  }

  lemma PushWayOrdered<K(!new)>(before: (K, K) -> bool, lists: seq<seq<K>>, cursor: seq<nat>, held: set<Entry<K>>,
      out: seq<Entry<K>>, w: nat)
    requires Accounted(lists, cursor, held, out) && WayOrdered(before, held, out) && w < |lists|
    requires cursor[w] < |lists[w]| && Listed(before, lists[w])
    ensures WayOrdered(before, held + {Entry(w, cursor[w], lists[w][cursor[w]])}, out)
  {
    forall e | e in out && e.way == w ensures !before(lists[w][cursor[w]], e.key) {
      assert Fetched(lists, cursor, e);
    }
  }

  lemma PushAhead<K(!new)>(before: (K, K) -> bool, lists: seq<seq<K>>, cursor: seq<nat>, held: set<Entry<K>>,
      out: seq<Entry<K>>, w: nat)
    requires CursorsOK(lists, cursor) && AllAhead(before, lists, cursor, held, out) && w < |lists|
    requires cursor[w] < |lists[w]|
    ensures AllAhead(before, lists, cursor[w := cursor[w] + 1], held + {Entry(w, cursor[w], lists[w][cursor[w]])}, out)
  {
  }

  /** The first of the heap is ahead of unread members too, if every unfinished way has one in the heap. */
  lemma PopAhead<K(!new)>(before: (K, K) -> bool, lists: seq<seq<K>>, cursor: seq<nat>, held: set<Entry<K>>,
      out: seq<Entry<K>>, x: Entry<K>)
    requires Orders(before) && Accounted(lists, cursor, held, out) && AllAhead(before, lists, cursor, held, out)
    requires Ascending(before, out)
    requires forall w :: 0 <= w < |lists| ==>
               Listed(before, lists[w]) && (cursor[w] == |lists[w]| || OfWay(held, w) != {})
    requires x in held && forall h <- held :: !before(h.key, x.key)
    ensures AllAhead(before, lists, cursor, held - {x}, out + [x]) && Ascending(before, out + [x])
  {
    forall w, p | 0 <= w < |lists| && cursor[w] <= p < |lists[w]| ensures !before(lists[w][p], x.key) {
      var h :| h in OfWay(held, w);
      assert Fetched(lists, cursor, h);
      assert !before(lists[w][p], h.key) && !before(h.key, x.key);
    }
    assert forall e <- out + [x] :: e in out || e == x;
    forall i | 0 <= i < |out| ensures !before(x.key, out[i].key) {
      assert out[i] in out;
    }
  }

  /** With a single way, what is ahead in the way is ahead of everything. */
  lemma OneWayAhead<K(!new)>(before: (K, K) -> bool, lists: seq<seq<K>>, cursor: seq<nat>, held: set<Entry<K>>,
      out: seq<Entry<K>>)
    requires |lists| <= 1 && Accounted(lists, cursor, held, out) && WayOrdered(before, held, out)
    requires forall w :: 0 <= w < |lists| ==> Listed(before, lists[w])
    ensures Ascending(before, out) && AllAhead(before, lists, cursor, held, out)
  {
    forall e | e in out || e in held
      ensures e.way == 0 && |lists| == 1 && e.pos < cursor[0] && e.key == lists[0][e.pos]
    {
      assert Fetched(lists, cursor, e);
    }
    assert forall i :: 0 <= i < |out| ==> out[i] in out;
  }

  /** The whole state of a merge, apart from the arrangement of its heap. */
  ghost predicate Sound<K(!new)>(before: (K, K) -> bool, lists: seq<seq<K>>, cursor: seq<nat>, inHeap: seq<nat>,
      done: seq<bool>, held: set<Entry<K>>, out: seq<Entry<K>>) {
    && Accounted(lists, cursor, held, out) && WayOrdered(before, held, out)
    && Counted(|lists|, held, inHeap) && DoneOK(lists, cursor, done)
  }

  lemma PushSound<K(!new)>(before: (K, K) -> bool, lists: seq<seq<K>>, cursor: seq<nat>, inHeap: seq<nat>,
      done: seq<bool>, held: set<Entry<K>>, out: seq<Entry<K>>, w: nat)
    requires Sound(before, lists, cursor, inHeap, done, held, out) && w < |lists| && cursor[w] < |lists[w]|
    requires Listed(before, lists[w])
    ensures var x := Entry(w, cursor[w], lists[w][cursor[w]]);
            && x !in held && |inHeap| == |lists|
            && Sound(before, lists, cursor[w := cursor[w] + 1], inHeap[w := inHeap[w] + 1], done, held + {x}, out)
            && (AllAhead(before, lists, cursor, held, out) ==>
                  AllAhead(before, lists, cursor[w := cursor[w] + 1], held + {x}, out))
  {
    PushAccounted(lists, cursor, held, out, w);
    PushCounted(|lists|, held, inHeap, Entry(w, cursor[w], lists[w][cursor[w]]));
    PushWayOrdered(before, lists, cursor, held, out, w);
    hide Accounted, WayOrdered, Counted, Listed;
    if AllAhead(before, lists, cursor, held, out) {
      PushAhead(before, lists, cursor, held, out, w);
    }
  }

  lemma PopSound<K(!new)>(before: (K, K) -> bool, lists: seq<seq<K>>, cursor: seq<nat>, inHeap: seq<nat>,
      done: seq<bool>, held: set<Entry<K>>, out: seq<Entry<K>>, x: Entry<K>)
    requires Sound(before, lists, cursor, inHeap, done, held, out) && x in held
    requires forall h <- held :: !before(h.key, x.key)
    ensures x.way < |lists| == |inHeap| && inHeap[x.way] > 0
    ensures Sound(before, lists, cursor, inHeap[x.way := inHeap[x.way] - 1], done, held - {x}, out + [x])
  {
    assert Fetched(lists, cursor, x);
    PopAccounted(lists, cursor, held, out, x);
    PopCounted(|lists|, held, inHeap, x);
    PopWayOrdered(before, held, out, x);
  }

  lemma SoundCursors<K(!new)>(before: (K, K) -> bool, lists: seq<seq<K>>, cursor: seq<nat>, inHeap: seq<nat>,
      done: seq<bool>, held: set<Entry<K>>, out: seq<Entry<K>>)
    requires Sound(before, lists, cursor, inHeap, done, held, out)
    ensures CursorsOK(lists, cursor)
  {
  }

  // ----- the merge -----------------------------------------------------------------------------------

  function Unread<K>(lists: seq<seq<K>>, cursor: seq<nat>): int
    requires |cursor| == |lists|
  {
    if lists == [] then 0 else |lists[0]| - cursor[0] + Unread(lists[1..], cursor[1..])
  }

  lemma {:induction false} UnreadStep<K>(lists: seq<seq<K>>, cursor: seq<nat>, w: nat)
    requires CursorsOK(lists, cursor) && w < |lists|
    ensures 0 <= Unread(lists, cursor)
    ensures Unread(lists, cursor[w := cursor[w] + 1]) == Unread(lists, cursor) - 1
  {
    UnreadNat(lists, cursor);
    if w == 0 {
      assert cursor[0 := cursor[0] + 1][1..] == cursor[1..];
    } else {
      assert cursor[w := cursor[w] + 1][1..] == cursor[1..][w - 1 := cursor[1..][w - 1] + 1];
      assert CursorsOK(lists[1..], cursor[1..]);
      UnreadStep(lists[1..], cursor[1..], w - 1);
    }
  }

  lemma {:induction false} UnreadNat<K>(lists: seq<seq<K>>, cursor: seq<nat>)
    requires CursorsOK(lists, cursor)
    ensures 0 <= Unread(lists, cursor)
  {
    if lists != [] {
      assert forall w :: 0 <= w < |lists[1..]| ==> lists[1..][w] == lists[w + 1] && cursor[1..][w] == cursor[w + 1];
      UnreadNat(lists[1..], cursor[1..]);
    }
  }

  /** Members not yet put out. */
  function Todo<K(==)>(lists: seq<seq<K>>, cursor: seq<nat>, held: set<Entry<K>>): int {
    if |cursor| == |lists| then Unread(lists, cursor) + |held| else 0
  }

  lemma PushTodo<K>(lists: seq<seq<K>>, cursor: seq<nat>, held: set<Entry<K>>, w: nat, x: Entry<K>)
    requires CursorsOK(lists, cursor) && w < |lists| && x !in held
    ensures Todo(lists, cursor[w := cursor[w] + 1], held + {x}) == Todo(lists, cursor, held)
  {
    UnreadStep(lists, cursor, w);
  }

  lemma PopTodo<K>(lists: seq<seq<K>>, cursor: seq<nat>, held: set<Entry<K>>, x: Entry<K>)
    requires CursorsOK(lists, cursor) && x in held
    ensures Todo(lists, cursor, held - {x}) == Todo(lists, cursor, held) - 1
  {
  }

  lemma WithOne<K>(held: set<Entry<K>>, x: Entry<K>)
    ensures x !in held ==> multiset(held + {x}) == multiset(held) + multiset{x}
    ensures x in held ==> multiset(held) == multiset(held - {x}) + multiset{x}
  {
  }

  lemma ByKeyIs<K>(before: (K, K) -> bool, a: Entry<K>, b: Entry<K>)
    ensures ByKey(before)(a, b) == before(a.key, b.key)
  {
  }

  class Merger<K(!new, ==)> {
    const before: (K, K) -> bool
    const lists: seq<seq<K>>
    const batch: nat
    const page: nat
    const queue: Queue<Entry<K>>
    var cursor: seq<nat>
    var inHeap: seq<nat>
    var done: seq<bool>
    var seeded: bool
    ghost var held: set<Entry<K>>       // what the heap holds
    ghost var out: seq<Entry<K>>        // what the steps have put out

    constructor (before: (K, K) -> bool, lists: seq<seq<K>>, batch: nat, page: nat)
      requires Orders(before) && batch > 0 && page > 0 && forall list <- lists :: Listed(before, list)
      ensures Valid() && fresh(queue) && !seeded && out == []
      ensures this.before == before && this.lists == lists && this.batch == batch && this.page == page
    {
      ByKeyOrders(before);
      this.before, this.lists, this.batch, this.page := before, lists, batch, page;
      queue := new Queue(ByKey(before));
      cursor := seq(|lists|, _ => 0);
      inHeap := seq(|lists|, _ => 0);
      done := seq(|lists|, _ => false);
      seeded, held, out := false, {}, [];
    }

    ghost predicate Heaped()
      reads this`held, queue
    {
      queue.Valid() && queue.before == ByKey(before) && multiset(queue.items) == multiset(held)
    }

    ghost predicate Basics()
      reads this, queue
    {
      && Orders(before) && batch > 0 && page > 0 && (forall list <- lists :: Listed(before, list))
      && Heaped() && Sound(before, lists, cursor, inHeap, done, held, out)
    }

    /** Between steps every unfinished way has a member in the heap. */
    ghost predicate Valid()
      reads this, queue
    {
      && Basics()
      && (seeded ==> forall w :: 0 <= w < |lists| ==> inHeap[w] > 0 || done[w])
      && (!seeded ==> out == [] && held == {} && forall w :: 0 <= w < |lists| ==> cursor[w] == 0 && !done[w])
      && ((|lists| <= 1 || batch == 1) ==> Ascending(before, out) && AllAhead(before, lists, cursor, held, out))
    }

    method HeapPush(x: Entry<K>)
      requires Heaped() && x !in held
      modifies this`held, queue
      ensures Heaped() && held == old(held) + {x}
    {
      WithOne(held, x);
      queue.Push(x);
      held := held + {x};
    }

    method HeapPop() returns (x: Entry<K>)
      requires Heaped() && |queue.items| > 0
      modifies this`held, queue
      ensures Heaped() && x in old(held) && held == old(held) - {x} && forall h <- old(held) :: !before(h.key, x.key)
    {
      ghost var items := queue.items;
      SameElements(items, held);
      x := queue.Pop();
      assert x in multiset(items);
      WithOne(held, x);
      forall h | h in held ensures !before(h.key, x.key) {
        assert h in items;
        ByKeyIs(before, h, x);
      }
      held := held - {x};
      assert multiset(queue.items) == multiset(items) - multiset{x};
    }

    /** The next member of a way goes into the heap. */
    method PushNext(w: nat)
      requires Basics() && w < |lists| && |cursor| == |lists| && cursor[w] < |lists[w]|
      modifies this`cursor, this`inHeap, this`held, queue
      ensures Basics() && Todo(lists, cursor, held) == Todo(lists, old(cursor), old(held))
      ensures |inHeap| == |old(inHeap)| == |lists|
      ensures cursor == old(cursor)[w := old(cursor)[w] + 1] && inHeap == old(inHeap)[w := old(inHeap)[w] + 1]
      ensures held == old(held) + {Entry(w, old(cursor)[w], lists[w][old(cursor)[w]])}
      ensures CursorsOK(lists, old(cursor)) && CursorsOK(lists, cursor)
      ensures AllAhead(before, lists, old(cursor), old(held), out) ==> AllAhead(before, lists, cursor, held, out)
    {
      hide Sound, AllAhead, Heaped, Orders, Listed, CursorsOK, Todo;
      var x := Entry(w, cursor[w], lists[w][cursor[w]]);
      assert lists[w] in lists;
      SoundCursors(before, lists, cursor, inHeap, done, held, out);
      PushSound(before, lists, cursor, inHeap, done, held, out, w);
      PushTodo(lists, cursor, held, w, x);
      HeapPush(x);
      cursor := cursor[w := cursor[w] + 1];
      inHeap := inHeap[w := inHeap[w] + 1];
      SoundCursors(before, lists, cursor, inHeap, done, held, out);
    }

    /** The first member of the heap is put out. */
    method PopFirst() returns (x: Entry<K>)
      requires Basics() && |queue.items| > 0
      modifies this`inHeap, this`held, this`out, queue
      ensures Basics() && Todo(lists, cursor, held) == Todo(lists, cursor, old(held)) - 1
      ensures x in old(held) && held == old(held) - {x} && out == old(out) + [x]
      ensures forall h <- old(held) :: !before(h.key, x.key)
      ensures x.way < |lists| == |old(inHeap)| && old(inHeap)[x.way] > 0
      ensures inHeap == old(inHeap)[x.way := old(inHeap)[x.way] - 1]
    {
      hide Sound, Heaped, Orders, Listed, Todo, CursorsOK;
      SoundCursors(before, lists, cursor, inHeap, done, held, out);
      ghost var was := held;
      x := HeapPop();
      PopTodo(lists, cursor, was, x);
      PopSound(before, lists, cursor, inHeap, done, was, out, x);
      out := out + [x];
      inHeap := inHeap[x.way := inHeap[x.way] - 1];
    }

    /** The first member of every way, or the end of an empty one. */
    method Seed()
      requires Valid() && !seeded
      modifies this`cursor, this`inHeap, this`done, this`seeded, this`held, queue
      ensures Valid() && seeded && held == Firsts(lists)
      ensures Todo(lists, cursor, held) == Todo(lists, old(cursor), old(held))
    {
      hide Sound, Heaped, Orders, Listed, Todo, AllAhead, WayOrdered;
      NothingInHeap(before, lists, cursor, inHeap, done, held, out);
      SoundCursors(before, lists, cursor, inHeap, done, held, out);
      assert FirstsUpTo(lists, 0) == {};
      for w := 0 to |lists|
        invariant Basics() && out == [] && CursorsOK(lists, cursor) && |done| == |inHeap| == |lists|
        invariant held == FirstsUpTo(lists, w)
        invariant forall v :: 0 <= v < w ==> inHeap[v] > 0 || done[v]
        invariant forall v :: w <= v < |lists| ==> cursor[v] == 0 && inHeap[v] == 0 && !done[v]
        invariant Todo(lists, cursor, held) == Todo(lists, old(cursor), old(held))
      {
        NextFirst(lists, w);
        if |lists[w]| == 0 {
          FinishSound(before, lists, cursor, inHeap, done, held, out, w);
          done := done[w := true];
        } else {
          PushNext(w);
          SoundCursors(before, lists, cursor, inHeap, done, held, out);
        }
      }
      seeded := true;
      NothingOut(before, lists, cursor, held);
    }

    /** A page for each way that has run dry; a short one is its last. */
    method RefillWays(dry: seq<nat>)
      requires Basics() && |done| == |inHeap| == |lists|
      requires forall w <- dry :: w < |lists| && !done[w]
      requires forall i, j :: 0 <= i < j < |dry| ==> dry[i] != dry[j]
      requires forall w :: 0 <= w < |lists| ==> inHeap[w] > 0 || done[w] || w in dry
      modifies this`cursor, this`inHeap, this`done, this`held, queue
      ensures Basics() && |done| == |inHeap| == |lists| && forall w :: 0 <= w < |lists| ==> inHeap[w] > 0 || done[w]
      ensures Todo(lists, cursor, held) == Todo(lists, old(cursor), old(held))
      ensures CursorsOK(lists, old(cursor)) && CursorsOK(lists, cursor)
      ensures AllAhead(before, lists, old(cursor), old(held), out) ==> AllAhead(before, lists, cursor, held, out)
    {
      hide Sound, Heaped, Orders, Listed, Todo, AllAhead;
      SoundCursors(before, lists, cursor, inHeap, done, held, out);
      for i := 0 to |dry|
        invariant Basics() && |done| == |inHeap| == |lists| && CursorsOK(lists, cursor)
        invariant forall w :: 0 <= w < |lists| ==> inHeap[w] > 0 || done[w] || w in dry[i..]
        invariant forall w <- dry[i..] :: w < |lists| && !done[w]
        invariant Todo(lists, cursor, held) == Todo(lists, old(cursor), old(held))
        invariant AllAhead(before, lists, old(cursor), old(held), out) ==> AllAhead(before, lists, cursor, held, out)
      {
        var w := dry[i];
        assert dry[i..] == [w] + dry[i + 1..];
        assert w in dry[i..] && w !in dry[i + 1..];
        var left := |lists[w]| - cursor[w];
        var n := if left < page then left else page;
        RefillWay(w, n);
        if n < page {
          FinishSound(before, lists, cursor, inHeap, done, held, out, w);
          done := done[w := true];
        }
      }
    }

    method RefillWay(w: nat, n: nat)
      requires Basics() && w < |lists| && |inHeap| == |lists| && CursorsOK(lists, cursor) && cursor[w] + n <= |lists[w]|
      modifies this`cursor, this`inHeap, this`held, queue
      ensures Basics() && |inHeap| == |lists| && CursorsOK(lists, cursor) && cursor[w] == old(cursor)[w] + n
      ensures n > 0 ==> inHeap[w] > 0
      ensures forall v :: 0 <= v < |lists| && old(inHeap)[v] > 0 ==> inHeap[v] > 0
      ensures Todo(lists, cursor, held) == Todo(lists, old(cursor), old(held))
      ensures AllAhead(before, lists, old(cursor), old(held), out) ==> AllAhead(before, lists, cursor, held, out)
    {
      hide Sound, Heaped, Orders, Listed, Todo, AllAhead;
      for k := 0 to n
        invariant Basics() && |inHeap| == |lists| && CursorsOK(lists, cursor) && cursor[w] == old(cursor)[w] + k
        invariant k > 0 ==> inHeap[w] > 0
        invariant forall v :: 0 <= v < |lists| && old(inHeap)[v] > 0 ==> inHeap[v] > 0
        invariant Todo(lists, cursor, held) == Todo(lists, old(cursor), old(held))
        invariant AllAhead(before, lists, old(cursor), old(held), out) ==> AllAhead(before, lists, cursor, held, out)
      {
        PushNext(w);
      }
    }

    /**
     * A batch of candidates, all from the heap as it stood: the ways that run dry on the way
     * are refilled only afterwards. Nothing left means every listing is at its end.
     */
    method Step() returns (cand: seq<Entry<K>>)
      requires Valid()
      modifies this, queue
      ensures Valid() && seeded && out == old(out) + cand
      ensures var first := if old(seeded) then old(held) else Firsts(lists);
              (forall e <- cand :: e in first) && (|first| <= batch ==> forall e <- first :: e in cand)
      ensures cand == [] ==>
                held == {} && forall w :: 0 <= w < |lists| ==> |cursor| == |lists| && cursor[w] == |lists[w]|
      ensures cand != [] ==> Todo(lists, cursor, held) < Todo(lists, old(cursor), old(held))
    {
      hide Sound, Heaped, Orders, Listed, Todo, AllAhead, Ascending, FirstsUpTo;
      if !seeded {
        Seed();
      }
      ghost var first, start := held, out;
      var dry: seq<nat>;
      cand, dry := PopBatch();
      if |dry| > 0 {
        RefillWays(dry);
      }
      SoundCursors(before, lists, cursor, inHeap, done, held, out);
      if |lists| <= 1 {
        OneWay();
      }
      if cand == [] {
        AllDone(before, lists, cursor, inHeap, done, held, out);
      }
    }

    /** Pops until the batch is full or the heap is empty, noting the ways that run dry. */
    method PopBatch() returns (cand: seq<Entry<K>>, dry: seq<nat>)
      requires Valid() && seeded
      modifies this`inHeap, this`held, this`out, queue
      ensures Basics() && out == old(out) + cand && |done| == |inHeap| == |lists|
      ensures (forall e <- cand :: e in old(held))
      ensures (|old(held)| <= batch ==> held == {} && forall e <- old(held) :: e in cand)
      ensures cand == [] ==> dry == [] && held == {} && old(held) == {}
      ensures Todo(lists, cursor, held) == Todo(lists, cursor, old(held)) - |cand|
      ensures forall w <- dry :: w < |lists| && !done[w]
      ensures forall i, j :: 0 <= i < j < |dry| ==> dry[i] != dry[j]
      ensures forall w :: 0 <= w < |lists| ==> inHeap[w] > 0 || done[w] || w in dry
      ensures CursorsOK(lists, cursor)
      ensures batch == 1 ==> Ascending(before, out) && AllAhead(before, lists, cursor, held, out)
    {
      hide Sound, Heaped, Orders, Listed, Todo, AllAhead, Ascending;
      SoundCursors(before, lists, cursor, inHeap, done, held, out);
      SoundCounts(before, lists, cursor, inHeap, done, held, out);
      HeapSize();
      cand, dry := [], [];
      while |queue.items| > 0 && |cand| < batch
        invariant Basics() && |queue.items| == |held| && out == old(out) + cand && |done| == |inHeap| == |lists|
        invariant |cand| <= batch
        invariant held <= old(held) && |held| + |cand| == |old(held)|
        invariant forall e :: e in old(held) <==> e in held || e in cand
        invariant Todo(lists, cursor, held) == Todo(lists, cursor, old(held)) - |cand|
        invariant forall w <- dry :: w < |lists| && !done[w] && inHeap[w] == 0
        invariant forall i, j :: 0 <= i < j < |dry| ==> dry[i] != dry[j]
        invariant forall w :: 0 <= w < |lists| ==> inHeap[w] > 0 || done[w] || w in dry
        invariant cand == [] ==> dry == [] && held == old(held)
        invariant batch == 1 ==> Ascending(before, out) && AllAhead(before, lists, cursor, held, out)
        decreases |held|
      {
        if batch == 1 {
          EveryWayHasOne(before, lists, cursor, inHeap, done, held, out);
        }
        ghost var was, before_ := held, out;
        var x := PopFirst();
        HeapSize();
        if batch == 1 {
          SoundParts(before, lists, cursor, old(inHeap), done, was, before_);
          PopAhead(before, lists, cursor, was, before_, x);
        }
        cand := cand + [x];
        if inHeap[x.way] == 0 && !done[x.way] {
          dry := dry + [x.way];
        }
      }
    }

    lemma HeapSize()
      requires Heaped()
      ensures |queue.items| == |held|
    {
      SameElements(queue.items, held);
    }

    lemma OneWay()
      requires Basics() && |lists| <= 1
      ensures CursorsOK(lists, cursor) && Ascending(before, out) && AllAhead(before, lists, cursor, held, out)
    {
      hide Heaped;
      assert forall w :: 0 <= w < |lists| ==> lists[w] in lists;
      OneWayAhead(before, lists, cursor, held, out);
    }

    /** Steps to the end: all in all, every entry of every listing, once, and in order within its way. */
    method Drain() returns (rest: seq<Entry<K>>)
      requires Valid()
      modifies this, queue
      ensures Valid() && out == old(out) + rest
      ensures Distinct(out) && forall e: Entry<K> :: e in out <==> IsEntry(lists, e)
      ensures forall i, j :: 0 <= i < j < |out| && out[i].way == out[j].way ==> !before(out[j].key, out[i].key)
      ensures |lists| <= 1 || batch == 1 ==> Ascending(before, out)
    {
      hide Sound, Heaped, Orders, Listed, Todo, AllAhead, Ascending, IsEntry, Distinct;
      SoundCursors(before, lists, cursor, inHeap, done, held, out);
      rest := [];
      var more := true;
      while more
        invariant Valid() && out == old(out) + rest && CursorsOK(lists, cursor)
        invariant !more ==> held == {} && forall w :: 0 <= w < |lists| ==> cursor[w] == |lists[w]|
        decreases more, Todo(lists, cursor, held)
      {
        TodoNat(lists, cursor, held);
        var cand := Step();
        rest := rest + cand;
        more := |cand| > 0;
        SoundCursors(before, lists, cursor, inHeap, done, held, out);
        TodoNat(lists, cursor, held);
      }
      AllOut(before, lists, cursor, inHeap, done, held, out);
    }
  }

  lemma TodoNat<K>(lists: seq<seq<K>>, cursor: seq<nat>, held: set<Entry<K>>)
    requires CursorsOK(lists, cursor)
    ensures 0 <= Todo(lists, cursor, held)
  {
    UnreadNat(lists, cursor);
  }

  lemma SoundCounts<K(!new)>(before: (K, K) -> bool, lists: seq<seq<K>>, cursor: seq<nat>, inHeap: seq<nat>,
      done: seq<bool>, held: set<Entry<K>>, out: seq<Entry<K>>)
    requires Sound(before, lists, cursor, inHeap, done, held, out)
    ensures |done| == |inHeap| == |lists|
  {
  }

  lemma SoundParts<K(!new)>(before: (K, K) -> bool, lists: seq<seq<K>>, cursor: seq<nat>, inHeap: seq<nat>,
      done: seq<bool>, held: set<Entry<K>>, out: seq<Entry<K>>)
    requires Sound(before, lists, cursor, inHeap, done, held, out)
    ensures Accounted(lists, cursor, held, out)
  {
  }

  lemma EveryWayHasOne<K(!new)>(before: (K, K) -> bool, lists: seq<seq<K>>, cursor: seq<nat>, inHeap: seq<nat>,
      done: seq<bool>, held: set<Entry<K>>, out: seq<Entry<K>>)
    requires Sound(before, lists, cursor, inHeap, done, held, out) && |done| == |inHeap| == |lists|
    requires forall w :: 0 <= w < |lists| ==> inHeap[w] > 0 || done[w]
    ensures CursorsOK(lists, cursor) && forall w :: 0 <= w < |lists| ==> cursor[w] == |lists[w]| || OfWay(held, w) != {}
  {
  }

  lemma AllDone<K(!new)>(before: (K, K) -> bool, lists: seq<seq<K>>, cursor: seq<nat>, inHeap: seq<nat>,
      done: seq<bool>, held: set<Entry<K>>, out: seq<Entry<K>>)
    requires Sound(before, lists, cursor, inHeap, done, held, out) && held == {} && |done| == |inHeap| == |lists|
    requires forall w :: 0 <= w < |lists| ==> inHeap[w] > 0 || done[w]
    ensures |cursor| == |lists| && forall w :: 0 <= w < |lists| ==> cursor[w] == |lists[w]|
  {
    assert forall w: nat :: OfWay(held, w) == {};
  }

  lemma AllOut<K(!new)>(before: (K, K) -> bool, lists: seq<seq<K>>, cursor: seq<nat>, inHeap: seq<nat>,
      done: seq<bool>, held: set<Entry<K>>, out: seq<Entry<K>>)
    requires Sound(before, lists, cursor, inHeap, done, held, out) && held == {} && |cursor| == |lists|
    requires forall w :: 0 <= w < |lists| ==> cursor[w] == |lists[w]|
    ensures Distinct(out) && forall e: Entry<K> :: e in out <==> IsEntry(lists, e)
    ensures forall i, j :: 0 <= i < j < |out| && out[i].way == out[j].way ==> !before(out[j].key, out[i].key)
  {
    assert forall e: Entry<K> :: Fetched(lists, cursor, e) <==> IsEntry(lists, e);
  }

  function FirstsUpTo<K(==)>(lists: seq<seq<K>>, n: nat): set<Entry<K>>
    requires n <= |lists|
  {
    set w | 0 <= w < n && lists[w] != [] :: Entry(w, 0, lists[w][0])
  }

  function Firsts<K(==)>(lists: seq<seq<K>>): set<Entry<K>> { FirstsUpTo(lists, |lists|) }

  lemma NextFirst<K>(lists: seq<seq<K>>, w: nat)
    requires w < |lists|
    ensures FirstsUpTo(lists, w + 1) == FirstsUpTo(lists, w) + if lists[w] == [] then {} else {Entry(w, 0, lists[w][0])}
  {
  }

  lemma NothingInHeap<K(!new)>(before: (K, K) -> bool, lists: seq<seq<K>>, cursor: seq<nat>, inHeap: seq<nat>,
      done: seq<bool>, held: set<Entry<K>>, out: seq<Entry<K>>)
    requires Sound(before, lists, cursor, inHeap, done, held, out) && held == {}
    ensures |done| == |inHeap| == |lists| && forall w :: 0 <= w < |lists| ==> inHeap[w] == 0
  {
    assert forall w: nat :: OfWay(held, w) == {};
  }

  lemma NothingOut<K(!new)>(before: (K, K) -> bool, lists: seq<seq<K>>, cursor: seq<nat>, held: set<Entry<K>>)
    requires CursorsOK(lists, cursor)
    ensures AllAhead(before, lists, cursor, held, []) && Ascending(before, [])
  {
  }

  lemma FinishSound<K(!new)>(before: (K, K) -> bool, lists: seq<seq<K>>, cursor: seq<nat>, inHeap: seq<nat>,
      done: seq<bool>, held: set<Entry<K>>, out: seq<Entry<K>>, w: nat)
    requires Sound(before, lists, cursor, inHeap, done, held, out) && w < |lists| == |cursor| && cursor[w] == |lists[w]|
    ensures |done| == |lists| && Sound(before, lists, cursor, inHeap, done[w := true], held, out)
  {
  }

  lemma SameElements<K>(items: seq<Entry<K>>, held: set<Entry<K>>)
    requires multiset(items) == multiset(held)
    ensures forall e :: e in items <==> e in held
    ensures |items| == |held|
  {
    assert forall e :: e in items <==> e in multiset(items);
    assert |multiset(items)| == |multiset(held)|;
  }

  // ----- two ways are not merged in order ------------------------------------------------------------

  /** One way holding 1 and 2, one holding 3, and any number of empty ones. */
  function TwoWays(ways: nat): (lists: seq<seq<int>>)
    requires ways >= 2
    ensures |lists| == ways && lists[0] == [1, 2] && lists[1] == [3]
    ensures forall list <- lists :: list in [[1, 2], [3], []]
  {
    [[1, 2], [3]] + seq(ways - 2, _ => [])
  }

  function Less(): (int, int) -> bool { (a: int, b: int) => a < b }

  /**
   * With two ways or more and batches of two or more, the order of the whole is lost: 1 and 3
   * leave the heap in one batch, and 2 is fetched only after that.
   */
  method OutOfOrder(ways: nat, batch: nat, page: nat) returns (out: seq<Entry<int>>)
    requires ways >= 2 && batch >= 2 && page > 0
    ensures !Ascending(Less(), out) && Distinct(out) && forall e: Entry<int> :: e in out <==> IsEntry(TwoWays(ways), e)
  {
    var lists := TwoWays(ways);
    TwoWaysListed(ways);
    hide *;
    var m := new Merger(Less(), lists, batch, page);
    out := FirstBatchThenRest(m, ways);
  }

  method FirstBatchThenRest(m: Merger<int>, ways: nat) returns (all: seq<Entry<int>>)
    requires ways >= 2 && m.Valid() && !m.seeded && m.out == [] && m.lists == TwoWays(ways) && m.before == Less()
    requires m.batch >= 2
    modifies m, m.queue
    ensures !Ascending(Less(), all) && Distinct(all) && forall e: Entry<int> :: e in all <==> IsEntry(TwoWays(ways), e)
  {
    hide *;
    FirstsOfTwo(ways);
    var cand := m.Step();
    var rest := m.Drain();
    all := cand + rest;
    assert all == m.out;
    LateTwo(m.lists, cand, rest);
  }

  lemma LateTwo(lists: seq<seq<int>>, cand: seq<Entry<int>>, rest: seq<Entry<int>>)
    requires |lists| >= 2 && lists[0] == [1, 2] && lists[1] == [3]
    requires Entry(1, 0, 3) in cand && forall e <- cand :: e in {Entry(0, 0, 1), Entry(1, 0, 3)}
    requires forall e: Entry<int> :: e in cand + rest <==> IsEntry(lists, e)
    ensures !Ascending(Less(), cand + rest)
  {
    var three, two := Entry(1, 0, 3), Entry(0, 1, 2);
    assert IsEntry(lists, two) && two in cand + rest && two !in cand;
    var i :| 0 <= i < |cand| && cand[i] == three;
    var j :| 0 <= j < |rest| && rest[j] == two;
    var out := cand + rest;
    assert out[i] == three && out[|cand| + j] == two;
  }

  lemma TwoWaysListed(ways: nat)
    requires ways >= 2
    ensures Orders(Less()) && forall list <- TwoWays(ways) :: Listed(Less(), list)
  {
  }

  lemma FirstsOfTwo(ways: nat)
    requires ways >= 2
    ensures Firsts(TwoWays(ways)) == {Entry(0, 0, 1), Entry(1, 0, 3)} && |Firsts(TwoWays(ways))| == 2
  {
    var lists := TwoWays(ways);
    forall w | 2 <= w < ways ensures lists[w] == [] {
      assert lists[w] in lists;
    }
  }
}
