/** A binary heap over any total preorder, sifted in place as container/heap does it. */
module PriorityQueue {

  /** `before` puts one element strictly ahead of another; ties are allowed. */
  ghost predicate Orders<T(!new)>(before: (T, T) -> bool) {
    && (forall a: T, b: T :: before(a, b) ==> !before(b, a))
    && (forall a: T, b: T, c: T :: !before(b, a) && !before(c, b) ==> !before(c, a))
  }

  function Parent(i: nat): nat
    requires i > 0
  {
    (i - 1) / 2
  }

  /** Nothing comes before its parent. */
  predicate IsHeap<T>(s: seq<T>, before: (T, T) -> bool) { forall i :: 0 < i < |s| ==> !before(s[i], s[Parent(i)]) }

  /** A heap but for the element at `j`, which may belong further up. */
  predicate HeapButUp<T>(s: seq<T>, before: (T, T) -> bool, j: nat) {
    && (forall i :: 0 < i < |s| && i != j ==> !before(s[i], s[Parent(i)]))
    && (forall i :: 0 < i < |s| && Parent(i) == j && j > 0 ==> !before(s[i], s[Parent(j)]))
  }

  /** A heap of the first `n` but for the element at `j`, which may belong further down. */
  predicate HeapButDown<T>(s: seq<T>, before: (T, T) -> bool, j: nat, n: nat)
    requires n <= |s|
  {
    && (forall i :: 0 < i < n && Parent(i) != j ==> !before(s[i], s[Parent(i)]))
    && (forall i :: 0 < i < n && Parent(i) == j && j > 0 ==> !before(s[i], s[Parent(j)]))
  }

  function Swapped<T>(s: seq<T>, i: nat, j: nat): (r: seq<T>)
    requires i < |s| && j < |s|
    ensures |r| == |s| && multiset(r) == multiset(s)
  {
    s[i := s[j]][j := s[i]]
  }

  /** The root of a heap comes before, or ties with, every element. */
  lemma {:induction false} RootIsFirst<T(!new)>(s: seq<T>, before: (T, T) -> bool, i: nat)
    requires Orders(before) && IsHeap(s, before) && i < |s|
    ensures !before(s[i], s[0])
  {
    if i > 0 {
      RootIsFirst(s, before, Parent(i));
    }
  }

  lemma SwapUp<T(!new)>(s: seq<T>, before: (T, T) -> bool, j: nat)
    requires Orders(before) && 0 < j < |s| && HeapButUp(s, before, j) && before(s[j], s[Parent(j)])
    ensures HeapButUp(Swapped(s, Parent(j), j), before, Parent(j))
  {
  }

  /** `j` is a child of `i` that no sibling comes before. */
  predicate FirstChild<T>(s: seq<T>, before: (T, T) -> bool, i: nat, j: nat, n: nat)
    requires n <= |s|
  {
    0 < j < n && Parent(j) == i && forall k :: 0 < k < n && Parent(k) == i ==> !before(s[k], s[j])
  }

  lemma SwapDown<T(!new)>(s: seq<T>, before: (T, T) -> bool, i: nat, j: nat, n: nat)
    requires Orders(before) && n <= |s| && HeapButDown(s, before, i, n) && FirstChild(s, before, i, j, n)
    requires before(s[j], s[i])
    ensures HeapButDown(Swapped(s, i, j), before, j, n) && Swapped(s, i, j)[n..] == s[n..]
  {
    var r := Swapped(s, i, j);
    assert forall k :: 0 <= k < |s| && k != i && k != j ==> r[k] == s[k];
    forall k | 0 < k < n && Parent(k) != j ensures !before(r[k], r[Parent(k)]) {
      if k == i {
        assert Parent(j) == i && !before(s[j], s[Parent(i)]);
      }
    }
    forall k | 0 < k < n && Parent(k) == j && j > 0 ensures !before(r[k], r[Parent(j)]) {
      assert !before(s[k], s[j]);
    }
  }

  lemma FirstOfTwo<T(!new)>(s: seq<T>, before: (T, T) -> bool, i: nat, j: nat, n: nat)
    requires Orders(before) && n <= |s| && 2 * i + 1 < n
    requires j == if 2 * i + 2 < n && before(s[2 * i + 2], s[2 * i + 1]) then 2 * i + 2 else 2 * i + 1
    ensures FirstChild(s, before, i, j, n)
  {
    forall k | 0 < k < n && Parent(k) == i ensures !before(s[k], s[j]) {
      assert k == 2 * i + 1 || k == 2 * i + 2;
    }
  }

  lemma NoneBelow<T(!new)>(s: seq<T>, before: (T, T) -> bool, i: nat, j: nat, n: nat)
    requires Orders(before) && n <= |s| && i < n && FirstChild(s, before, i, j, n) && !before(s[j], s[i])
    ensures forall k :: 0 < k < n && Parent(k) == i ==> !before(s[k], s[i])
  {
  }

  lemma SameFront<T>(a: seq<T>, b: seq<T>, n: nat)
    requires n <= |a| == |b| && multiset(a) == multiset(b) && a[n..] == b[n..]
    ensures multiset(a[..n]) == multiset(b[..n])
  {
    assert a == a[..n] + a[n..] && b == b[..n] + b[n..];
    assert multiset(a[..n]) == multiset(a) - multiset(a[n..]);
    assert multiset(b[..n]) == multiset(b) - multiset(b[n..]);
  }

  /** Down to a place where no child comes before: the whole is a heap. */
  lemma SettledDown<T(!new)>(s: seq<T>, before: (T, T) -> bool, i: nat, n: nat)
    requires n <= |s| && HeapButDown(s, before, i, n) && forall k :: 0 < k < n && Parent(k) == i ==> !before(s[k], s[i])
    ensures IsHeap(s[..n], before)
  {
  }

  class Queue<T(!new, ==)> {
    const before: (T, T) -> bool
    var items: seq<T>

    constructor (before: (T, T) -> bool)
      requires Orders(before)
      ensures Valid() && items == [] && this.before == before
    {
      this.before, items := before, [];
    }

    ghost predicate Valid()
      reads this
    {
      Orders(before) && IsHeap(items, before)
    }

    method Up(start: nat)
      requires Orders(before) && start < |items| && HeapButUp(items, before, start)
      modifies this`items
      ensures IsHeap(items, before) && multiset(items) == multiset(old(items)) && |items| == |old(items)|
    {
      var j := start;
      while j > 0 && before(items[j], items[Parent(j)])
        invariant 0 <= j < |items| == |old(items)| && HeapButUp(items, before, j)
        invariant multiset(items) == multiset(old(items))
      {
        SwapUp(items, before, j);
        items := Swapped(items, Parent(j), j);
        j := Parent(j);
      }
    }

    method Down(n: nat)
      requires Orders(before) && n <= |items| && HeapButDown(items, before, 0, n)
      modifies this`items
      ensures |items| == |old(items)| && IsHeap(items[..n], before)
      ensures multiset(items) == multiset(old(items)) && items[n..] == old(items)[n..]
      ensures multiset(items[..n]) == multiset(old(items)[..n])
    {
      hide HeapButDown, IsHeap, Orders, Swapped;
      var i := 0;
      var done := false;
      while !done && 2 * i + 1 < n
        invariant |items| == |old(items)| && HeapButDown(items, before, i, n)
        invariant multiset(items) == multiset(old(items)) && items[n..] == old(items)[n..]
        invariant done ==> forall k :: 0 < k < n && Parent(k) == i ==> !before(items[k], items[i])
        decreases !done, n - i
      {
        var j := 2 * i + 1;
        if j + 1 < n && before(items[j + 1], items[j]) {
          j := j + 1;
        }
        FirstOfTwo(items, before, i, j, n);
        if !before(items[j], items[i]) {
          NoneBelow(items, before, i, j, n);
          done := true;
        } else {
          SwapDown(items, before, i, j, n);
          items := Swapped(items, i, j);
          i := j;
        }
      }
      SettledDown(items, before, i, n);
      SameFront(items, old(items), n);
    }

    method Push(x: T)
      requires Valid()
      modifies this`items
      ensures Valid() && multiset(items) == multiset(old(items)) + multiset{x} && |items| == |old(items)| + 1
    {
      items := items + [x];
      Up(|items| - 1);
    }

    /** The element that no other comes before. */
    method Pop() returns (x: T)
      requires Valid() && |items| > 0
      modifies this`items
      ensures Valid() && multiset(old(items)) == multiset(items) + multiset{x} && |items| == |old(items)| - 1
      ensures forall y <- old(items) :: !before(y, x)
    {
      ghost var was := items;
      var n := |items| - 1;
      forall i | 0 <= i < |items| ensures !before(items[i], items[0]) {
        RootIsFirst(items, before, i);
      }
      items := Swapped(items, 0, n);
      ghost var swapped := items;
      Down(n);
      x := items[n];
      assert items[n..] == [x] && swapped[n..] == [was[0]];
      assert items == items[..n] + [x];
      items := items[..n];
    }
  }
}
