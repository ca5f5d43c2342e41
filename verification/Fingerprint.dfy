/** The cache key of an equality query: table, index, and every value behind its length. */
module Fingerprint {
  import opened Wrappers
  import opened Text
  import opened Predicates

  predicate Sorted(vs: seq<string>) { forall i, j :: 0 <= i < j < |vs| ==> !Before(vs[j], vs[i]) }

  function Segments(vs: seq<string>): string {
    if vs == [] then "" else "|" + Digits(|vs[0]|) + ":" + vs[0] + Segments(vs[1..])
  }

  /** For values already sorted. */
  function Of(table: string, idx: string, vs: seq<string>): string { table + "|" + idx + Segments(vs) }

  /** The length in front of a value says where it ends, so no two lists run together. */
  lemma {:induction false} SegmentsDiffer(a: seq<string>, b: seq<string>)
    requires Segments(a) == Segments(b)
    ensures a == b
  {
    if a == [] || b == [] {
      SegmentsStart(a);
      SegmentsStart(b);
    } else {
      var ra, rb := a[0] + Segments(a[1..]), b[0] + Segments(b[1..]);
      assert Segments(a) == "|" + (Digits(|a[0]|) + ":" + ra);
      assert Segments(b) == "|" + (Digits(|b[0]|) + ":" + rb);
      assert Segments(a)[1..] == Digits(|a[0]|) + ":" + ra;
      assert Segments(b)[1..] == Digits(|b[0]|) + ":" + rb;
      SameHead(Digits(|a[0]|), ra, Digits(|b[0]|), rb);
      DigitsRoundTrip(|a[0]|);
      DigitsRoundTrip(|b[0]|);
      assert ra[..|a[0]|] == a[0] && rb[..|b[0]|] == b[0];
      assert ra[|a[0]|..] == Segments(a[1..]) && rb[|b[0]|..] == Segments(b[1..]);
      SegmentsDiffer(a[1..], b[1..]);
      assert a == [a[0]] + a[1..] && b == [b[0]] + b[1..];
    }
  }

  lemma SameHead(da: string, ra: string, db: string, rb: string)
    requires ':' !in da && ':' !in db && da + ":" + ra == db + ":" + rb
    ensures da == db && ra == rb
  {
    FirstAt(da, ':', ra);
    FirstAt(db, ':', rb);
  }

  lemma {:induction false} BeforeTotal(a: string, b: string)
    requires !Before(a, b) && !Before(b, a)
    ensures a == b
    decreases |a|
  {
    if a != "" && b != "" {
      BeforeTotal(a[1..], b[1..]);
      assert a == [a[0]] + a[1..] && b == [b[0]] + b[1..];
    }
  }

  /** Sorting leaves one list for every multiset of values. */
  lemma {:induction false} SortedIsUnique(a: seq<string>, b: seq<string>)
    requires Sorted(a) && Sorted(b) && multiset(a) == multiset(b)
    ensures a == b
  {
    assert |multiset(a)| == |a| && |multiset(b)| == |b|;
    if a != [] {
      hide Sorted, Before;
      SameSmallest(a, b);
      TailsAlike(a, b);
      TailSorted(a);
      TailSorted(b);
      SortedIsUnique(a[1..], b[1..]);
      assert a == [a[0]] + a[1..] && b == [b[0]] + b[1..];
    }
  }

  lemma SameSmallest(a: seq<string>, b: seq<string>)
    requires Sorted(a) && Sorted(b) && multiset(a) == multiset(b) && a != [] && b != []
    ensures a[0] == b[0]
  {
    assert a[0] in multiset(a) && b[0] in multiset(b);
    assert a[0] in multiset(b) && b[0] in multiset(a);
    hide Before;
    SmallestFirst(b, a[0]);
    SmallestFirst(a, b[0]);
    BeforeTotal(a[0], b[0]);
  }

  lemma SmallestFirst(s: seq<string>, x: string)
    requires Sorted(s) && x in s
    ensures !Before(x, s[0])
  {
    BeforeIrreflexive(x);
  }

  lemma TailsAlike(a: seq<string>, b: seq<string>)
    requires multiset(a) == multiset(b) && a != [] && b != [] && a[0] == b[0]
    ensures multiset(a[1..]) == multiset(b[1..])
  {
    assert a == [a[0]] + a[1..] && b == [b[0]] + b[1..];
    assert multiset(a[1..]) == multiset(a) - multiset{a[0]};
    assert multiset(b[1..]) == multiset(b) - multiset{b[0]};
  }

  lemma TailSorted(s: seq<string>)
    requires Sorted(s) && s != []
    ensures Sorted(s[1..])
  {
  }

  lemma {:induction false} BeforeIrreflexive(a: string)
    ensures !Before(a, a)
  {
    if a != "" {
      BeforeIrreflexive(a[1..]);
    }
  }

  /** Two queries share a fingerprint exactly when they ask the same index for the same values. */
  lemma SameFingerprintIff(table: string, idx: string, vs: seq<string>, table': string, idx': string, vs': seq<string>)
    requires '|' !in table && '|' !in idx && '|' !in table' && '|' !in idx' && Sorted(vs) && Sorted(vs')
    ensures Of(table, idx, vs) == Of(table', idx', vs')
            <==> table == table' && idx == idx' && multiset(vs) == multiset(vs')
  {
    hide Segments, Sorted;
    if Of(table, idx, vs) == Of(table', idx', vs') {
      assert table + ['|'] + (idx + Segments(vs)) == Of(table, idx, vs);
      assert table' + ['|'] + (idx' + Segments(vs')) == Of(table', idx', vs');
      FirstAt(table, '|', idx + Segments(vs));
      FirstAt(table', '|', idx' + Segments(vs'));
      SegmentsStart(vs);
      SegmentsStart(vs');
      UntilBar(idx, Segments(vs), idx', Segments(vs'));
      SegmentsDiffer(vs, vs');
    }
    if table == table' && idx == idx' && multiset(vs) == multiset(vs') {
      SortedIsUnique(vs, vs');
    }
  }

  lemma SegmentsStart(vs: seq<string>)
    ensures Segments(vs) == "" || Segments(vs)[0] == '|'
    ensures Segments(vs) == "" <==> vs == []
  {
  }

  lemma UntilBar(a: string, x: string, b: string, y: string)
    requires '|' !in a && '|' !in b && (x == "" || x[0] == '|') && (y == "" || y[0] == '|') && a + x == b + y
    ensures a == b && x == y
  {
    BarIn(a, x);
    BarIn(b, y);
    if x == "" {
      assert a + x == a && b + y == b;
    } else {
      assert x == ['|'] + x[1..] && y == ['|'] + y[1..];
      assert a + x == a + ['|'] + x[1..] && b + y == b + ['|'] + y[1..];
      FirstAt(a, '|', x[1..]);
      FirstAt(b, '|', y[1..]);
    }
  }

  lemma BarIn(a: string, x: string)
    requires '|' !in a && (x == "" || x[0] == '|')
    ensures '|' in a + x <==> x != ""
  {
    if x != "" {
      assert (a + x)[|a|] == '|';
    }
  }
}
