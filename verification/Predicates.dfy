/** The predicate that every row is checked against after it has been read. */
module Predicates {
  import opened Wrappers
  import opened BucketMap

  type Fields = map<string, string>

  /** A number as the row stores it; None for text that is no number. */
  type Parse = string -> Option<Score>

  datatype RangeBound = RangeBound(lo: Score, hi: Score, loOpen: bool, hiOpen: bool) {
    predicate Contains(f: Score) {
      && (if loOpen then !f.LessEq(lo) else !f.Less(lo))
      && (if hiOpen then !hi.LessEq(f) else !hi.Less(f))
    }
  }

  /** Byte order on strings. */
  predicate Before(a: string, b: string) {
    if b == "" then false
    else if a == "" then true
    else a[0] < b[0] || (a[0] == b[0] && Before(a[1..], b[1..]))
  }

  datatype StrRange = StrRange(lo: string, hi: string, loInf: bool, hiInf: bool, loOpen: bool, hiOpen: bool) {
    predicate Contains(v: string) {
      && (loInf || (if loOpen then v != lo && !Before(v, lo) else !Before(v, lo)))
      && (hiInf || (if hiOpen then v != hi && !Before(hi, v) else !Before(hi, v)))
    }
  }

  /** One column and one kind of test; the first that is present decides. */
  datatype Predicate = Predicate(column: string, eq: Option<seq<string>>, ranges: Option<seq<RangeBound>>,
      strs: Option<seq<StrRange>>, likePrefix: string)

  function Within(ranges: seq<RangeBound>, f: Score): bool { exists r <- ranges :: r.Contains(f) }

  /** The test of a column value. */
  predicate Passes(p: Predicate, parse: Parse, v: string) {
    if p.eq.Some? then v in p.eq.value
    else if p.ranges.Some? then parse(v).Some? && Within(p.ranges.value, parse(v).value)
    else if p.strs.Some? then exists r <- p.strs.value :: r.Contains(v)
    else p.likePrefix <= v
  }

  /** A missing column is NULL and meets no test. */
  predicate Match(p: Option<Predicate>, parse: Parse, raw: Fields) {
    p.None? || p.value.column == "" || (p.value.column in raw && Passes(p.value, parse, raw[p.value.column]))
  }

  /** The same test as the loops over its alternatives carry it out. */
  method MatchRow(p: Option<Predicate>, parse: Parse, raw: Fields) returns (ok: bool)
    ensures ok == Match(p, parse, raw)
  {
    if p.None? || p.value.column == "" {
      return true;
    }
    if p.value.column !in raw {
      return false;
    }
    var v := raw[p.value.column];
    if p.value.eq.Some? {
      var es := p.value.eq.value;
      for i := 0 to |es|
        invariant forall j :: 0 <= j < i ==> es[j] != v
      {
        if v == es[i] {
          return true;
        }
      }
      return false;
    }
    if p.value.ranges.Some? {
      var f := parse(v);
      if f.None? {
        return false;
      }
      var rs := p.value.ranges.value;
      for i := 0 to |rs|
        invariant forall j :: 0 <= j < i ==> !rs[j].Contains(f.value)
      {
        if rs[i].Contains(f.value) {
          return true;
        }
      }
      return false;
    }
    if p.value.strs.Some? {
      var rs := p.value.strs.value;
      for i := 0 to |rs|
        invariant forall j :: 0 <= j < i ==> !rs[j].Contains(v)
      {
        if rs[i].Contains(v) {
          return true;
        }
      }
      return false;
    }
    return p.value.likePrefix <= v;
  }

  /** Only the predicate's own column matters. */
  lemma MatchDependsOnColumn(p: Option<Predicate>, parse: Parse, a: Fields, b: Fields)
    requires p.Some? ==>
               (&& (p.value.column in a <==> p.value.column in b)
                && (p.value.column in a ==> a[p.value.column] == b[p.value.column]))
    ensures Match(p, parse, a) == Match(p, parse, b)
  {
  }

  // ----- what the tests mean ----------------------------------------------------------------------

  /** Up to `k` the strings agree; there the first one ends, or has the smaller byte. */
  predicate DifferAt(a: string, b: string, k: nat) {
    k <= |a| && k < |b| && a[..k] == b[..k] && (k == |a| || a[k] < b[k])
  }

  /** Byte order is decided by the first difference, and a proper prefix comes first. */
  lemma {:induction false} BeforeIff(a: string, b: string)
    ensures Before(a, b) <==> exists k: nat :: DifferAt(a, b, k)
  {
    if a == "" {
      assert b != "" ==> DifferAt(a, b, 0);
    } else if b != "" {
      BeforeIff(a[1..], b[1..]);
      if a[0] < b[0] {
        assert DifferAt(a, b, 0);
      } else if a[0] == b[0] {
        if k: nat :| DifferAt(a[1..], b[1..], k) {
          assert a[..k + 1] == [a[0]] + a[1..][..k] && b[..k + 1] == [b[0]] + b[1..][..k];
          assert DifferAt(a, b, k + 1);
        }
        if k: nat :| DifferAt(a, b, k) {
          ShorterDiffer(a, b, k);
        }
      } else {
        forall k: nat ensures !DifferAt(a, b, k) {
          if k > 0 && k <= |a| && k <= |b| { assert a[..k][0] == a[0] && b[..k][0] == b[0]; }
        }
      }
    }
  }

  lemma ShorterDiffer(a: string, b: string, k: nat)
    requires a != "" && b != "" && a[0] == b[0] && DifferAt(a, b, k)
    ensures k > 0 && DifferAt(a[1..], b[1..], k - 1)
  {
    assert a[1..][..k - 1] == a[..k][1..] && b[1..][..k - 1] == b[..k][1..];
  }

  /** Of two strings one comes first, unless they are the same. */
  lemma {:induction false} BeforeIsTotal(a: string, b: string)
    ensures Before(a, b) || a == b || Before(b, a)
    ensures !(Before(a, b) && Before(b, a)) && !Before(a, a)
  {
    if a != "" && b != "" {
      BeforeIsTotal(a[1..], b[1..]);
      assert a == [a[0]] + a[1..] && b == [b[0]] + b[1..];
    }
    if a != "" {
      BeforeIsTotal(a[1..], a[1..]);
    }
  }

  /** Between the bounds in byte order, or on one that is not open. */
  lemma TextInterval(r: StrRange, v: string)
    ensures r.Contains(v) <==>
            && (r.loInf || Before(r.lo, v) || (v == r.lo && !r.loOpen))
            && (r.hiInf || Before(v, r.hi) || (v == r.hi && !r.hiOpen))
  {
    BeforeIsTotal(r.lo, v);
    BeforeIsTotal(v, r.hi);
  }

  /** An open end excludes its own bound; a closed one has it if the other end allows it. */
  lemma TextBounds(r: StrRange)
    ensures !r.loInf && r.loOpen ==> !r.Contains(r.lo)
    ensures !r.hiInf && r.hiOpen ==> !r.Contains(r.hi)
    ensures !r.loInf && !r.loOpen && (r.hiInf || Before(r.lo, r.hi)) ==> r.Contains(r.lo)
    ensures !r.hiInf && !r.hiOpen && (r.loInf || Before(r.lo, r.hi)) ==> r.Contains(r.hi)
    ensures r.loInf && r.hiInf ==> forall v: string :: r.Contains(v)
  {
    TextInterval(r, r.lo);
    TextInterval(r, r.hi);
  }

  lemma NumberInterval(r: RangeBound, f: Score)
    ensures r.Contains(f) <==> (r.lo.Less(f) || (f == r.lo && !r.loOpen)) && (f.Less(r.hi) || (f == r.hi && !r.hiOpen))
  {
  }

  /**
   * What a row has to have: one of the values listed; else a number in one of the intervals;
   * else a text in one of them; else the prefix. A row without the column meets no test.
   */
  lemma MatchMeans(p: Predicate, parse: Parse, raw: Fields)
    requires p.column != ""
    ensures p.column !in raw ==> !Match(Some(p), parse, raw)
    ensures p.column in raw && p.eq.Some? ==>
              (Match(Some(p), parse, raw) <==> exists e <- p.eq.value :: e == raw[p.column])
    ensures p.column in raw && p.eq.None? && p.ranges.Some? ==>
              (Match(Some(p), parse, raw) <==>
                 exists r <- p.ranges.value, f: Score ::
                   && parse(raw[p.column]) == Some(f)
                   && (r.lo.Less(f) || (f == r.lo && !r.loOpen)) && (f.Less(r.hi) || (f == r.hi && !r.hiOpen)))
    ensures p.column in raw && p.eq.None? && p.ranges.None? && p.strs.Some? ==>
              (Match(Some(p), parse, raw) <==>
                 exists r <- p.strs.value ::
                   && (r.loInf || Before(r.lo, raw[p.column]) || (raw[p.column] == r.lo && !r.loOpen))
                   && (r.hiInf || Before(raw[p.column], r.hi) || (raw[p.column] == r.hi && !r.hiOpen)))
    ensures p.column in raw && p.eq.None? && p.ranges.None? && p.strs.None? ==>
              (Match(Some(p), parse, raw) <==> exists rest: string :: raw[p.column] == p.likePrefix + rest)
  {
    hide Before;
    if p.column in raw {
      var v := raw[p.column];
      if p.strs.Some? {
        forall r | r in p.strs.value
          ensures r.Contains(v) <==>
                  && (r.loInf || Before(r.lo, v) || (v == r.lo && !r.loOpen))
                  && (r.hiInf || Before(v, r.hi) || (v == r.hi && !r.hiOpen))
        {
          TextInterval(r, v);
        }
      }
      assert p.likePrefix <= v ==> v == p.likePrefix + v[|p.likePrefix|..];
    }
  }

  /** Without a test every row passes. */
  lemma NoTest(p: Option<Predicate>, parse: Parse, raw: Fields)
    ensures p.None? || p.value.column == "" ==> Match(p, parse, raw)
  {
  }
}
