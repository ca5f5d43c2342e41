/**
 * Prefix copies and the split of equality values. The copies of an index are routed by the
 * entry "l" of its document, which is also the entry of the value "l": a split of that value
 * moves its members and not the copies.
 */
module PrefixSplit {
  import opened Wrappers
  import opened BucketMap
  import opened WritePath
  import opened Buckets
  import opened Splitter

  /** The copies' buckets that a prefix scan visits. */
  function LexReads(d: Doc, hot: set<string>): seq<nat> { if "l" in hot then ReadBucketsEq(d, "l") else [0] }

  predicate Scanned(d: Doc, hot: set<string>, zs: Zsets, id: string, m: Member) {
    exists b <- LexReads(d, hot) :: m in At(zs, LexKey(id, b))
  }

  /** Prefix scans find every copy that they found before. */
  ghost predicate KeepsCopies(d: Doc, hot: set<string>, zs: Zsets, d': Doc, hot': set<string>, zs': Zsets, id: string) {
    forall m: Member :: Scanned(d, hot, zs, id, m) ==> Scanned(d', hot', zs', id, m)
  }

  /** Every copy that scans find has a duplicate in one of the buckets that the split leaves. */
  predicate Duplicated(d: Doc, hot: set<string>, zs: Zsets, id: string) {
    forall b <- LexReads(d, hot), m <- At(zs, LexKey(id, b)) ::
      exists t <- Targets(Split, JobOf(Split, d, "l")) :: m in At(zs, LexKey(id, t))
  }

  lemma CopiesStay(d: Doc, d': Doc, enc: string, zs: Zsets, zs': Zsets, id: string, hash: Hash, rows: set<string>,
      b: nat)
    requires Completed(Split, d, d', enc, zs, zs', id, hash, rows)
    ensures At(zs', LexKey(id, b)) == At(zs, LexKey(id, b))
  {
    var sp := JobOf(Split, d, enc);
    assert Untouched(zs, zs', id, enc, Sources(Split, sp), Targets(Split, sp), LexKey(id, b));
  }

  /** A split keeps the copies in sight exactly when it is of another value, or all are duplicated. */
  lemma SplitKeepsCopiesIff(d: Doc, hot: set<string>, d': Doc, enc: string, zs: Zsets, zs': Zsets, id: string,
      hash: Hash, rows: set<string>)
    requires Completed(Split, d, d', enc, zs, zs', id, hash, rows)
    ensures KeepsCopies(d, hot, zs, d', hot + {enc}, zs', id) <==> enc != "l" || Duplicated(d, hot, zs, id)
  {
    forall b: nat ensures At(zs', LexKey(id, b)) == At(zs, LexKey(id, b)) {
      CopiesStay(d, d', enc, zs, zs', id, hash, rows, b);
    }
    hide Completed, JobOf;
    SplitReads(d, hot, d', enc, zs, zs', id, hash, rows);
    if enc == "l" && KeepsCopies(d, hot, zs, d', hot + {enc}, zs', id) {
      forall b, m | b in LexReads(d, hot) && m in At(zs, LexKey(id, b))
        ensures exists t <- Targets(Split, JobOf(Split, d, "l")) :: m in At(zs, LexKey(id, t))
      {
        assert Scanned(d, hot, zs, id, m);
        var t :| t in LexReads(d', hot + {enc}) && m in At(zs', LexKey(id, t));
      }
    }
  }

  lemma SplitReads(d: Doc, hot: set<string>, d': Doc, enc: string, zs: Zsets, zs': Zsets, id: string, hash: Hash,
      rows: set<string>)
    requires Completed(Split, d, d', enc, zs, zs', id, hash, rows)
    ensures LexReads(d', hot + {enc}) ==
        if enc == "l" then Targets(Split, JobOf(Split, d, "l")) else LexReads(d, hot)
  {
  }

  /** From rest there are no duplicates: only an index without any copy in sight survives the split of "l". */
  lemma AtRestNoneIsDuplicated(d: Doc, hot: set<string>, zs: Zsets, id: string)
    requires EntryOf(d, "l").split.None? && forall b: nat :: d.next <= b ==> At(zs, LexKey(id, b)) == map[]
    ensures Duplicated(d, hot, zs, id) <==> forall b <- LexReads(d, hot) :: At(zs, LexKey(id, b)) == map[]
  {
    assert forall t <- Targets(Split, JobOf(Split, d, "l")) :: d.next <= t;
    if Duplicated(d, hot, zs, id) {
      forall b | b in LexReads(d, hot) ensures At(zs, LexKey(id, b)) == map[] {
        forall m | m in At(zs, LexKey(id, b)) ensures false {
        }
      }
    }
  }

  /** The first split of the value "l" hides every copy of the index from prefix scans. */
  method SplitOfL(s: EqSplitter, m: Member) returns (ok: bool)
    requires s.Valid() && s.doc.eq == map[] && s.hot == {} && m in At(s.db.zsets, LexKey(s.id, 0))
    requires forall b: nat :: s.doc.next <= b ==> At(s.db.zsets, LexKey(s.id, b)) == map[]
    modifies s, s.db`zsets
    ensures ok && old(Scanned(s.doc, s.hot, s.db.zsets, s.id, m))
    ensures !Scanned(s.doc, s.hot, s.db.zsets, s.id, m) && m in At(s.db.zsets, LexKey(s.id, 0))
  {
    hide Sound, AtHome;
    ghost var d, zs := s.doc, s.db.zsets;
    ok := s.SplitEq("l", 0);
    SplitReads(d, {}, s.doc, "l", zs, s.db.zsets, s.id, s.hash, s.db.rows);
    forall b: nat ensures At(s.db.zsets, LexKey(s.id, b)) == At(zs, LexKey(s.id, b)) {
      CopiesStay(d, s.doc, "l", zs, s.db.zsets, s.id, s.hash, s.db.rows, b);
    }
    assert forall t <- Targets(Split, JobOf(Split, d, "l")) :: d.next <= t;
  }
}
