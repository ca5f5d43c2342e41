/**
 * The controller's split and merge of equality buckets, as it runs when no writer is active:
 * page loops that empty the old buckets, the states stored one CAS at a time, and the
 * conservation of every living member.
 */
module Splitter {
  import opened Wrappers
  import opened BucketMap
  import opened WritePath
  import opened Buckets

  const MAX_STEP_RETRIES: nat := 8

  function K(id: string, enc: string, b: nat): Key { EqKey(id, enc, b) }

  /** Members go to the bucket the writers' hash picks among `tos`, with score 0. */
  function EqRoute(id: string, hash: Hash, enc: string, tos: seq<nat>): Route
    requires tos != []
  {
    (m: Member, s: Score) => (K(id, enc, tos[EqSubFor(hash, m.pk, |tos|)]), Fin(0.0))
  }

  /** A living member of one of the old buckets whose home is `k`. */
  ghost predicate Arrives(zs: Zsets, id: string, hash: Hash, enc: string, froms: seq<nat>, tos: seq<nat>,
      rows: set<string>, m: Member, k: Key)
    requires tos != []
  {
    && m.pk in rows && k == K(id, enc, tos[EqSubFor(hash, m.pk, |tos|)])
    && exists b <- froms :: m in At(zs, K(id, enc, b))
  }

  /** The old buckets are empty, their living members are at home, nothing else has changed. */
  ghost predicate Gathered(zs: Zsets, zs': Zsets, id: string, hash: Hash, enc: string, froms: seq<nat>, tos: seq<nat>,
      rows: set<string>)
    requires tos != []
  {
    && (forall b <- froms :: At(zs', K(id, enc, b)) == map[])
    && (forall k: Key | !(k.EqKey? && k.id == id && k.enc == enc && k.sub in froms) ::
          forall m: Member ::
            && (m in At(zs', k) <==> m in At(zs, k) || Arrives(zs, id, hash, enc, froms, tos, rows, m, k))
            && (m in At(zs', k) ==>
                  At(zs', k)[m] == if Arrives(zs, id, hash, enc, froms, tos, rows, m, k) then Fin(0.0)
                      else At(zs, k)[m]))
  }

  ghost predicate Disjoint(a: seq<nat>, b: seq<nat>) { forall x <- a :: x !in b }

  lemma NothingGathered(zs: Zsets, id: string, hash: Hash, enc: string, tos: seq<nat>, rows: set<string>)
    requires tos != []
    ensures Gathered(zs, zs, id, hash, enc, [], tos, rows)
  {
  }

  lemma GatherOne(zs: Zsets, mid: Zsets, zs': Zsets, id: string, hash: Hash, enc: string, froms: seq<nat>, i: nat,
      tos: seq<nat>, rows: set<string>)
    requires i < |froms| && tos != [] && NoRepeats(froms) && Disjoint(froms, tos)
    requires Gathered(zs, mid, id, hash, enc, froms[..i], tos, rows)
    requires Moved(mid, zs', K(id, enc, froms[i]), At(mid, K(id, enc, froms[i])), rows, EqRoute(id, hash, enc, tos))
    ensures Gathered(zs, zs', id, hash, enc, froms[..i + 1], tos, rows)
  {
    hide At, EqSubFor;
    var b := froms[i];
    var from := K(id, enc, b);
    var route := EqRoute(id, hash, enc, tos);
    assert b !in froms[..i];
    assert froms[..i + 1] == froms[..i] + [b];
    assert At(mid, from) == At(zs, from) by {
      forall m: Member ensures !Arrives(zs, id, hash, enc, froms[..i], tos, rows, m, from) {
        SubBound(hash, m.pk, |tos|);
        assert tos[EqSubFor(hash, m.pk, |tos|)] in tos && b in froms;
      }
      assert At(mid, from).Keys == At(zs, from).Keys;
    }
    forall x | x in froms[..i + 1] ensures At(zs', K(id, enc, x)) == map[] {
      if x != b {
        assert x in froms && Routed(At(mid, from), rows, route, K(id, enc, x)) == map[];
        assert At(zs', K(id, enc, x)) == At(mid, K(id, enc, x)) + map[];
      }
    }
    forall k: Key, m: Member | !(k.EqKey? && k.id == id && k.enc == enc && k.sub in froms[..i + 1])
      ensures m in At(zs', k) <==> m in At(zs, k) || Arrives(zs, id, hash, enc, froms[..i + 1], tos, rows, m, k)
      ensures m in At(zs', k) ==>
                At(zs', k)[m] == if Arrives(zs, id, hash, enc, froms[..i + 1], tos, rows, m, k) then Fin(0.0)
                    else At(zs, k)[m]
    {
      assert k != from;
      assert At(zs', k) == At(mid, k) + Routed(At(zs, from), rows, route, k);
      assert Arrives(zs, id, hash, enc, froms[..i + 1], tos, rows, m, k) <==>
             Arrives(zs, id, hash, enc, froms[..i], tos, rows, m, k) || m in Routed(At(zs, from), rows, route, k);
    }
  }

  /** A second pass over emptied buckets changes nothing. */
  lemma GatherAgain(zs: Zsets, mid: Zsets, zs': Zsets, id: string, hash: Hash, enc: string, froms: seq<nat>,
      tos: seq<nat>, rows: set<string>)
    requires tos != [] && Disjoint(froms, tos)
    requires Gathered(zs, mid, id, hash, enc, froms, tos, rows) && Gathered(mid, zs', id, hash, enc, froms, tos, rows)
    ensures Gathered(zs, zs', id, hash, enc, froms, tos, rows)
  {
    hide At, EqSubFor;
    assert forall m: Member, k: Key :: !Arrives(mid, id, hash, enc, froms, tos, rows, m, k);
  }

  /** A bucket of the new side holds the members at home there that it or an old bucket held. */
  ghost predicate HoldsItsOwn(zs: Zsets, zs': Zsets, id: string, hash: Hash, enc: string, froms: seq<nat>,
      tos: seq<nat>, rows: set<string>, i: nat, m: Member)
    requires i < |tos|
  {
    m in At(zs', K(id, enc, tos[i])) <==>
    && EqSubFor(hash, m.pk, |tos|) == i
    && (m in At(zs, K(id, enc, tos[i])) || (m.pk in rows && exists b <- froms :: m in At(zs, K(id, enc, b))))
  }

  ghost predicate Untouched(zs: Zsets, zs': Zsets, id: string, enc: string, froms: seq<nat>, tos: seq<nat>, k: Key) {
    !(k.EqKey? && k.id == id && k.enc == enc && (k.sub in froms || k.sub in tos)) ==> At(zs', k) == At(zs, k)
  }

  /** Where a living member of an old bucket, or a member already moved, is afterwards. */
  ghost predicate Conserved(zs: Zsets, zs': Zsets, id: string, hash: Hash, enc: string, froms: seq<nat>, tos: seq<nat>,
      rows: set<string>)
    requires tos != []
  {
    && (forall i: nat, m: Member :: i < |tos| ==> HoldsItsOwn(zs, zs', id, hash, enc, froms, tos, rows, i, m))
    && (forall b <- froms :: At(zs', K(id, enc, b)) == map[])
    && (forall k: Key :: Untouched(zs, zs', id, enc, froms, tos, k))
  }

  /** Every member of the buckets `bs` is where the hash puts it. */
  ghost predicate AtHome(zs: Zsets, id: string, hash: Hash, enc: string, bs: seq<nat>) {
    forall i, m: Member :: 0 <= i < |bs| && m in At(zs, K(id, enc, bs[i])) ==> EqSubFor(hash, m.pk, |bs|) == i
  }

  lemma GatheredConserves(zs: Zsets, zs': Zsets, id: string, hash: Hash, enc: string, froms: seq<nat>, tos: seq<nat>,
      rows: set<string>)
    requires tos != [] && NoRepeats(tos) && Disjoint(froms, tos) && AtHome(zs, id, hash, enc, tos)
    requires Gathered(zs, zs', id, hash, enc, froms, tos, rows)
    ensures Conserved(zs, zs', id, hash, enc, froms, tos, rows) && AtHome(zs', id, hash, enc, tos)
  {
    hide At, EqSubFor, Gathered;
    forall i: nat, m: Member | i < |tos| ensures HoldsItsOwn(zs, zs', id, hash, enc, froms, tos, rows, i, m) {
      GatheredTarget(zs, zs', id, hash, enc, froms, tos, rows, i, m);
    }
    forall k: Key ensures Untouched(zs, zs', id, enc, froms, tos, k) {
      GatheredElsewhere(zs, zs', id, hash, enc, froms, tos, rows, k);
    }
    GatheredEmpties(zs, zs', id, hash, enc, froms, tos, rows);
    ConservedHome(zs, zs', id, hash, enc, froms, tos, rows);
  }

  lemma GatheredEmpties(zs: Zsets, zs': Zsets, id: string, hash: Hash, enc: string, froms: seq<nat>, tos: seq<nat>,
      rows: set<string>)
    requires tos != [] && Gathered(zs, zs', id, hash, enc, froms, tos, rows)
    ensures forall b <- froms :: At(zs', K(id, enc, b)) == map[]
  {
    hide At;
  }

  lemma GatheredTarget(zs: Zsets, zs': Zsets, id: string, hash: Hash, enc: string, froms: seq<nat>, tos: seq<nat>,
      rows: set<string>, i: nat, m: Member)
    requires tos != [] && NoRepeats(tos) && Disjoint(froms, tos) && AtHome(zs, id, hash, enc, tos) && i < |tos|
    requires Gathered(zs, zs', id, hash, enc, froms, tos, rows)
    ensures HoldsItsOwn(zs, zs', id, hash, enc, froms, tos, rows, i, m)
  {
    hide At, EqSubFor;
    var k := K(id, enc, tos[i]);
    assert tos[i] !in froms;
    var h := EqSubFor(hash, m.pk, |tos|);
    assert h < |tos| by { SubBound(hash, m.pk, |tos|); }
    assert tos[h] == tos[i] <==> h == i;
    assert m in At(zs', k) <==> m in At(zs, k) || Arrives(zs, id, hash, enc, froms, tos, rows, m, k);
  }

  lemma GatheredElsewhere(zs: Zsets, zs': Zsets, id: string, hash: Hash, enc: string, froms: seq<nat>, tos: seq<nat>,
      rows: set<string>, k: Key)
    requires tos != [] && Gathered(zs, zs', id, hash, enc, froms, tos, rows)
    ensures Untouched(zs, zs', id, enc, froms, tos, k)
  {
    hide At, EqSubFor;
    if k.EqKey? && k.id == id && k.enc == enc && (k.sub in froms || k.sub in tos) {
      return;
    }
    forall m: Member
      ensures (m in At(zs', k) <==> m in At(zs, k)) && (m in At(zs', k) ==> At(zs', k)[m] == At(zs, k)[m])
    {
      SubBound(hash, m.pk, |tos|);
      assert !Arrives(zs, id, hash, enc, froms, tos, rows, m, k);
    }
  }

  lemma SubBound(hash: Hash, pk: string, n: nat)
    requires n > 0
    ensures EqSubFor(hash, pk, n) < n
  {
  }

  /** The split or merge that a call starts, or finds under way, for the value. */
  function JobOf(dir: Direction, d: Doc, enc: string): SplitInfo {
    var e := EntryOf(d, enc);
    if e.split.Some? then e.split.value else Begin(dir, e, d.next).split.value
  }

  /** Nothing is under way for the value, or a protocol of this direction is. */
  predicate Fits(dir: Direction, e: EqEntry) {
    e.split.None? || e.split.value.state == DualState(dir) || e.split.value.state == DrainState(dir)
  }

  lemma JobIsSound(dir: Direction, d: Doc, enc: string)
    requires DocOK(d) && Fits(dir, EntryOf(d, enc)) && FreshCount(dir, EntryOf(d, enc)) > 0
    ensures var sp := JobOf(dir, d, enc);
            && dir == DirOf(sp.state) && Targets(dir, sp) != [] && NoRepeats(Sources(dir, sp))
            && NoRepeats(Targets(dir, sp))
            && Disjoint(Sources(dir, sp), Targets(dir, sp))
            && EntryOK(EqEntry(EntryOf(d, enc).buckets, Some(sp)), d.next + FreshCount(dir, EntryOf(d, enc)))
  {
    var e := EntryOf(d, enc);
    assert EntryOK(e, d.next);
    if e.split.None? {
      BeginEntry(dir, e, d.next, d.next + FreshCount(dir, e));
    }
  }

  /** The buckets about to be filled are fresh and empty, or hold only members at home. */
  lemma TargetsAtHome(dir: Direction, d: Doc, enc: string, zs: Zsets, id: string, hash: Hash)
    requires DocOK(d) && Fits(dir, EntryOf(d, enc)) && FreshCount(dir, EntryOf(d, enc)) > 0
    requires forall b: nat :: d.next <= b ==> At(zs, K(id, enc, b)) == map[]
    requires AtHome(zs, id, hash, enc, Settled(EntryOf(d, enc)))
    ensures AtHome(zs, id, hash, enc, Targets(dir, JobOf(dir, d, enc)))
  {
    hide At;
    var e := EntryOf(d, enc);
    if e.split.None? {
      BeginEntryTargets(dir, e, d.next);
    } else {
      assert Targets(dir, e.split.value) == Settled(e);
    }
  }

  lemma BeginEntryTargets(dir: Direction, e: EqEntry, next: nat)
    ensures forall b <- Targets(dir, Begin(dir, e, next).split.value) :: next <= b
  {
  }

  lemma GatheredSame(zs: Zsets, mid: Zsets, zs': Zsets, id: string, hash: Hash, enc: string, froms: seq<nat>,
      tos: seq<nat>, rows: set<string>)
    requires tos != [] && Gathered(zs, mid, id, hash, enc, froms, tos, rows)
    requires forall k: Key :: At(zs', k) == At(mid, k)
    ensures Gathered(zs, zs', id, hash, enc, froms, tos, rows)
  {
    hide At;
  }

  /** What a finished call leaves: the published entry over conserved buckets. */
  ghost predicate Completed(dir: Direction, d: Doc, d': Doc, enc: string, zs: Zsets, zs': Zsets, id: string,
      hash: Hash, rows: set<string>) {
    var sp := JobOf(dir, d, enc);
    && d.next <= d'.next && d'.ranges == d.ranges && d'.eq == d.eq[enc := Finish(dir, sp)]
    && Targets(dir, sp) != [] && Conserved(zs, zs', id, hash, enc, Sources(dir, sp), Targets(dir, sp), rows)
  }

  /** The value has `n` buckets, numbered on from the allocator, which has gone past them. */
  ghost predicate Renumbered(d: Doc, d': Doc, enc: string, n: nat) {
    && d'.next == d.next + n && EntryOf(d', enc).split.None?
    && EntryOf(d', enc).buckets == seq(n, i requires 0 <= i < n => d.next + i)
  }

  /** The value has just the buckets that were being filled, and no number has been used up. */
  ghost predicate Settles(d: Doc, d': Doc, enc: string, buckets: seq<nat>) {
    d'.next == d.next && EntryOf(d', enc) == EqEntry(buckets, None)
  }

  lemma FromRest(dir: Direction, d: Doc, d': Doc, enc: string)
    requires EntryOf(d, enc).split.None? && d'.next == d.next + FreshCount(dir, EntryOf(d, enc))
    requires d'.eq == d.eq[enc := Finish(dir, JobOf(dir, d, enc))]
    ensures Renumbered(d, d', enc, if dir.Split? then 2 * |EntryOf(d, enc).buckets| else |EntryOf(d, enc).buckets| / 2)
  {
  }

  ghost predicate Sound(d: Doc, zs: Zsets, id: string, hash: Hash) {
    && DocOK(d)
    && (forall enc: string, b: nat :: d.next <= b ==> At(zs, K(id, enc, b)) == map[])
    && (forall enc: string :: AtHome(zs, id, hash, enc, Settled(EntryOf(d, enc))))
  }

  lemma CompletedIsSound(dir: Direction, d: Doc, d': Doc, enc: string, zs: Zsets, zs': Zsets, id: string, hash: Hash,
      rows: set<string>)
    requires Sound(d, zs, id, hash) && Fits(dir, EntryOf(d, enc)) && FreshCount(dir, EntryOf(d, enc)) > 0
    requires d'.next == d.next || d'.next == d.next + FreshCount(dir, EntryOf(d, enc))
    requires EntryOf(d, enc).split.None? ==> d'.next == d.next + FreshCount(dir, EntryOf(d, enc))
    requires Completed(dir, d, d', enc, zs, zs', id, hash, rows)
    ensures Sound(d', zs', id, hash)
  {
    hide At, EqSubFor, Conserved;
    var e := EntryOf(d, enc);
    var sp := JobOf(dir, d, enc);
    var froms, tos := Sources(dir, sp), Targets(dir, sp);
    JobIsSound(dir, d, enc);
    assert EntryOK(e, d.next);
    var mid := EqEntry(e.buckets, Some(sp));
    assert EntryOK(mid, d'.next);
    FinishEntry(dir, sp, mid, d'.next);
    assert DocOK(d');
    assert forall b <- froms :: b in EntryReads(mid);
    assert forall b <- tos :: b in EntryReads(mid);
    hide DocOK, EntryOK;
    forall v: string, b: nat | d'.next <= b ensures At(zs', K(id, v, b)) == map[] {
      ConservedSame(zs, zs', id, hash, enc, froms, tos, rows, v, b);
    }
    forall v: string ensures AtHome(zs', id, hash, v, Settled(EntryOf(d', v))) {
      if v != enc {
        assert AtHome(zs, id, hash, v, Settled(EntryOf(d, v)));
        forall b: nat ensures At(zs', K(id, v, b)) == At(zs, K(id, v, b)) {
          ConservedSame(zs, zs', id, hash, enc, froms, tos, rows, v, b);
        }
      } else {
        ConservedHome(zs, zs', id, hash, enc, froms, tos, rows);
      }
    }
  }

  lemma ConservedSame(zs: Zsets, zs': Zsets, id: string, hash: Hash, enc: string, froms: seq<nat>, tos: seq<nat>,
      rows: set<string>, v: string, b: nat)
    requires tos != [] && Conserved(zs, zs', id, hash, enc, froms, tos, rows)
    requires (v != enc || (b !in froms && b !in tos))
    ensures At(zs', K(id, v, b)) == At(zs, K(id, v, b))
  {
    hide At, HoldsItsOwn;
    assert Untouched(zs, zs', id, enc, froms, tos, K(id, v, b));
  }

  lemma ConservedHome(zs: Zsets, zs': Zsets, id: string, hash: Hash, enc: string, froms: seq<nat>, tos: seq<nat>,
      rows: set<string>)
    requires tos != [] && Conserved(zs, zs', id, hash, enc, froms, tos, rows)
    ensures AtHome(zs', id, hash, enc, tos)
  {
    hide At, EqSubFor, Untouched;
    forall i: int, m: Member | 0 <= i < |tos| && m in At(zs', K(id, enc, tos[i]))
      ensures EqSubFor(hash, m.pk, |tos|) == i
    {
      assert HoldsItsOwn(zs, zs', id, hash, enc, froms, tos, rows, i, m);
    }
  }

  class EqSplitter {
    const id: string
    const hash: Hash
    const batch: nat
    const db: Store
    var doc: Doc
    var hot: set<string>

    constructor (id: string, hash: Hash, batch: nat, db: Store)
      requires batch > 0 && db.zsets == map[]
      ensures this.id == id && this.hash == hash && this.batch == batch && this.db == db
      ensures Valid() && doc == DefaultDoc() && hot == {}
    {
      this.id, this.hash, this.batch, this.db := id, hash, batch, db;
      doc, hot := DefaultDoc(), {};
    }

    /** Unallocated buckets are empty and every settled bucket holds only members at home there. */
    ghost predicate Valid()
      reads this, db
    {
      batch > 0 && Sound(doc, db.zsets, id, hash)
    }

    method MigrateEqTo(enc: string, from: nat, tos: seq<nat>)
      requires batch > 0 && tos != [] && from !in tos
      modifies db`zsets
      ensures Moved(old(db.zsets), db.zsets, K(id, enc, from), At(old(db.zsets), K(id, enc, from)), db.rows,
          EqRoute(id, hash, enc, tos))
    {
      db.MoveBucket(K(id, enc, from), EqRoute(id, hash, enc, tos), batch);
    }

    /** One pass: each old bucket in turn. */
    method MigrateEq(enc: string, froms: seq<nat>, tos: seq<nat>)
      requires batch > 0 && tos != [] && NoRepeats(froms) && Disjoint(froms, tos)
      modifies db`zsets
      ensures Gathered(old(db.zsets), db.zsets, id, hash, enc, froms, tos, db.rows)
    {
      hide Gathered, Moved;
      NothingGathered(db.zsets, id, hash, enc, tos, db.rows);
      for i := 0 to |froms|
        invariant Gathered(old(db.zsets), db.zsets, id, hash, enc, froms[..i], tos, db.rows)
      {
        ghost var mid := db.zsets;
        MigrateEqTo(enc, froms[i], tos);
        GatherOne(old(db.zsets), mid, db.zsets, id, hash, enc, froms, i, tos, db.rows);
      }
      assert froms[..|froms|] == froms;
    }

    /** Passes repeated until the grace period is over; at least one. */
    method DrainGrace(enc: string, froms: seq<nat>, tos: seq<nat>, passes: nat)
      requires batch > 0 && tos != [] && NoRepeats(froms) && Disjoint(froms, tos)
      modifies db`zsets
      ensures Gathered(old(db.zsets), db.zsets, id, hash, enc, froms, tos, db.rows)
    {
      hide Gathered;
      MigrateEq(enc, froms, tos);
      for i := 0 to passes
        invariant Gathered(old(db.zsets), db.zsets, id, hash, enc, froms, tos, db.rows)
      {
        ghost var mid := db.zsets;
        MigrateEq(enc, froms, tos);
        GatherAgain(old(db.zsets), mid, db.zsets, id, hash, enc, froms, tos, db.rows);
      }
    }

    /** UNLINK of the old buckets, which the passes have emptied. */
    method UnlinkAll(enc: string, froms: seq<nat>)
      modifies db`zsets
      ensures forall k: Key :: At(db.zsets, k) == if k.EqKey? && k.id == id && k.enc == enc && k.sub in froms then map[]
          else At(old(db.zsets), k)
    {
      for i := 0 to |froms|
        invariant forall k: Key :: At(db.zsets, k) == if k.EqKey? && k.id == id && k.enc == enc && k.sub in froms[..i]
            then map[] else At(old(db.zsets), k)
      {
        db.zsets := db.zsets - {K(id, enc, froms[i])};
        assert froms[..i + 1] == froms[..i] + [froms[i]];
      }
      assert froms[..|froms|] == froms;
    }

    /** bucket_state_cas.lua on the allocator field. */
    method CasNext(seen: nat, next: nat) returns (ok: bool)
      modifies this`doc
      ensures ok == (old(doc).version == seen)
      ensures doc == if ok then old(doc).(version := seen + 1, next := next) else old(doc)
    {
      ok := doc.version == seen;
      if ok {
        doc := doc.(version := doc.version + 1, next := next);
      }
    }

    /** bucket_state_cas.lua on an entry field. */
    method CasEntry(seen: nat, enc: string, e: EqEntry) returns (ok: bool)
      modifies this`doc
      ensures ok == (old(doc).version == seen)
      ensures doc == if ok then old(doc).(version := seen + 1, eq := old(doc).eq[enc := e]) else old(doc)
    {
      ok := doc.version == seen;
      if ok {
        doc := doc.(version := doc.version + 1, eq := doc.eq[enc := e]);
      }
    }

    /**
     * The two remaining steps of either protocol: move while both sides are written, store
     * the draining state, move until the grace period is over, unlink, publish.
     */
    method Advance(dir: Direction, enc: string, passes: nat, e: EqEntry)
      requires batch > 0 && enc in doc.eq && doc.eq[enc] == e && e.split.Some?
      requires e.split.value.state in {DualState(dir), DrainState(dir)}
      requires var sp := e.split.value;
               var froms, tos := Sources(dir, sp), Targets(dir, sp);
               tos != [] && NoRepeats(froms) && Disjoint(froms, tos)
      modifies this`doc, db`zsets
      ensures doc.next == old(doc).next && doc.ranges == old(doc).ranges
      ensures doc.eq == old(doc).eq[enc := Finish(dir, e.split.value)]
      ensures Gathered(old(db.zsets), db.zsets, id, hash, enc, Sources(dir, e.split.value), Targets(dir, e.split.value),
          db.rows)
    {
      hide Gathered, NoRepeats, Disjoint;
      var froms, tos := Sources(dir, e.split.value), Targets(dir, e.split.value);
      var cur := e;
      if cur.split.value.state == DualState(dir) {
        MigrateEq(enc, froms, tos);
        var sh := doc;
        cur := ToDrain(dir, sh.eq[enc]);
        var drained := CasEntry(sh.version, enc, cur);
        ghost var mid := db.zsets;
        DrainGrace(enc, froms, tos, passes);
        GatherAgain(old(db.zsets), mid, db.zsets, id, hash, enc, froms, tos, db.rows);
      } else {
        DrainGrace(enc, froms, tos, passes);
      }
      ghost var moved := db.zsets;
      UnlinkAll(enc, froms);
      UnlinkedSame(old(db.zsets), moved, db.zsets, id, hash, enc, froms, tos, db.rows);
      var sh := doc;
      var published := CasEntry(sh.version, enc, Finish(dir, e.split.value));
    }

    /**
     * Split of one value: n buckets become 2n. A protocol found under way is finished from
     * where it stands; one of the other direction is left alone and reported.
     */
    method SplitEq(enc: string, passes: nat) returns (ok: bool)
      requires Valid()
      modifies this, db`zsets
      ensures Valid()
      ensures ok <==> Fits(Split, EntryOf(old(doc), enc))
      ensures ok ==>
                && Completed(Split, old(doc), doc, enc, old(db.zsets), db.zsets, id, hash, db.rows)
                && hot == old(hot) + {enc}
      ensures ok && EntryOf(old(doc), enc).split.None? ==>
                Renumbered(old(doc), doc, enc, 2 * |EntryOf(old(doc), enc).buckets|)
      ensures ok && EntryOf(old(doc), enc).split.Some? ==>
                Settles(old(doc), doc, enc, EntryOf(old(doc), enc).split.value.children)
      ensures !ok ==> doc == old(doc) && db.zsets == old(db.zsets) && hot == old(hot)
    {
      hide Conserved, Gathered, AtHome, Fresh, Completed, Renumbered;
      assert EntryOK(EntryOf(doc, enc), doc.next);
      ok := false;
      for attempt := 0 to MAX_STEP_RETRIES
        invariant !ok && doc == old(doc) && db.zsets == old(db.zsets) && hot == old(hot)
        invariant attempt > 0 ==> !Fits(Split, EntryOf(old(doc), enc))
      {
        var sh := doc;
        var e := EntryOf(sh, enc);
        if Fits(Split, e) {
          JobIsSound(Split, sh, enc);
          if e.split.None? {
            var reserved := CasNext(sh.version, sh.next + 2 * |e.buckets|);
            var sh2 := doc;
            e := Begin(Split, e, sh.next);
            var begun := CasEntry(sh2.version, enc, e);
          }
          Advance(Split, enc, passes, e);
          hot := hot + {enc};
          FinishCall(Split, old(doc), doc, enc, old(db.zsets), db.zsets, id, hash, db.rows);
          if EntryOf(old(doc), enc).split.None? {
            FromRest(Split, old(doc), doc, enc);
          }
          ok := true;
          return;
        }
      }
    }

    /** Merge of one value: 2n buckets become n; a single bucket has nothing to merge. */
    method MergeEq(enc: string, passes: nat) returns (ok: bool)
      requires Valid()
      modifies this, db`zsets
      ensures Valid()
      ensures ok <==> |EntryOf(old(doc), enc).buckets| <= 1 || Fits(Merge, EntryOf(old(doc), enc))
      ensures ok && |EntryOf(old(doc), enc).buckets| > 1 ==>
                Completed(Merge, old(doc), doc, enc, old(db.zsets), db.zsets, id, hash, db.rows)
      ensures ok && |EntryOf(old(doc), enc).buckets| > 1 && EntryOf(old(doc), enc).split.None? ==>
                Renumbered(old(doc), doc, enc, |EntryOf(old(doc), enc).buckets| / 2)
      ensures ok && |EntryOf(old(doc), enc).buckets| > 1 && EntryOf(old(doc), enc).split.Some? ==>
                Settles(old(doc), doc, enc, EntryOf(old(doc), enc).split.value.parents)
      ensures !ok || |EntryOf(old(doc), enc).buckets| <= 1 ==> doc == old(doc) && db.zsets == old(db.zsets)
      ensures hot == old(hot)
    {
      hide Conserved, Gathered, AtHome, Fresh, Completed, Renumbered;
      assert EntryOK(EntryOf(doc, enc), doc.next);
      ok := false;
      for attempt := 0 to MAX_STEP_RETRIES
        invariant !ok && doc == old(doc) && db.zsets == old(db.zsets) && hot == old(hot)
        invariant attempt > 0 ==> |EntryOf(old(doc), enc).buckets| > 1 && !Fits(Merge, EntryOf(old(doc), enc))
      {
        var sh := doc;
        var e := EntryOf(sh, enc);
        if |e.buckets| <= 1 {
          ok := true;
          return;
        }
        if Fits(Merge, e) {
          JobIsSound(Merge, sh, enc);
          if e.split.None? {
            var reserved := CasNext(sh.version, sh.next + |e.buckets| / 2);
            var sh2 := doc;
            e := Begin(Merge, e, sh.next);
            var begun := CasEntry(sh2.version, enc, e);
          }
          Advance(Merge, enc, passes, e);
          FinishCall(Merge, old(doc), doc, enc, old(db.zsets), db.zsets, id, hash, db.rows);
          if EntryOf(old(doc), enc).split.None? {
            FromRest(Merge, old(doc), doc, enc);
          }
          ok := true;
          return;
        }
      }
    }
  }

  lemma UnlinkedSame(zs: Zsets, mid: Zsets, zs': Zsets, id: string, hash: Hash, enc: string, froms: seq<nat>,
      tos: seq<nat>, rows: set<string>)
    requires tos != [] && Gathered(zs, mid, id, hash, enc, froms, tos, rows)
    requires forall k: Key :: At(zs', k) == if k.EqKey? && k.id == id && k.enc == enc && k.sub in froms then map[]
        else At(mid, k)
    ensures Gathered(zs, zs', id, hash, enc, froms, tos, rows)
  {
    hide At;
    forall k: Key ensures At(zs', k) == At(mid, k) {
      assert k.EqKey? && k.id == id && k.enc == enc ==> k == K(id, enc, k.sub);
    }
    GatheredSame(zs, mid, zs', id, hash, enc, froms, tos, rows);
  }

  lemma FinishCall(dir: Direction, d: Doc, d': Doc, enc: string, zs: Zsets, zs': Zsets, id: string, hash: Hash,
      rows: set<string>)
    requires Sound(d, zs, id, hash) && Fits(dir, EntryOf(d, enc)) && FreshCount(dir, EntryOf(d, enc)) > 0
    requires d'.next == if EntryOf(d, enc).split.None? then d.next + FreshCount(dir, EntryOf(d, enc)) else d.next
    requires d'.ranges == d.ranges && d'.eq == d.eq[enc := Finish(dir, JobOf(dir, d, enc))]
    requires var sp := JobOf(dir, d, enc);
             Targets(dir, sp) != [] && Gathered(zs, zs', id, hash, enc, Sources(dir, sp), Targets(dir, sp), rows)
    ensures Sound(d', zs', id, hash) && Completed(dir, d, d', enc, zs, zs', id, hash, rows)
  {
    hide AtHome, Gathered, Conserved;
    JobIsSound(dir, d, enc);
    TargetsAtHome(dir, d, enc, zs, id, hash);
    var sp := JobOf(dir, d, enc);
    GatheredConserves(zs, zs', id, hash, enc, Sources(dir, sp), Targets(dir, sp), rows);
    CompletedIsSound(dir, d, d', enc, zs, zs', id, hash, rows);
  }
}
