/** What the split and merge protocol guarantees over whole runs, and what its grace period is for. */
module EqTheorems {
  import opened Wrappers
  import opened BucketMap
  import opened WritePath
  import opened EqProtocol
  import opened EqSafety
  import opened EqWriterSteps
  import opened EqControlSteps

  lemma WriterStepKeeps(c: Config, s: World, s': World)
    requires ValidConfig(c) && Inv(c, s) && WriterStep(c, s, s')
    ensures Inv(c, s')
  {
    hide Inv, ReadRow, LoadDoc, Commit, Delete, Refuse, Abandon, Expire, Land, Lose, Sweep, Age;
    if id: nat, pk: string :| ReadRow(c, s, s', id, pk) {
      ReadRowStep(c, s, s', id, pk);
    } else if id: nat, i: nat :| LoadDoc(c, s, s', id, i) {
      LoadDocStep(c, s, s', id, i);
    } else if id: nat, after: map<string, string> :| Commit(c, s, s', id, after) {
      CommitStep(c, s, s', id, after);
    } else if id: nat :| Delete(c, s, s', id) {
      DeleteStep(c, s, s', id);
    } else if id: nat :| Refuse(c, s, s', id) {
      RefuseStep(c, s, s', id);
    } else if id: nat :| Abandon(c, s, s', id) {
      AbandonStep(c, s, s', id);
    } else if pk: string :| Expire(c, s, s', pk) {
      ExpireStep(c, s, s', pk);
    } else if cmd: Cmd :| Land(c, s, s', cmd) {
      LandStep(c, s, s', cmd);
    } else if cmd: Cmd :| Lose(c, s, s', cmd) {
      LoseStep(c, s, s', cmd);
    } else if e: (Key, Member) :| Sweep(c, s, s', e) {
      SweepStep(c, s, s', e);
    } else {
      var floor: nat :| Age(c, s, s', floor);
      AgeStep(c, s, s', floor);
    }
  }

  lemma ControlStepKeeps(c: Config, s: World, s': World)
    requires ValidConfig(c) && Graceful(c) && Inv(c, s) && ControlStep(c, s, s')
    ensures Inv(c, s')
  {
    hide Inv, Plan, Resume, Reserve, Start, StartPass, OpenPage, CheckItem, CopyItem, RemoveItem, ClosePage, EndPass,
         Drain, Unlink, Publish, Register, Crash;
    if enc: string, dir: Direction :| Plan(c, s, s', enc, dir) {
      PlanStep(c, s, s', enc, dir);
    } else if enc: string, dir: Direction :| Resume(c, s, s', enc, dir) {
      ResumeStep(c, s, s', enc, dir);
    } else if Reserve(c, s, s') {
      ReserveStep(c, s, s');
    } else if Start(c, s, s') {
      StartStep(c, s, s');
    } else if final: bool :| StartPass(c, s, s', final) {
      StartPassStep(c, s, s', final);
    } else if page: set<Member> :| OpenPage(c, s, s', page) {
      OpenPageStep(c, s, s', page);
    } else if m: Member :| CheckItem(c, s, s', m) {
      CheckItemStep(c, s, s', m);
    } else if m: Member :| CopyItem(c, s, s', m) {
      CopyItemStep(c, s, s', m);
    } else if m: Member :| RemoveItem(c, s, s', m) {
      RemoveItemStep(c, s, s', m);
    } else if ClosePage(c, s, s') {
      ClosePageStep(c, s, s');
    } else if EndPass(c, s, s') {
      EndPassStep(c, s, s');
    } else if Drain(c, s, s') {
      DrainStep(c, s, s');
    } else if Unlink(c, s, s') {
      UnlinkStep(c, s, s');
    } else if Publish(c, s, s') {
      PublishStep(c, s, s');
    } else if Register(c, s, s') {
      RegisterStep(c, s, s');
    } else {
      CrashStep(c, s, s');
    }
  }

  lemma {:induction false} RunKeepsInv(c: Config, run: seq<World>, n: nat)
    requires ValidConfig(c) && Graceful(c) && Run(c, run) && n < |run|
    ensures Inv(c, run[n])
  {
    hide Inv, WriterStep, ControlStep, Init;
    if n == 0 {
      InitHolds(c, run[0]);
    } else {
      RunKeepsInv(c, run, n - 1);
      assert Next(c, run[n - 1], run[n - 1 + 1]);
      if WriterStep(c, run[n - 1], run[n]) {
        WriterStepKeeps(c, run[n - 1], run[n]);
      } else {
        ControlStepKeeps(c, run[n - 1], run[n]);
      }
    }
  }

  /** The member that the row's column and stamp call for. */
  function CurrentMember(c: Config, row: Row, pk: string): Member { Plain(pk, IvOf(Some(row), c.idx.id)) }

  /** A living row whose column has a value and whose last change has reached the index or still may. */
  ghost predicate Indexed(c: Config, s: World, pk: string) {
    LifeOf(s.rows, pk).Live? && c.idx.column in s.rows[pk].row.cols && pk !in s.torn
  }

  /** Where readers of the stored document look for the row, its member is or is about to be. */
  ghost predicate Reachable(c: Config, s: World, pk: string)
    requires Indexed(c, s, pk) && s.history != []
  {
    var row := s.rows[pk].row;
    var enc := c.cx.esc(row.cols[c.idx.column]);
    exists b <- ReadBucketsEq(CurrentDoc(s), enc) :: Held(s.store, s.pending, K(c, enc, b), CurrentMember(c, row, pk))
  }

  /**
   * Main theorem. In every state of every run of splits and merges, their crashes and
   * restarts, and any number of writers with older documents, no row is lost to readers of
   * the stored document, and no removal under way names the member they need, unless a
   * refused deletion has cut the row off.
   */
  lemma NothingIsLost(c: Config, run: seq<World>, n: nat, pk: string)
    requires ValidConfig(c) && Graceful(c) && Run(c, run) && n < |run|
    requires Indexed(c, run[n], pk) && !run[n].rows[pk].cut
    ensures run[n].history != [] && Reachable(c, run[n], pk)
    ensures forall cmd <- run[n].pending :: cmd.ZRem? ==> cmd.member != CurrentMember(c, run[n].rows[pk].row, pk)
  {
    RunKeepsInv(c, run, n);
    InvReaches(c, run[n], pk);
  }

  lemma InvReaches(c: Config, s: World, pk: string)
    requires Inv(c, s) && Indexed(c, s, pk) && !s.rows[pk].cut
    ensures Reachable(c, s, pk)
    ensures forall cmd <- s.pending :: cmd.ZRem? ==> cmd.member != CurrentMember(c, s.rows[pk].row, pk)
  {
    hide Siblings, RowsOK, AttemptsOK, StoreOK, AimsOK, ControlOK, PageOK, FinalAims, FinalMembers, Held;
    var m := CurrentMember(c, s.rows[pk].row, pk);
    assert IsCurrent(c, s.rows, m);
    var enc := EncOf(c, s.rows, m);
    var k :| k in ReadKeys(c, CurrentDoc(s), enc) && Held(s.store, s.pending, k, m);
    var b :| b in EntryReads(EntryOf(CurrentDoc(s), enc)) && k == K(c, enc, b);
    assert b in ReadBucketsEq(CurrentDoc(s), enc);
    forall cmd | cmd in s.pending && cmd.ZRem? ensures cmd.member != m {
      assert CmdOK(c, s.rows, cmd, CurrentDoc(s).next);
    }
  }

  /** With nothing in flight the members are in place. */
  lemma QuietMeansPlaced(c: Config, run: seq<World>, n: nat, pk: string)
    requires ValidConfig(c) && Graceful(c) && Run(c, run) && n < |run| && run[n].pending == {}
    requires Indexed(c, run[n], pk) && !run[n].rows[pk].cut
    ensures run[n].history != []
    ensures var row := run[n].rows[pk].row;
            var enc := c.cx.esc(row.cols[c.idx.column]);
            exists b <- ReadBucketsEq(CurrentDoc(run[n]), enc) ::
              (K(c, enc, b), CurrentMember(c, row, pk)) in run[n].store
  {
    NothingIsLost(c, run, n, pk);
    var row := run[n].rows[pk].row;
    var enc := c.cx.esc(row.cols[c.idx.column]);
    var b :| b in ReadBucketsEq(CurrentDoc(run[n]), enc) &&
             Held(run[n].store, run[n].pending, K(c, enc, b), CurrentMember(c, row, pk));
  }

  // ----- the life of an entry ---------------------------------------------------------------

  ghost predicate EntryMoves(e: EqEntry, e': EqEntry) { e' == e || exists first: nat :: EntryStep(e, e', first) }

  function ReadsOf(d: Doc, enc: string): seq<nat> { EntryReads(EntryOf(d, enc)) }

  /** A new document moves every entry by at most one step and mentions no discarded number. */
  ghost predicate Follows(history: seq<Doc>, d': Doc)
    requires history != []
  {
    var d := history[|history| - 1];
    && d'.version == d.version + 1 && d.next <= d'.next
    && (forall enc: string :: EntryMoves(EntryOf(d, enc), EntryOf(d', enc)))
    && (forall enc: string, b: nat :: b in ReadsOf(d', enc) ==> b in ReadsOf(d, enc) || Unused(history, enc, b))
    && (forall enc: string, b: nat :: b in ReadsOf(d', enc) ==> b < d'.next)
  }

  ghost predicate Unused(history: seq<Doc>, enc: string, b: nat) { forall d <- history :: b !in ReadsOf(d, enc) }

  ghost predicate Orderly(history: seq<Doc>) {
    && history != [] && history[0] == DefaultDoc()
    && forall n :: 1 <= n < |history| ==> Follows(history[..n], history[n])
  }

  lemma ReadsBelow(d: Doc, enc: string)
    requires DocOK(d)
    ensures forall b <- ReadsOf(d, enc) :: b < d.next
  {
    assert enc in d.eq ==> EntryOK(d.eq[enc], d.next);
  }

  /** Changing one entry by one step, with unused numbers only, follows the history. */
  lemma OneEntryFollows(history: seq<Doc>, d': Doc, enc: string, first: nat)
    requires history != [] && DocOK(d')
    requires var d := history[|history| - 1];
             && d'.version == d.version + 1 && d.next <= d'.next && enc in d'.eq && d'.eq == d.eq[enc := d'.eq[enc]]
             && EntryStep(EntryOf(d, enc), EntryOf(d', enc), first)
             && forall b <- ReadsOf(d', enc) :: b in ReadsOf(d, enc) || Unused(history, enc, b)
    ensures Follows(history, d')
  {
    hide EntryStep, DocOK;
    forall v: string, b: nat | b in ReadsOf(d', v) ensures b < d'.next {
      ReadsBelow(d', v);
    }
  }

  lemma StartFollows(c: Config, s: World, s': World)
    requires ValidConfig(c) && Inv(c, s) && Inv(c, s') && Start(c, s, s')
    ensures Follows(s.history, CurrentDoc(s'))
  {
    StartFacts(c, s, s');
    hide Inv, Follows, DocOK, EntryStep, Begin, FreshCount;
    var d, d' := CurrentDoc(s), CurrentDoc(s');
    var enc, dir, e, first := s.ctl.enc, s.ctl.dir, s.ctl.entry, s.ctl.first;
    BeginsEntry(dir, e, EntryOf(d', enc), first);
    BeginReads(dir, e, first);
    OldReads(e);
    OneEntryFollows(s.history, d', enc, first);
  }

  lemma OldReads(e: EqEntry)
    requires e.split.None?
    ensures EntryReads(e) == e.buckets
  {
  }

  /** What a started split or merge stores, and that its numbers are unused. */
  lemma StartFacts(c: Config, s: World, s': World)
    requires ValidConfig(c) && Inv(c, s) && Inv(c, s') && Start(c, s, s')
    ensures s.ctl.Reserved? && s.history != [] && s'.history != []
    ensures var d, d', enc, e := CurrentDoc(s), CurrentDoc(s'), s.ctl.enc, s.ctl.entry;
            && DocOK(d') && d'.version == d.version + 1 && d'.next == d.next
            && e == EntryOf(d, enc) && e.split.None? && FreshCount(s.ctl.dir, e) > 0
            && EntryOf(d', enc) == Begin(s.ctl.dir, e, s.ctl.first) && enc in d'.eq && d'.eq == d.eq[enc := d'.eq[enc]]
            && forall b: nat :: s.ctl.first <= b ==> Unused(s.history, enc, b)
  {
    hide NoLoss, Siblings, RowsOK, PendingOK, StoreOK, AttemptsOK, PageOK, AimsOK, FinalAims, FinalMembers, Begin,
        DocOK;
  }

  lemma BeginsEntry(dir: Direction, e: EqEntry, e': EqEntry, first: nat)
    requires e.split.None? && FreshCount(dir, e) > 0 && e' == Begin(dir, e, first)
    ensures EntryStep(e, e', first)
  {
  }

  /** Below the first fresh number only the old buckets are read. */
  lemma BeginReads(dir: Direction, e: EqEntry, first: nat)
    ensures forall b <- EntryReads(Begin(dir, e, first)) :: b < first ==> b in e.buckets
  {
  }

  lemma DrainFollows(c: Config, s: World, s': World)
    requires ValidConfig(c) && Inv(c, s) && Inv(c, s') && Drain(c, s, s')
    ensures Follows(s.history, CurrentDoc(s'))
  {
    hide NoLoss, Siblings, RowsOK, PendingOK, StoreOK, AttemptsOK, PageOK, AimsOK, FinalAims, FinalMembers, Follows;
    var d, d', enc := CurrentDoc(s), CurrentDoc(s'), s.ctl.job.enc;
    assert DocOK(d');
    assert EntryStep(EntryOf(d, enc), EntryOf(d', enc), 0);
    OneEntryFollows(s.history, d', enc, 0);
  }

  lemma PublishFollows(c: Config, s: World, s': World)
    requires ValidConfig(c) && Inv(c, s) && Inv(c, s') && Publish(c, s, s')
    ensures Follows(s.history, CurrentDoc(s'))
  {
    hide NoLoss, Siblings, RowsOK, PendingOK, StoreOK, AttemptsOK, PageOK, AimsOK, FinalAims, FinalMembers, Follows;
    var d, d', enc := CurrentDoc(s), CurrentDoc(s'), s.ctl.job.enc;
    assert DocOK(d');
    assert EntryStep(EntryOf(d, enc), EntryOf(d', enc), 0);
    assert forall b <- ReadsOf(d', enc) :: b in ReadsOf(d, enc);
    OneEntryFollows(s.history, d', enc, 0);
  }

  lemma ReserveFollows(c: Config, s: World, s': World)
    requires ValidConfig(c) && Inv(c, s) && Inv(c, s') && Reserve(c, s, s')
    ensures Follows(s.history, CurrentDoc(s'))
  {
    hide NoLoss, Siblings, RowsOK, PendingOK, StoreOK, AttemptsOK, PageOK, AimsOK, FinalAims, FinalMembers, ControlOK,
         EntryStep;
    var d' := CurrentDoc(s');
    assert DocOK(d');
    forall v: string, b: nat | b in ReadsOf(d', v) ensures b < d'.next {
      ReadsBelow(d', v);
    }
  }

  lemma StepFollows(c: Config, s: World, s': World)
    requires ValidConfig(c) && Inv(c, s) && Inv(c, s') && Next(c, s, s') && s'.history != s.history
    ensures s'.history == s.history + [CurrentDoc(s')] && Follows(s.history, CurrentDoc(s'))
  {
    OnlyFourStore(c, s, s');
    hide Follows, WriterStep, ControlStep, NoLoss, Siblings, RowsOK, PendingOK, StoreOK, AttemptsOK, PageOK, AimsOK,
         FinalAims, FinalMembers, ControlOK, DocsOK;
    if Reserve(c, s, s') {
      ReserveFollows(c, s, s');
    } else if Start(c, s, s') {
      StartFollows(c, s, s');
    } else if Drain(c, s, s') {
      DrainFollows(c, s, s');
    } else {
      PublishFollows(c, s, s');
    }
  }

  /** Only four of the steps store a document. */
  lemma OnlyFourStore(c: Config, s: World, s': World)
    requires Next(c, s, s') && s'.history != s.history
    ensures Reserve(c, s, s') || Start(c, s, s') || Drain(c, s, s') || Publish(c, s, s')
  {
    hide Reserve, Start, Drain, Publish, WriterStep, ControlStep;
    if WriterStep(c, s, s') {
      WritersStoreNone(c, s, s');
    } else {
      ControlStores(c, s, s');
    }
  }

  lemma WritersStoreNone(c: Config, s: World, s': World)
    requires WriterStep(c, s, s')
    ensures s'.history == s.history
  {
    hide RowAfter, UndosFor, RedosFor, Routed, Adds, Rems;
  }

  lemma ControlStores(c: Config, s: World, s': World)
    requires ControlStep(c, s, s') && s'.history != s.history
    ensures Reserve(c, s, s') || Start(c, s, s') || Drain(c, s, s') || Publish(c, s, s')
  {
    hide Reserve, Start, Drain, Publish, AimsMeet, BucketOf, Home;
  }

  lemma OrderlyAppend(history: seq<Doc>, d': Doc)
    requires Orderly(history) && Follows(history, d')
    ensures Orderly(history + [d'])
  {
    hide Follows;
    var h := history + [d'];
    forall i | 1 <= i < |h| ensures Follows(h[..i], h[i]) {
      assert h[..i] == history[..i];
      assert i < |history| ==> h[i] == history[i];
      assert history[..|history|] == history;
    }
  }

  lemma {:induction false} RunIsOrderly(c: Config, run: seq<World>, n: nat)
    requires ValidConfig(c) && Graceful(c) && Run(c, run) && n < |run|
    ensures Orderly(run[n].history)
  {
    hide Inv, Next, Orderly, CurrentDoc;
    if n == 0 {
      OrderlyStart();
    } else {
      RunIsOrderly(c, run, n - 1);
      RunKeepsInv(c, run, n - 1);
      RunKeepsInv(c, run, n);
      var s, s' := run[n - 1], run[n];
      assert Next(c, run[n - 1], run[n - 1 + 1]);
      if s'.history != s.history {
        StepFollows(c, s, s');
        OrderlyAppend(s.history, CurrentDoc(s'));
      }
    }
  }

  lemma OrderlyStart()
    ensures Orderly([DefaultDoc()])
  {
  }

  /** A number that an entry has stopped mentioning never comes back to it. */
  lemma {:induction false} NumbersNeverReused(history: seq<Doc>, enc: string, i: nat, j: nat, k: nat, b: nat)
    requires Orderly(history) && i < j < k < |history|
    requires b in ReadsOf(history[i], enc) && b !in ReadsOf(history[j], enc)
    ensures b !in ReadsOf(history[k], enc)
    decreases k
  {
    hide EntryMoves, ReadsOf;
    if j < k - 1 {
      NumbersNeverReused(history, enc, i, j, k - 1, b);
    }
    assert Follows(history[..k], history[k]);
    assert history[..k][i] == history[i];
  }

  /** Entries go through the protocol's states in order, one step per stored document. */
  lemma EntriesMoveInOrder(c: Config, run: seq<World>, n: nat, enc: string, i: nat)
    requires ValidConfig(c) && Graceful(c) && Run(c, run) && n < |run| && 0 < i < |run[n].history|
    ensures EntryMoves(EntryOf(run[n].history[i - 1], enc), EntryOf(run[n].history[i], enc))
    ensures run[n].history[i].version == i
    ensures forall b <- ReadsOf(run[n].history[i], enc) :: b < run[n].history[i].next
  {
    RunIsOrderly(c, run, n);
    var h := run[n].history;
    assert Follows(h[..i], h[i]);
    VersionsCount(h, i);
  }

  lemma {:induction false} VersionsCount(history: seq<Doc>, i: nat)
    requires Orderly(history) && i < |history|
    ensures history[i].version == i
  {
    hide EntryMoves, ReadsOf;
    if i > 0 {
      VersionsCount(history, i - 1);
      assert Follows(history[..i], history[i]);
    }
  }

  /** The reservation takes twice the value's buckets for a split, and half of them for a merge. */
  lemma ReserveCounts(c: Config, s: World, s': World)
    requires Inv(c, s) && Reserve(c, s, s')
    ensures s.history != [] && s'.history != []
    ensures var d, n := CurrentDoc(s), |EntryOf(CurrentDoc(s), s.ctl.enc).buckets|;
            CurrentDoc(s').next == d.next + if s.ctl.dir.Split? then 2 * n else n / 2
  {
    hide NoLoss, Siblings, RowsOK, PendingOK, StoreOK, AttemptsOK, PageOK, AimsOK, FinalAims, FinalMembers, DocsOK;
  }

  /** One step starts with 2n new buckets or n/2, changes the state, or leaves the new ones alone. */
  lemma StepCounts(e: EqEntry, e': EqEntry)
    requires EntryMoves(e, e') && e' != e
    ensures e.split.None? ==>
              && e'.split.Some? && e'.buckets == e.buckets && e'.split.value.state in {Splitting, Merging}
              && |Settled(e')| == if e'.split.value.state == Splitting then 2 * |e.buckets| else |e.buckets| / 2
    ensures e.split.Some? ==>
              && (e'.split.Some? ==> e'.buckets == e.buckets && Settled(e') == Settled(e))
              && (e'.split.None? ==> e'.buckets == Settled(e))
  {
  }

  /** So in the stored documents n buckets of a value become 2n by a split and n/2 by a merge. */
  lemma EntriesDoubleOrHalve(c: Config, run: seq<World>, n: nat, enc: string, i: nat)
    requires ValidConfig(c) && Graceful(c) && Run(c, run) && n < |run| && 0 < i < |run[n].history|
    ensures var e, e' := EntryOf(run[n].history[i - 1], enc), EntryOf(run[n].history[i], enc);
            && (e.split.None? && e'.split.Some? ==>
                  |Settled(e')| == if e'.split.value.state == Splitting then 2 * |e.buckets| else |e.buckets| / 2)
            && (e.split.None? && e'.split.None? ==> e' == e)
            && (e.split.Some? && e'.split.Some? ==> Settled(e') == Settled(e))
            && (e.split.Some? && e'.split.None? ==> e'.buckets == Settled(e))
  {
    EntriesMoveInOrder(c, run, n, enc, i);
    var e, e' := EntryOf(run[n].history[i - 1], enc), EntryOf(run[n].history[i], enc);
    hide EntryMoves, Settled, Run;
    if e' != e {
      StepCounts(e, e');
    }
  }

  /** Members move to the one bucket that writers aim at from the draining state on. */
  lemma HomeIsAimed(c: Config, job: Job, d: Doc, m: Member)
    requires JobOK(job, d) && ValidEq(d)
    ensures Targets(job.dir, job.sp) != [] && Home(c, job, m) in Aim(c, d, job.enc, m.pk)
    ensures job.sp.state == DrainState(job.dir) ==> Aim(c, d, job.enc, m.pk) == {Home(c, job, m)}
  {
    var targets := WriteTargetsEq(d, c.cx.hash, job.enc, m.pk);
    var ts := Targets(job.dir, job.sp);
    assert ValidEntry(d.eq[job.enc]);
    assert ts[EqSubFor(c.cx.hash, m.pk, |ts|)] in targets;
  }

  /** And once the entry is published. */
  lemma HomeIsKept(c: Config, job: Job, d: Doc, m: Member)
    requires Targets(job.dir, job.sp) != [] && job.enc in d.eq && d.eq[job.enc] == Finish(job.dir, job.sp) && ValidEq(d)
    ensures Aim(c, d, job.enc, m.pk) == {Home(c, job, m)}
  {
    var ts := Targets(job.dir, job.sp);
    assert WriteTargetsEq(d, c.cx.hash, job.enc, m.pk) == [ts[EqSubFor(c.cx.hash, m.pk, |ts|)]];
  }

  // ----- old members go ---------------------------------------------------------------------------

  /** A write that changes the value, or a deletion, sends the old member's removal to every bucket read. */
  lemma OldMemberIsTaken(c: Config, s: World, s': World, id: nat, after: map<string, string>, k: Key)
    requires ValidConfig(c) && Inv(c, s) && id in s.attempts && s.attempts[id].seen.Some?
    requires Commit(c, s, s', id, after) || (after == map[] && Delete(c, s, s', id))
    requires Undone(c.idx, s.attempts[id].seen.value.cols, after)
    requires var a := s.attempts[id];
             k in ReadKeys(c, s.history[a.snap.value], c.cx.esc(a.seen.value.cols[c.idx.column]))
    ensures ZRem(k, CurrentMember(c, s.attempts[id].seen.value, s.attempts[id].pk)) in s'.pending
  {
    var a := s.attempts[id];
    var row, d := a.seen.value, s.history[a.snap.value];
    var enc, m := c.cx.esc(row.cols[c.idx.column]), CurrentMember(c, row, a.pk);
    hide Inv, RowAfter, RedosFor, EntryReads;
    var undos := UndosFor(c.cx, c.idx, a.pk, a.seen, after, Some(d));
    var bs := ReadBucketsEq(d, enc);
    ReadsAlike(d, enc);
    var b :| b in bs && k == K(c, enc, b);
    var i :| 0 <= i < |bs| && bs[i] == b;
    assert undos[i] == Undo(k, m);
  }

  lemma ReadsAlike(d: Doc, enc: string)
    ensures ReadBucketsEq(d, enc) == EntryReads(EntryOf(d, enc))
  {
  }

  // ----- old buckets are given up -----------------------------------------------------------------

  /** Two steps move a living member: it is then at its new place and no longer at its old one. */
  lemma MovedForGood(c: Config, s: World, s1: World, s2: World, m: Member)
    requires s.history != [] && DocOK(CurrentDoc(s)) && ControlOK(c, s.ctl, s.history, s.pending)
    requires CopyItem(c, s, s1, m) && RemoveItem(c, s1, s2, m)
    ensures var job, from := s.ctl.job, s.ctl.todo[0];
            && (Home(c, job, m), m) in s2.store && (K(c, job.enc, from), m) !in s2.store && m !in s2.ctl.page
            && forall e <- s.store :: e == (K(c, job.enc, from), m) || e in s2.store
  {
    var job, from := s.ctl.job, s.ctl.todo[0];
    SourcesLeaveTargets(c, job, CurrentDoc(s), from);
    assert Home(c, job, m) in TargetKeys(c, job);
  }

  /** The last bucket of the list is empty after its UNLINK, and no other bucket has changed. */
  lemma UnlinkedForGood(c: Config, s: World, s': World)
    requires Unlink(c, s, s')
    ensures BucketOf(s'.store, K(c, s.ctl.job.enc, s.ctl.todo[0])) == {}
    ensures forall k: Key | k != K(c, s.ctl.job.enc, s.ctl.todo[0]) :: BucketOf(s'.store, k) == BucketOf(s.store, k)
  {
  }
}
