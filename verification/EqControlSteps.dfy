/** Every step of the controller, including a stop after any single command, keeps the invariant. */
module EqControlSteps {
  import opened Wrappers
  import opened BucketMap
  import opened WritePath
  import opened EqProtocol
  import opened EqSafety
  import opened EqWriterSteps

  // ----- steps that change only the controller's own state --------------------------------

  lemma OwnStep(c: Config, s: World, s': World)
    requires Inv(c, s) && s' == s.(ctl := s'.ctl, hot := s'.hot)
    requires ControlOK(c, s'.ctl, s.history, s.pending) && PageOK(c, s.rows, s.store, s'.ctl)
    requires FinalAims(c, s.attempts, s.pending, s.history, s.floor, s'.ctl)
    requires FinalMembers(c, s.rows, s.store, s.pending, s.torn, s'.ctl)
    ensures Inv(c, s')
  {
    hide NoLoss, Siblings, RowsOK, PendingOK, StoreOK, ControlOK, AttemptsOK, PageOK, AimsOK, FinalAims, FinalMembers,
         DocsOK;
  }

  lemma PlanStep(c: Config, s: World, s': World, enc: string, dir: Direction)
    requires Inv(c, s) && Plan(c, s, s', enc, dir)
    ensures Inv(c, s')
  {
    hide NoLoss, Siblings, RowsOK, PendingOK, StoreOK, AttemptsOK, AimsOK;
    assert Shaped(s'.ctl.entry) by {
      assert DocOK(CurrentDoc(s));
      assert enc in CurrentDoc(s).eq ==> EntryOK(CurrentDoc(s).eq[enc], CurrentDoc(s).next);
    }
    OwnStep(c, s, s');
  }

  lemma ResumeStep(c: Config, s: World, s': World, enc: string, dir: Direction)
    requires Inv(c, s) && Resume(c, s, s', enc, dir)
    ensures Inv(c, s')
  {
    hide NoLoss, Siblings, RowsOK, PendingOK, StoreOK, AttemptsOK, AimsOK, DocsOK;
    OwnStep(c, s, s');
  }

  lemma RegisterStep(c: Config, s: World, s': World)
    requires Inv(c, s) && Register(c, s, s')
    ensures Inv(c, s')
  {
    hide NoLoss, Siblings, RowsOK, PendingOK, StoreOK, AttemptsOK, AimsOK, DocsOK;
    OwnStep(c, s, s');
  }

  lemma CrashStep(c: Config, s: World, s': World)
    requires Inv(c, s) && Crash(c, s, s')
    ensures Inv(c, s')
  {
    hide NoLoss, Siblings, RowsOK, PendingOK, StoreOK, AttemptsOK, AimsOK, DocsOK;
    OwnStep(c, s, s');
  }

  /** A key that readers of the stored entry visit is a source or a target of its protocol. */
  lemma ReadsOfJob(c: Config, job: Job, d: Doc)
    requires JobOK(job, d)
    ensures ReadKeys(c, d, job.enc) == SourceKeys(c, job) + TargetKeys(c, job)
    ensures SettledKeys(c, d, job.enc) == TargetKeys(c, job)
  {
    var visited := EntryReads(EntryOf(d, job.enc));
    assert forall b :: b in visited <==> b in Sources(job.dir, job.sp) || b in Targets(job.dir, job.sp);
  }

  lemma SourcesLeaveTargets(c: Config, job: Job, d: Doc, b: nat)
    requires DocOK(d) && JobOK(job, d) && b in Sources(job.dir, job.sp)
    ensures K(c, job.enc, b) !in TargetKeys(c, job)
  {
    assert EntryOK(d.eq[job.enc], d.next);
  }

  /** At the start of the last pass every member is on the list or already at its new place. */
  lemma StartPassMembers(c: Config, s: World, s': World, final: bool)
    requires Graceful(c) && Inv(c, s) && StartPass(c, s, s', final)
    ensures FinalMembers(c, s.rows, s.store, s.pending, s.torn, s'.ctl)
  {
    hide RowsOK, StoreOK, AttemptsOK, AimsOK, DocsOK, IsCurrent, EncOf, AimMeets;
    if final {
      var job := s.ctl.job;
      var d := CurrentDoc(s);
      ReadsOfJob(c, job, d);
      forall m: Member | IsCurrent(c, s.rows, m) && m.pk !in s.torn && EncOf(c, s.rows, m) == job.enc
        ensures HeldIn(s.store, s.pending, TargetKeys(c, job), m) || StillToMove(c, s.store, s'.ctl, m)
      {
        var k :| k in ReadKeys(c, d, job.enc) && Held(s.store, s.pending, k, m);
        if k !in TargetKeys(c, job) && (k, m) !in s.store {
          var cmd :| cmd in s.pending && cmd.ZAdd? && cmd.key == k && cmd.member == m;
          assert CmdOK(c, s.rows, cmd, d.next);
          assert Meets(cmd.aim, TargetKeys(c, job));
          var t :| t in cmd.aim && t in TargetKeys(c, job);
          assert Held(s.store, s.pending, t, m);
        }
      }
    }
  }

  lemma StartPassStep(c: Config, s: World, s': World, final: bool)
    requires Graceful(c) && Inv(c, s) && StartPass(c, s, s', final)
    ensures Inv(c, s')
  {
    hide NoLoss, Siblings, RowsOK, PendingOK, StoreOK, AttemptsOK, AimsOK, DocsOK, FinalMembers, AimsMeet;
    StartPassMembers(c, s, s', final);
    if final {
      WaitedForAll(c, s, s.ctl.job.enc, TargetKeys(c, s.ctl.job));
    }
    OwnStep(c, s, s');
  }

  /** Once all three have been waited for, every aim includes one of the new buckets. */
  lemma WaitedForAll(c: Config, s: World, enc: string, keys: set<Key>)
    requires Graceful(c) && Waited(c, s, enc, keys)
    ensures AimsMeet(c, s.attempts, s.pending, s.history, s.floor, enc, keys)
  {
  }

  /** A page shorter than the batch is the whole bucket, so nothing of the bucket is off the list. */
  lemma OpenPageStep(c: Config, s: World, s': World, page: set<Member>)
    requires Inv(c, s) && OpenPage(c, s, s', page)
    ensures Inv(c, s')
  {
    hide NoLoss, Siblings, RowsOK, PendingOK, AttemptsOK, AimsOK, DocsOK, IsCurrent, EncOf, Held;
    assert s'.ctl.page.Keys == page;
    forall m: Member | StillToMove(c, s.store, s.ctl, m) ensures StillToMove(c, s.store, s'.ctl, m) {
      var b :| b in s.ctl.todo && (K(c, s.ctl.job.enc, b), m) in s.store;
      if s'.ctl.short && b !in s.ctl.todo[1..] {
        assert b == s.ctl.todo[0];
        assert m in BucketOf(s.store, K(c, s.ctl.job.enc, b));
      }
    }
    forall m | m in page ensures Born(s.rows, m) {
      assert (K(c, s.ctl.job.enc, s.ctl.todo[0]), m) in s.store;
    }
    OwnStep(c, s, s');
  }

  lemma CheckItemStep(c: Config, s: World, s': World, m: Member)
    requires Inv(c, s) && CheckItem(c, s, s', m)
    ensures Inv(c, s')
  {
    hide NoLoss, Siblings, RowsOK, PendingOK, AttemptsOK, AimsOK, DocsOK, StoreOK, Held, EncOf;
    assert Born(s.rows, m);
    OwnStep(c, s, s');
  }

  lemma ClosePageStep(c: Config, s: World, s': World)
    requires Inv(c, s) && ClosePage(c, s, s')
    ensures Inv(c, s')
  {
    hide NoLoss, Siblings, RowsOK, PendingOK, AttemptsOK, AimsOK, DocsOK, StoreOK, Held, EncOf, IsCurrent;
    OwnStep(c, s, s');
  }

  lemma EndPassStep(c: Config, s: World, s': World)
    requires Inv(c, s) && EndPass(c, s, s')
    ensures Inv(c, s')
  {
    hide NoLoss, Siblings, RowsOK, PendingOK, AttemptsOK, AimsOK, DocsOK, StoreOK, Held, EncOf, IsCurrent;
    OwnStep(c, s, s');
  }

  // ----- steps that move members ------------------------------------------------------------

  lemma CopyItemFinal(c: Config, s: World, s': World, m: Member)
    requires Inv(c, s) && CopyItem(c, s, s', m)
    ensures FinalMembers(c, s'.rows, s'.store, s'.pending, s'.torn, s'.ctl)
    ensures PageOK(c, s'.rows, s'.store, s'.ctl)
    ensures NoLoss(c, s'.rows, s'.store, s'.pending, CurrentDoc(s), s'.torn)
    ensures Siblings(c, s'.rows, s'.store, s'.pending, CurrentDoc(s), s'.torn)
  {
    hide RowsOK, PendingOK, AttemptsOK, AimsOK, DocsOK, StoreOK, EncOf, IsCurrent, ReadKeys, SettledKeys;
    var home := Home(c, s.ctl.job, m);
    assert home in TargetKeys(c, s.ctl.job);
    assert forall k: Key, x: Member :: Held(s.store, s.pending, k, x) ==> Held(s'.store, s'.pending, k, x);
    assert Held(s'.store, s'.pending, home, m);
  }

  lemma CopyItemStep(c: Config, s: World, s': World, m: Member)
    requires Inv(c, s) && CopyItem(c, s, s', m)
    ensures Inv(c, s')
  {
    hide NoLoss, Siblings, RowsOK, PendingOK, AttemptsOK, AimsOK, DocsOK, FinalMembers;
    CopyItemFinal(c, s, s', m);
    assert Born(s.rows, m);
  }

  ghost predicate Removed(c: Config, s: World, s': World, job: Job, b: nat, m: Member) {
    && (K(c, job.enc, b), m) in s.store && (K(c, job.enc, b), m) !in s'.store
    && IsCurrent(c, s.rows, m) && m.pk !in s.torn
  }

  /** The store loses members of a source bucket only, and each is dead, stale or already at its new place. */
  ghost predicate Moves(c: Config, s: World, s': World, job: Job, d: Doc, b: nat) {
    && JobOK(job, d) && b in Sources(job.dir, job.sp) && DocOK(d)
    && s'.store <= s.store
    && (forall e <- s.store :: e !in s'.store ==> e.0 == K(c, job.enc, b))
    && (forall m: Member ::
          Removed(c, s, s', job, b, m) && EncOf(c, s.rows, m) == job.enc ==>
              HeldIn(s.store, s.pending, TargetKeys(c, job), m))
  }

  lemma MovesKeep(c: Config, s: World, s': World, job: Job, b: nat)
    requires s.history != [] && Moves(c, s, s', job, CurrentDoc(s), b)
    requires s'.rows == s.rows && s'.pending == s.pending && s'.torn == s.torn
    requires NoLoss(c, s.rows, s.store, s.pending, CurrentDoc(s), s.torn)
    requires Siblings(c, s.rows, s.store, s.pending, CurrentDoc(s), s.torn)
    ensures NoLoss(c, s.rows, s'.store, s.pending, CurrentDoc(s), s.torn)
    ensures Siblings(c, s.rows, s'.store, s.pending, CurrentDoc(s), s.torn)
    ensures forall m: Member :: HeldIn(s.store, s.pending, TargetKeys(c, job), m) ==>
              HeldIn(s'.store, s.pending, TargetKeys(c, job), m)
  {
    hide IsCurrent, EncOf, DocOK, Targets, Sources;
    var d := CurrentDoc(s);
    var gone := K(c, job.enc, b);
    SourcesLeaveTargets(c, job, d, b);
    ReadsOfJob(c, job, d);
    assert forall k: Key, m: Member :: Held(s.store, s.pending, k, m) && k != gone ==> Held(s'.store, s.pending, k, m);
    forall m: Member | HeldIn(s.store, s.pending, TargetKeys(c, job), m)
      ensures HeldIn(s'.store, s.pending, TargetKeys(c, job), m)
    {
      var t :| t in TargetKeys(c, job) && Held(s.store, s.pending, t, m);
      assert Held(s'.store, s.pending, t, m);
    }
    forall m: Member | IsCurrent(c, s.rows, m) && m.pk !in s.torn
      ensures HeldIn(s'.store, s.pending, ReadKeys(c, d, EncOf(c, s.rows, m)), m)
    {
      var enc := EncOf(c, s.rows, m);
      var k :| k in ReadKeys(c, d, enc) && Held(s.store, s.pending, k, m);
      if k == gone && !Held(s'.store, s.pending, k, m) {
        assert enc == job.enc;
        var t :| t in TargetKeys(c, job) && Held(s'.store, s.pending, t, m);
        assert t in ReadKeys(c, d, enc);
      }
    }
    forall cmd | cmd in s.pending && cmd.ZAdd? && IsCurrent(c, s.rows, cmd.member) && cmd.member.pk !in s.torn
      ensures forall t <- cmd.aim :: t in SettledKeys(c, d, EncOf(c, s.rows, cmd.member)) ==>
                Held(s'.store, s.pending, t, cmd.member)
    {
      forall t | t in cmd.aim && t in SettledKeys(c, d, EncOf(c, s.rows, cmd.member))
        ensures Held(s'.store, s.pending, t, cmd.member)
      {
        assert Held(s.store, s.pending, t, cmd.member);
        assert t != gone;
      }
    }
  }

  lemma RemoveItemMoves(c: Config, s: World, s': World, m: Member)
    requires Inv(c, s) && RemoveItem(c, s, s', m)
    ensures Moves(c, s, s', s.ctl.job, CurrentDoc(s), s.ctl.todo[0])
    ensures IsCurrent(c, s.rows, m) ==> HeldIn(s.store, s.pending, TargetKeys(c, s.ctl.job), m)
  {
    hide NoLoss, Siblings, RowsOK, PendingOK, AttemptsOK, AimsOK, StoreOK, FinalAims, FinalMembers;
    if IsCurrent(c, s.rows, m) {
      assert s.ctl.page[m].Copied?;
      var home := Home(c, s.ctl.job, m);
      assert home in TargetKeys(c, s.ctl.job) && Held(s.store, s.pending, home, m);
    }
  }

  lemma RemoveItemStep(c: Config, s: World, s': World, m: Member)
    requires Inv(c, s) && RemoveItem(c, s, s', m)
    ensures Inv(c, s')
  {
    hide NoLoss, Siblings, RowsOK, PendingOK, AttemptsOK, AimsOK, DocsOK, FinalMembers, Moves;
    RemoveItemMoves(c, s, s', m);
    MovesKeep(c, s, s', s.ctl.job, s.ctl.todo[0]);
    RemoveItemPage(c, s, s', m);
    RemoveItemFinal(c, s, s', m);
  }

  lemma RemoveItemPage(c: Config, s: World, s': World, m: Member)
    requires Inv(c, s) && RemoveItem(c, s, s', m)
    ensures PageOK(c, s'.rows, s'.store, s'.ctl)
  {
    hide NoLoss, Siblings, RowsOK, PendingOK, AttemptsOK, AimsOK, StoreOK, FinalAims, FinalMembers, IsCurrent, DocOK;
    assert DocOK(CurrentDoc(s));
    SourcesLeaveTargets(c, s.ctl.job, CurrentDoc(s), s.ctl.todo[0]);
  }

  lemma RemoveItemFinal(c: Config, s: World, s': World, m: Member)
    requires Inv(c, s) && RemoveItem(c, s, s', m)
    ensures FinalMembers(c, s'.rows, s'.store, s'.pending, s'.torn, s'.ctl)
  {
    hide RowsOK, PendingOK, AttemptsOK, AimsOK, StoreOK, FinalAims, PageOK, IsCurrent, EncOf, DocsOK, Moves, HeldIn;
    RemoveItemMoves(c, s, s', m);
    MovesKeep(c, s, s', s.ctl.job, s.ctl.todo[0]);
  }

  lemma UnlinkStep(c: Config, s: World, s': World)
    requires Inv(c, s) && Unlink(c, s, s')
    ensures Inv(c, s')
  {
    hide NoLoss, Siblings, RowsOK, PendingOK, AttemptsOK, AimsOK, HeldIn, IsCurrent, EncOf;
    assert DocOK(CurrentDoc(s));
    assert Moves(c, s, s', s.ctl.job, CurrentDoc(s), s.ctl.todo[0]);
    MovesKeep(c, s, s', s.ctl.job, s.ctl.todo[0]);
  }

  // ----- steps that store a new document ----------------------------------------------------

  lemma AimsExtend(c: Config, s: World, s': World, d': Doc, enc: string)
    requires s'.history == s.history + [d'] && DocOK(d')
    requires s'.attempts == s.attempts && s'.pending == s.pending && s'.floor == s.floor
    requires AimsMeet(c, s.attempts, s.pending, s.history, s.floor, enc, ReadKeys(c, d', enc))
    ensures AimsMeet(c, s'.attempts, s'.pending, s'.history, s'.floor, enc, ReadKeys(c, d', enc))
  {
    hide ReadKeys, Aim, DocOK;
    var keys := ReadKeys(c, d', enc);
    assert forall i: nat :: i < |s.history| ==> s'.history[i] == s.history[i];
    assert forall i: nat, pk: string :: AimMeets(c, s.history, i, enc, pk, keys) ==>
        AimMeets(c, s'.history, i, enc, pk, keys);
    forall i: nat, pk: string | s'.floor <= i < |s'.history| ensures AimMeets(c, s'.history, i, enc, pk, keys) {
      if i == |s.history| {
        FreshAimMeets(c, s'.history, i, enc, pk);
      } else {
        assert AimMeets(c, s.history, i, enc, pk, keys);
      }
    }
  }

  lemma StoreDoc(c: Config, s: World, s': World, d': Doc)
    requires Inv(c, s) && s' == s.(history := s.history + [d'], ctl := s'.ctl)
    requires DocOK(d') && CurrentDoc(s).next <= d'.next
    requires forall enc: string :: AimsMeet(c, s.attempts, s.pending, s.history, s.floor, enc, ReadKeys(c, d', enc))
    requires NoLoss(c, s.rows, s.store, s.pending, d', s.torn) && Siblings(c, s.rows, s.store, s.pending, d', s.torn)
    requires ControlOK(c, s'.ctl, s'.history, s.pending) && !s'.ctl.Moving? && !s'.ctl.Unlinking?
    ensures Inv(c, s')
  {
    hide NoLoss, Siblings, ControlOK, AimsMeet, StoreOK, RowsOK, DocOK, FinalMembers;
    hide IsCurrent, EncOf;
    forall enc: string
      ensures AimsMeet(c, s'.attempts, s'.pending, s'.history, s'.floor, enc, LatestReads(c, s'.history, enc))
    {
      AimsExtend(c, s, s', d', enc);
    }
    assert DocsOK(s'.history, s'.floor);
    assert AttemptsOK(s'.rows, s'.attempts, |s'.history|);
    assert PendingOK(c, s'.rows, s'.pending, d'.next) by {
      forall cmd | cmd in s.pending ensures CmdOK(c, s.rows, cmd, d'.next) {
        assert CmdOK(c, s.rows, cmd, CurrentDoc(s).next);
      }
    }
    NoPass(c, s');
  }

  lemma NoPass(c: Config, s: World)
    requires !s.ctl.Moving? && !s.ctl.Unlinking?
    ensures FinalMembers(c, s.rows, s.store, s.pending, s.torn, s.ctl)
  {
  }

  /** A document that differs in one entry; the other values' buckets are untouched. */
  lemma OtherEntries(c: Config, d: Doc, d': Doc, enc: string)
    requires d'.eq == d.eq || (enc in d'.eq && d'.eq == d.eq[enc := d'.eq[enc]])
    ensures forall v: string :: v != enc || d'.eq == d.eq ==>
              ReadKeys(c, d', v) == ReadKeys(c, d, v) && SettledKeys(c, d', v) == SettledKeys(c, d, v)
  {
  }

  /** What a new entry has to guarantee for its own value, given that the others are unchanged. */
  lemma ChangeEntry(c: Config, s: World, d': Doc, enc: string)
    requires Inv(c, s)
    requires d'.eq == CurrentDoc(s).eq || (enc in d'.eq && d'.eq == CurrentDoc(s).eq[enc := d'.eq[enc]])
    requires AimsMeet(c, s.attempts, s.pending, s.history, s.floor, enc, ReadKeys(c, d', enc))
    requires forall m: Member :: IsCurrent(c, s.rows, m) && m.pk !in s.torn && EncOf(c, s.rows, m) == enc ==>
               HeldIn(s.store, s.pending, ReadKeys(c, d', enc), m)
    requires forall cmd <- s.pending :: cmd.ZAdd? && cmd.key.EqKey? && cmd.key.enc == enc ==>
               forall t <- cmd.aim :: t in SettledKeys(c, d', enc) ==> t in SettledKeys(c, CurrentDoc(s), enc)
    ensures forall v: string :: AimsMeet(c, s.attempts, s.pending, s.history, s.floor, v, ReadKeys(c, d', v))
    ensures NoLoss(c, s.rows, s.store, s.pending, d', s.torn) && Siblings(c, s.rows, s.store, s.pending, d', s.torn)
  {
    hide IsCurrent, EncOf, ReadKeys, SettledKeys, AimsMeet, StoreOK, RowsOK, ControlOK, PageOK, FinalMembers, FinalAims,
         AttemptsOK, DocsOK, HeldIn, Held;
    var d := CurrentDoc(s);
    OtherEntries(c, d, d', enc);
    forall v: string ensures AimsMeet(c, s.attempts, s.pending, s.history, s.floor, v, ReadKeys(c, d', v)) {
      assert AimsMeet(c, s.attempts, s.pending, s.history, s.floor, v, LatestReads(c, s.history, v));
    }
    forall m: Member | IsCurrent(c, s.rows, m) && m.pk !in s.torn
      ensures HeldIn(s.store, s.pending, ReadKeys(c, d', EncOf(c, s.rows, m)), m)
    {
      assert HeldIn(s.store, s.pending, ReadKeys(c, d, EncOf(c, s.rows, m)), m);
    }
    forall cmd | cmd in s.pending && cmd.ZAdd? && IsCurrent(c, s.rows, cmd.member) && cmd.member.pk !in s.torn
      ensures forall t <- cmd.aim :: t in SettledKeys(c, d', EncOf(c, s.rows, cmd.member)) ==>
                Held(s.store, s.pending, t, cmd.member)
    {
      assert CmdOK(c, s.rows, cmd, d.next);
      forall t | t in cmd.aim && t in SettledKeys(c, d', EncOf(c, s.rows, cmd.member))
        ensures Held(s.store, s.pending, t, cmd.member)
      {
        assert t in SettledKeys(c, d, EncOf(c, s.rows, cmd.member));
      }
    }
  }

  lemma MoreKeysMeet(c: Config, s: World, enc: string, keys: set<Key>, keys': set<Key>)
    requires AimsMeet(c, s.attempts, s.pending, s.history, s.floor, enc, keys) && keys <= keys'
    ensures AimsMeet(c, s.attempts, s.pending, s.history, s.floor, enc, keys')
  {
    hide Aim;
    assert forall a: set<Key> :: Meets(a, keys) ==> Meets(a, keys');
    assert forall i: nat, pk: string :: AimMeets(c, s.history, i, enc, pk, keys) ==>
        AimMeets(c, s.history, i, enc, pk, keys');
  }

  lemma ReserveStep(c: Config, s: World, s': World)
    requires ValidConfig(c) && Inv(c, s) && Reserve(c, s, s')
    ensures Inv(c, s')
  {
    hide NoLoss, Siblings, AimsMeet, StoreOK, RowsOK, PageOK, FinalMembers, FinalAims, AttemptsOK, IsCurrent, EncOf;
    var d := CurrentDoc(s);
    var d' := CurrentDoc(s');
    assert DocOK(d);
    SameEntries(c, s, d');
    assert Below(c, s'.history, s'.pending, s.ctl.enc, s.ctl.first) by {
      forall x | x in s'.history ensures forall b <- EntryReads(EntryOf(x, s.ctl.enc)) :: b < s.ctl.first {
        var y := if x == d' then d else x;
        assert y in s.history && DocOK(y) && EntryOf(x, s.ctl.enc) == EntryOf(y, s.ctl.enc);
        assert s.ctl.enc in y.eq ==> EntryOK(y.eq[s.ctl.enc], y.next);
        assert y.next <= d.next;
      }
      forall cmd | cmd in s.pending && cmd.ZAdd? && cmd.key.EqKey? && cmd.key.enc == s.ctl.enc
        ensures forall t <- cmd.aim :: t.EqKey? && t.sub < s.ctl.first
      {
        assert CmdOK(c, s.rows, cmd, d.next);
      }
    }
    StoreDoc(c, s, s', d');
  }

  lemma SameEntries(c: Config, s: World, d': Doc)
    requires Inv(c, s) && d'.eq == CurrentDoc(s).eq
    ensures forall v: string :: AimsMeet(c, s.attempts, s.pending, s.history, s.floor, v, ReadKeys(c, d', v))
    ensures NoLoss(c, s.rows, s.store, s.pending, d', s.torn) && Siblings(c, s.rows, s.store, s.pending, d', s.torn)
  {
    hide IsCurrent, EncOf, AimsMeet, StoreOK, RowsOK, ControlOK, PageOK, FinalMembers, FinalAims, AttemptsOK, DocsOK,
         HeldIn, Held, PendingOK;
    OtherEntries(c, CurrentDoc(s), d', "");
    forall v: string ensures AimsMeet(c, s.attempts, s.pending, s.history, s.floor, v, ReadKeys(c, d', v)) {
      assert AimsMeet(c, s.attempts, s.pending, s.history, s.floor, v, LatestReads(c, s.history, v));
    }
  }

  lemma StartStep(c: Config, s: World, s': World)
    requires ValidConfig(c) && Inv(c, s) && Start(c, s, s')
    ensures Inv(c, s')
  {
    hide NoLoss, Siblings, AimsMeet, StoreOK, RowsOK, PageOK, FinalMembers, FinalAims, AttemptsOK, IsCurrent, EncOf,
         Begin, PendingOK, HeldIn;
    var d := CurrentDoc(s);
    var d' := CurrentDoc(s');
    var enc, first := s.ctl.enc, s.ctl.first;
    assert DocOK(d);
    assert enc in d.eq ==> EntryOK(d.eq[enc], d.next);
    assert d in s.history;
    assert EntryOK(s.ctl.entry, first);
    BeginEntry(s.ctl.dir, s.ctl.entry, first, d.next);
    ChangedDocOK(d, enc, Begin(s.ctl.dir, s.ctl.entry, first), d.version + 1);
    hide EntryOK, DocOK;
    assert DocOK(d');
    assert ReadKeys(c, d, enc) <= ReadKeys(c, d', enc);
    assert AimsMeet(c, s.attempts, s.pending, s.history, s.floor, enc, LatestReads(c, s.history, enc));
    MoreKeysMeet(c, s, enc, ReadKeys(c, d, enc), ReadKeys(c, d', enc));
    MoreKeysHold(c, s, d, enc, ReadKeys(c, d', enc));
    ChangeEntry(c, s, d', enc);
    BeginJob(s.ctl.dir, s.ctl.entry, first);
    StoreDoc(c, s, s', d');
  }

  lemma BeginJob(dir: Direction, e: EqEntry, first: nat)
    ensures Begin(dir, e, first).split.Some? && Begin(dir, e, first).split.value.state == DualState(dir)
  {
  }

  lemma MoreKeysHold(c: Config, s: World, d: Doc, enc: string, keys: set<Key>)
    requires NoLoss(c, s.rows, s.store, s.pending, d, s.torn) && ReadKeys(c, d, enc) <= keys
    ensures forall m: Member :: IsCurrent(c, s.rows, m) && m.pk !in s.torn && EncOf(c, s.rows, m) == enc ==>
              HeldIn(s.store, s.pending, keys, m)
  {
    hide IsCurrent, EncOf, Held, ReadKeys;
  }

  lemma DrainStep(c: Config, s: World, s': World)
    requires ValidConfig(c) && Inv(c, s) && Drain(c, s, s')
    ensures Inv(c, s')
  {
    hide NoLoss, Siblings, AimsMeet, StoreOK, RowsOK, PageOK, FinalMembers, FinalAims, AttemptsOK, IsCurrent, EncOf,
         PendingOK, HeldIn;
    var d := CurrentDoc(s);
    var d' := CurrentDoc(s');
    var enc := s.ctl.job.enc;
    assert DocOK(d) && EntryOK(d.eq[enc], d.next);
    DrainEntry(s.ctl.job.dir, d.eq[enc], d.next);
    ChangedDocOK(d, enc, ToDrain(s.ctl.job.dir, d.eq[enc]), d.version + 1);
    hide EntryOK;
    assert DocOK(d');
    assert EntryReads(EntryOf(d', enc)) == EntryReads(EntryOf(d, enc));
    assert Settled(EntryOf(d', enc)) == Settled(EntryOf(d, enc));
    assert AimsMeet(c, s.attempts, s.pending, s.history, s.floor, enc, LatestReads(c, s.history, enc));
    MoreKeysHold(c, s, d, enc, ReadKeys(c, d', enc));
    ChangeEntry(c, s, d', enc);
    StoreDoc(c, s, s', d');
  }

  lemma PublishStep(c: Config, s: World, s': World)
    requires ValidConfig(c) && Inv(c, s) && Publish(c, s, s')
    ensures Inv(c, s')
  {
    hide NoLoss, Siblings, AimsMeet, StoreOK, RowsOK, PageOK, AttemptsOK, IsCurrent, EncOf, PendingOK, HeldIn;
    var job := s.ctl.job;
    var d := CurrentDoc(s);
    var d' := CurrentDoc(s');
    assert DocOK(d) && EntryOK(d.eq[job.enc], d.next);
    FinishEntry(job.dir, job.sp, d.eq[job.enc], d.next);
    assert DocOK(d');
    ReadsOfJob(c, job, d);
    assert ReadKeys(c, d', job.enc) == SettledKeys(c, d', job.enc) == TargetKeys(c, job);
    ChangeEntry(c, s, d', job.enc);
    StoreDoc(c, s, s', d');
  }
}
