/**
 * The hot-value registry: readers use the routing document for a value only once the value is
 * registered, which a split does last. As long as no crash hits between the publication of a
 * split and its registration, the end of all protocols is enough for a lookup; after such a
 * crash a lookup can miss rows although nothing is in flight any more.
 */
module EqRegistry {
  import opened Wrappers
  import opened BucketMap
  import opened WritePath
  import opened EqProtocol
  import P = EqProtocol
  import opened EqSafety
  import opened EqWriterSteps
  import opened EqTheorems
  import opened EqLateWrite
  import opened Scatter
  import L = EqLookup

  /** Every split that has been published is registered before the controller does anything else. */
  ghost predicate RegistersAll(run: seq<World>) {
    forall i :: 0 <= i < |run| - 1 && run[i].ctl.Registering? ==> Registers(run[i], run[i + 1])
  }

  ghost predicate Registers(s: World, s': World)
    requires s.ctl.Registering?
  {
    s'.ctl == s.ctl || s.ctl.enc in s'.hot
  }

  /** Only a value that has been split can be under merge. */
  predicate UnderMerge(e: EqEntry) { e.split.Some? && e.split.value.state in {Merging, MergeDrain} }

  predicate MergesHot(ctl: Control, hot: set<string>) {
    match ctl
    case Planned(enc, dir, _, _) => dir.Merge? ==> enc in hot
    case Reserved(enc, dir, _, _) => dir.Merge? ==> enc in hot
    case Ready(job) => job.dir.Merge? ==> job.enc in hot
    case Moving(job, _, _, _, _, _) => job.dir.Merge? ==> job.enc in hot
    case Unlinking(job, _) => job.dir.Merge? ==> job.enc in hot
    case _ => true
  }

  /** An entry at rest, or under merge, is registered, or about to be. */
  predicate EntryHot(e: EqEntry, enc: string, hot: set<string>, ctl: Control) {
    && (e.split.None? ==> enc in hot || ctl == Registering(enc))
    && (UnderMerge(e) ==> enc in hot)
  }

  ghost predicate HotOK(s: World) {
    && s.history != [] && MergesHot(s.ctl, s.hot)
    && forall enc <- CurrentDoc(s).eq :: EntryHot(CurrentDoc(s).eq[enc], enc, s.hot, s.ctl)
  }

  lemma WriterKeepsHot(c: Config, s: World, s': World)
    requires HotOK(s) && WriterStep(c, s, s')
    ensures HotOK(s')
  {
    WritersLeaveControl(c, s, s');
    SameDocKeepsHot(s, s');
  }

  lemma WritersLeaveControl(c: Config, s: World, s': World)
    requires WriterStep(c, s, s')
    ensures s'.history == s.history && s'.hot == s.hot && s'.ctl == s.ctl
  {
    hide RowAfter, UndosFor, RedosFor, P.Routed, Adds, Rems;
  }

  /** Steps that store no document. */
  lemma SameDocKeepsHot(s: World, s': World)
    requires HotOK(s) && s'.history == s.history && s.hot <= s'.hot && MergesHot(s'.ctl, s'.hot)
    requires s.ctl.Registering? ==> Registers(s, s')
    ensures HotOK(s')
  {
    forall enc | enc in CurrentDoc(s').eq ensures EntryHot(CurrentDoc(s').eq[enc], enc, s'.hot, s'.ctl) {
      assert EntryHot(CurrentDoc(s).eq[enc], enc, s.hot, s.ctl);
    }
  }

  /** Steps that store a document with one entry changed. */
  lemma OneEntryKeepsHot(s: World, s': World, enc: string, e: EqEntry)
    requires HotOK(s) && s'.history != [] && CurrentDoc(s').eq == CurrentDoc(s).eq[enc := e] && s'.hot == s.hot
    requires !s.ctl.Registering? && MergesHot(s'.ctl, s'.hot) && EntryHot(e, enc, s'.hot, s'.ctl)
    ensures HotOK(s')
  {
    forall v | v in CurrentDoc(s').eq ensures EntryHot(CurrentDoc(s').eq[v], v, s'.hot, s'.ctl) {
      if v != enc {
        assert EntryHot(CurrentDoc(s).eq[v], v, s.hot, s.ctl);
      }
    }
  }

  lemma StoringKeepsHot(c: Config, s: World, s': World)
    requires HotOK(s) && (Reserve(c, s, s') || Start(c, s, s') || Drain(c, s, s') || Publish(c, s, s'))
    ensures HotOK(s')
  {
    hide HotOK;
    assert s.history != [] && MergesHot(s.ctl, s.hot) by {
      Parts(s);
    }
    if Reserve(c, s, s') {
      ReserveKeepsHot(c, s, s');
    } else if Start(c, s, s') {
      OneEntryKeepsHot(s, s', s.ctl.enc, Begin(s.ctl.dir, s.ctl.entry, s.ctl.first));
    } else if Drain(c, s, s') {
      OneEntryKeepsHot(s, s', s.ctl.job.enc, ToDrain(s.ctl.job.dir, CurrentDoc(s).eq[s.ctl.job.enc]));
    } else {
      OneEntryKeepsHot(s, s', s.ctl.job.enc, Finish(s.ctl.job.dir, s.ctl.job.sp));
    }
  }

  lemma Parts(s: World)
    requires HotOK(s)
    ensures s.history != [] && MergesHot(s.ctl, s.hot)
  {
  }

  lemma ReserveKeepsHot(c: Config, s: World, s': World)
    requires HotOK(s) && Reserve(c, s, s')
    ensures HotOK(s')
  {
    forall v | v in CurrentDoc(s').eq ensures EntryHot(CurrentDoc(s').eq[v], v, s'.hot, s'.ctl) {
      assert EntryHot(CurrentDoc(s).eq[v], v, s.hot, s.ctl);
    }
  }

  /** A merge is planned for, or resumed at, a registered value only. */
  lemma MergeIsOfHot(c: Config, s: World, s': World, enc: string, dir: Direction)
    requires HotOK(s) && (Plan(c, s, s', enc, dir) || Resume(c, s, s', enc, dir))
    ensures MergesHot(s'.ctl, s'.hot)
  {
    if dir.Merge? {
      assert enc in CurrentDoc(s).eq;
      assert EntryHot(CurrentDoc(s).eq[enc], enc, s.hot, s.ctl);
    }
  }

  lemma ControlKeepsHot(c: Config, s: World, s': World)
    requires HotOK(s) && ControlStep(c, s, s') && (s.ctl.Registering? ==> Registers(s, s'))
    ensures HotOK(s')
  {
    hide HotOK, Reserve, Start, Drain, Publish, Plan, Resume, ControlStep, MergesHot;
    Parts(s);
    if Reserve(c, s, s') || Start(c, s, s') || Drain(c, s, s') || Publish(c, s, s') {
      StoringKeepsHot(c, s, s');
    } else {
      if enc: string, dir: Direction :| Plan(c, s, s', enc, dir) || Resume(c, s, s', enc, dir) {
        MergeIsOfHot(c, s, s', enc, dir);
        PlanStoresNothing(c, s, s', enc, dir);
      } else {
        OtherStepsKeepJob(c, s, s');
      }
      SameDocKeepsHot(s, s');
    }
  }

  lemma PlanStoresNothing(c: Config, s: World, s': World, enc: string, dir: Direction)
    requires Plan(c, s, s', enc, dir) || Resume(c, s, s', enc, dir)
    ensures s'.history == s.history && s.hot == s'.hot
  {
  }

  lemma OtherStepsKeepJob(c: Config, s: World, s': World)
    requires ControlStep(c, s, s') && MergesHot(s.ctl, s.hot)
    requires !Reserve(c, s, s') && !Start(c, s, s') && !Drain(c, s, s') && !Publish(c, s, s')
    requires forall enc: string, dir: Direction :: !Plan(c, s, s', enc, dir) && !Resume(c, s, s', enc, dir)
    ensures s'.history == s.history && s.hot <= s'.hot && MergesHot(s'.ctl, s'.hot)
  {
    hide Reserve, Start, Drain, Publish, Plan, Resume, StartPass, OpenPage, CheckItem, CopyItem, RemoveItem;
    if final: bool :| StartPass(c, s, s', final) {
      PassKeepsJob(c, s, s', final);
    } else if page: set<Member> :| OpenPage(c, s, s', page) {
      PageKeepsJob(c, s, s', page);
    } else if m: Member :| CheckItem(c, s, s', m) || CopyItem(c, s, s', m) || RemoveItem(c, s, s', m) {
      ItemKeepsJob(c, s, s', m);
    }
  }

  lemma PassKeepsJob(c: Config, s: World, s': World, final: bool)
    requires StartPass(c, s, s', final) && MergesHot(s.ctl, s.hot)
    ensures s'.history == s.history && s.hot == s'.hot && MergesHot(s'.ctl, s'.hot)
  {
    hide AimsMeet;
  }

  lemma PageKeepsJob(c: Config, s: World, s': World, page: set<Member>)
    requires OpenPage(c, s, s', page) && MergesHot(s.ctl, s.hot)
    ensures s'.history == s.history && s.hot == s'.hot && MergesHot(s'.ctl, s'.hot)
  {
    hide BucketOf;
  }

  lemma ItemKeepsJob(c: Config, s: World, s': World, m: Member)
    requires (CheckItem(c, s, s', m) || CopyItem(c, s, s', m) || RemoveItem(c, s, s', m)) && MergesHot(s.ctl, s.hot)
    ensures s'.history == s.history && s.hot == s'.hot && MergesHot(s'.ctl, s'.hot)
  {
    hide Home;
  }

  lemma {:induction false} RunKeepsHot(c: Config, run: seq<World>, n: nat)
    requires Run(c, run) && RegistersAll(run) && n < |run|
    ensures HotOK(run[n])
  {
    hide WriterStep, ControlStep, HotOK, Registers;
    if n == 0 {
      NothingSplit(c, run[0]);
    } else {
      RunKeepsHot(c, run, n - 1);
      assert Next(c, run[n - 1], run[n - 1 + 1]);
      if WriterStep(c, run[n - 1], run[n]) {
        WriterKeepsHot(c, run[n - 1], run[n]);
      } else {
        ControlKeepsHot(c, run[n - 1], run[n]);
      }
    }
  }

  lemma NothingSplit(c: Config, s: World)
    requires Init(c, s)
    ensures HotOK(s)
  {
  }

  /**
   * With nothing in flight and no protocol under way for the listed values, the lookup's
   * conditions are met: its result is then exact.
   */
  lemma AtRestMeansQuiet(c: Config, run: seq<World>, n: nat, values: seq<string>)
    requires Run(c, run) && RegistersAll(run) && n < |run|
    requires var w := run[n];
             && w.pending == {} && w.torn == {} && (forall pk: string :: !CutOff(w, pk)) && !w.ctl.Registering?
             && (w.history != [] ==> forall v <- values :: EntryOf(CurrentDoc(w), c.cx.esc(v)).split.None?)
    ensures L.Quiet(c, run[n], values)
  {
    RunKeepsHot(c, run, n);
    var w := run[n];
    forall v | v in values && c.cx.esc(v) in CurrentDoc(w).eq ensures Scatter.Routed(w.hot, c.cx.esc, values) {
      assert EntryHot(CurrentDoc(w).eq[c.cx.esc(v)], c.cx.esc(v), w.hot, w.ctl);
    }
  }

  /** An entry under split or merge, or after one, has no settled bucket 0. */
  ghost predicate Moved(s: World) {
    s.history != [] && forall enc <- CurrentDoc(s).eq :: 0 !in Settled(CurrentDoc(s).eq[enc])
  }

  lemma StoringKeepsMoved(c: Config, s: World, s': World)
    requires Inv(c, s) && Moved(s) && (Reserve(c, s, s') || Start(c, s, s') || Drain(c, s, s') || Publish(c, s, s'))
    ensures Moved(s')
  {
    hide Inv, Settled, Begin, Finish, ToDrain, DirOf;
    if Start(c, s, s') {
      FirstIsPositive(c, s);
      BeginSettles(s.ctl.dir, s.ctl.entry, s.ctl.first);
      OneEntryMoved(s, s', s.ctl.enc);
    } else if Drain(c, s, s') {
      JobIsOfEntry(c, s);
      DrainSettles(s.ctl.job.dir, CurrentDoc(s).eq[s.ctl.job.enc]);
      OneEntryMoved(s, s', s.ctl.job.enc);
    } else if Publish(c, s, s') {
      JobIsOfEntry(c, s);
      FinishSettles(s.ctl.job.dir, CurrentDoc(s).eq[s.ctl.job.enc]);
      OneEntryMoved(s, s', s.ctl.job.enc);
    }
  }

  lemma OneEntryMoved(s: World, s': World, enc: string)
    requires Moved(s) && s'.history != [] && enc in CurrentDoc(s').eq && 0 !in Settled(CurrentDoc(s').eq[enc])
    requires CurrentDoc(s').eq == CurrentDoc(s).eq[enc := CurrentDoc(s').eq[enc]]
    ensures Moved(s')
  {
    hide Settled;
  }

  lemma FirstIsPositive(c: Config, s: World)
    requires Inv(c, s) && s.ctl.Reserved?
    ensures s.ctl.first > 0
  {
  }

  lemma JobIsOfEntry(c: Config, s: World)
    requires Inv(c, s) && (s.ctl.Moving? || s.ctl.Unlinking?)
    ensures JobOK(s.ctl.job, CurrentDoc(s))
  {
  }

  lemma BeginSettles(dir: Direction, e: EqEntry, first: nat)
    ensures forall b <- Settled(Begin(dir, e, first)) :: first <= b
  {
  }

  lemma DrainSettles(dir: Direction, e: EqEntry)
    requires e.split.Some? && e.split.value.state == DualState(dir)
    ensures Settled(ToDrain(dir, e)) == Settled(e)
  {
  }

  lemma FinishSettles(dir: Direction, e: EqEntry)
    requires e.split.Some? && e.split.value.state in {DualState(dir), DrainState(dir)}
    ensures Settled(Finish(dir, e.split.value)) == Settled(e)
  {
  }

  lemma {:induction false} RunMoves(c: Config, run: seq<World>, n: nat)
    requires ValidConfig(c) && Graceful(c) && Run(c, run) && n < |run|
    ensures Moved(run[n])
  {
    hide Next, Inv, Moved, Reserve, Start, Drain, Publish, CurrentDoc;
    if n == 0 {
      NothingMoved(c, run[0]);
    } else {
      RunMoves(c, run, n - 1);
      RunKeepsInv(c, run, n - 1);
      assert Next(c, run[n - 1], run[n - 1 + 1]);
      if run[n].history == run[n - 1].history {
        SameDocMoved(run[n - 1], run[n]);
      } else {
        OnlyFourStore(c, run[n - 1], run[n]);
        StoringKeepsMoved(c, run[n - 1], run[n]);
      }
    }
  }

  lemma NothingMoved(c: Config, s: World)
    requires Init(c, s)
    ensures Moved(s)
  {
  }

  lemma SameDocMoved(s: World, s': World)
    requires Moved(s) && s'.history == s.history
    ensures Moved(s')
  {
    assert CurrentDoc(s') == CurrentDoc(s);
  }

  /**
   * In a state with nothing in flight and nothing lost, a lookup's conditions are met exactly
   * when one listed value is registered or no listed value has an entry in the document.
   */
  lemma QuietIff(c: Config, run: seq<World>, n: nat, values: seq<string>)
    requires ValidConfig(c) && Graceful(c) && Run(c, run) && n < |run| && run[n].pending == {} && run[n].torn == {}
    requires forall pk: string :: !CutOff(run[n], pk)
    ensures run[n].history != []
    ensures L.Quiet(c, run[n], values)
            <==> Scatter.Routed(run[n].hot, c.cx.esc, values)
                 || forall v <- values :: c.cx.esc(v) !in CurrentDoc(run[n]).eq
  {
    RunMoves(c, run, n);
    RunKeepsInv(c, run, n);
    var w := run[n];
    forall v | v in values && c.cx.esc(v) in CurrentDoc(w).eq
      ensures exists b <- ReadBucketsEq(CurrentDoc(w), c.cx.esc(v)) :: b != 0
    {
      SettledIsRead(c, w, c.cx.esc(v));
      var b :| b in EntryReads(CurrentDoc(w).eq[c.cx.esc(v)]) && b != 0;
      assert b in ReadBucketsEq(CurrentDoc(w), c.cx.esc(v));
    }
  }

  lemma SettledIsRead(c: Config, s: World, enc: string)
    requires Inv(c, s) && Moved(s) && enc in CurrentDoc(s).eq
    ensures exists b <- EntryReads(CurrentDoc(s).eq[enc]) :: b != 0
  {
    hide NoLoss, Siblings, RowsOK, PendingOK, StoreOK, AttemptsOK, PageOK, AimsOK, FinalAims, FinalMembers, ControlOK;
    var e := CurrentDoc(s).eq[enc];
    assert DocOK(CurrentDoc(s)) && EntryOK(e, CurrentDoc(s).next);
    var b := Settled(e)[0];
    assert b in EntryReads(e);
  }

  // ----- a crash before the registration ----------------------------------------------------------

  /**
   * The controller stops after the last CAS of a split and before the registration. The entry
   * is at rest and nothing is in flight, yet a lookup of the value visits bucket 0 alone, while
   * the member of a row inserted since is in one of the new buckets. No later step has to
   * repair this: a restarted controller finds no split to resume.
   */
  lemma CrashBeforeRegistrationHides(c: Config) returns (run: seq<World>)
    requires ValidConfig(c)
    ensures Run(c, run) && Indexed(c, Last(run), "p") && Last(run).rows["p"].row.cols[c.idx.column] == "x"
    ensures Last(run).pending == {} && Last(run).torn == {} && Last(run).ctl.Idle? && Last(run).history != []
    ensures EntryOf(CurrentDoc(Last(run)), c.cx.esc("x")).split.None?
    ensures forall k: Key :: Visits(c.idx.id, CurrentDoc(Last(run)), Last(run).hot, c.cx.esc, ["x"], k) ==>
              (k, CurrentMember(c, Last(run).rows["p"].row, "p")) !in Last(run).store
  {
    hide ControlStep, WriterStep, Visits;
    var enc := c.cx.esc("x");
    run := SplitEmpty(c, FromStart(c), enc);
    var s := Last(run);
    var s1 := s.(ctl := Idle);
    assert Crash(c, s, s1) && ControlStep(c, s, s1) by {
      CrashIsAStep(c, s, s1);
    }
    run := Extend(c, run, s1);
    run := InsertRow(c, run, enc);
    forall k: Key | Visits(c.idx.id, CurrentDoc(Last(run)), Last(run).hot, c.cx.esc, ["x"], k)
      ensures k == K(c, enc, 0)
    {
      UnregisteredReadsDefault(c.idx.id, CurrentDoc(Last(run)), Last(run).hot, c.cx.esc, "x", k);
    }
  }

  lemma CrashIsAStep(c: Config, s: World, s': World)
    requires s' == s.(ctl := Idle)
    ensures Crash(c, s, s') && ControlStep(c, s, s')
  {
  }

  /** The table is empty, nothing is in flight, and the value has the buckets 1 and 2. */
  ghost predicate EmptyUnder(s: World, enc: string) {
    && s.history != [] && ValidEq(CurrentDoc(s)) && CurrentDoc(s).ranges != [] && s.floor < |s.history|
    && EntryOf(CurrentDoc(s), enc) == EqEntry([1, 2], None) && enc in CurrentDoc(s).eq
    && s.rows == map[] && s.pending == {} && s.store == {} && s.attempts == map[] && s.torn == {} && s.ctl.Idle?
  }

  /** One insertion, from its read to the landing of its command. */
  lemma InsertRow(c: Config, run: seq<World>, enc: string) returns (longer: seq<World>)
    requires ValidConfig(c) && Run(c, run) && enc == c.cx.esc("x") && EmptyUnder(Last(run), enc)
    ensures Run(c, longer) && Last(longer).history == Last(run).history && Last(longer).hot == Last(run).hot
    ensures Indexed(c, Last(longer), "p") && Last(longer).rows["p"].row.cols[c.idx.column] == "x"
    ensures Last(longer).pending == {} && Last(longer).torn == {} && Last(longer).ctl.Idle?
    ensures forall e <- Last(longer).store :: e.0 != K(c, enc, 0)
  {
    hide RowAfter, ControlStep, WriterStep, RedosFor, UndosFor, Aim;
    var s, d, after := Last(run), CurrentDoc(Last(run)), map[c.idx.column := "x"];
    longer := ReadLatest(c, run, enc);
    var k := InsertCommand(c, d, enc);
    var m := Plain("p", 1);
    var s3 := s.(rows := map["p" := Live(RowAfter(c.cx, c.indexes, None, after), false)], pending := {ZAdd(k, m, {k})});
    CommitIsAStep(c, Last(longer), s3, d, k);
    longer := Extend(c, longer, s3);
    var s4 := s3.(pending := {}, store := {(k, m)});
    LandIsAStep(c, s3, s4, ZAdd(k, m, {k}));
    longer := Extend(c, longer, s4);
    RowAfterColumns(c, None, after);
  }

  lemma CommitIsAStep(c: Config, s: World, s': World, d: Doc, k: Key)
    requires ValidConfig(c) && s.history != [] && d == CurrentDoc(s) && ValidEq(d) && d.ranges != []
    requires s.attempts == map[0 := Attempt("p", None, Some(|s.history| - 1))] && s.rows == map[] && s.pending == {}
    requires s.torn == {}
    requires var after := map[c.idx.column := "x"];
             && Adds(RedosFor(c.cx, c.idx, "p", None, after, Some(d))) == {ZAdd(k, Plain("p", 1), {k})}
             && Rems(UndosFor(c.cx, c.idx, "p", None, after, Some(d))) == {}
             && s' == s.(rows := map["p" := Live(RowAfter(c.cx, c.indexes, None, after), false)],
                 pending := {ZAdd(k, Plain("p", 1), {k})}, attempts := map[])
    ensures WriterStep(c, s, s')
  {
    hide RowAfter, RedosFor, UndosFor;
    assert s.attempts - {0} == map[];
    assert s.torn - {"p"} == {};
    assert Commit(c, s, s', 0, map[c.idx.column := "x"]);
  }

  lemma LandIsAStep(c: Config, s: World, s': World, cmd: Cmd)
    requires s.pending == {cmd} && cmd.ZAdd? && s.store == {}
    requires s' == s.(pending := {}, store := {(cmd.key, cmd.member)})
    ensures WriterStep(c, s, s')
  {
    assert s.pending - {cmd} == {} && s.store + {(cmd.key, cmd.member)} == {(cmd.key, cmd.member)};
    assert Land(c, s, s', cmd);
  }

  lemma ReadLatest(c: Config, run: seq<World>, enc: string) returns (longer: seq<World>)
    requires ValidConfig(c) && Run(c, run) && EmptyUnder(Last(run), enc)
    ensures Run(c, longer)
    ensures Last(longer) == Last(run).(attempts := map[0 := Attempt("p", None, Some(|Last(run).history| - 1))])
  {
    hide ControlStep;
    var s := Last(run);
    var s1 := s.(attempts := map[0 := Attempt("p", None, None)]);
    assert ReadRow(c, s, s1, 0, "p");
    longer := Extend(c, run, s1);
    var s2 := s1.(attempts := map[0 := Attempt("p", None, Some(|s.history| - 1))]);
    assert LoadDoc(c, s1, s2, 0, |s.history| - 1);
    longer := Extend(c, longer, s2);
  }

  lemma InsertCommand(c: Config, d: Doc, enc: string) returns (k: Key)
    requires ValidConfig(c) && enc == c.cx.esc("x") && ValidEq(d) && d.ranges != [] && enc in d.eq
    requires d.eq[enc] == EqEntry([1, 2], None)
    ensures var after := map[c.idx.column := "x"];
            && Adds(RedosFor(c.cx, c.idx, "p", None, after, Some(d))) == {ZAdd(k, Plain("p", 1), {k})}
            && Rems(UndosFor(c.cx, c.idx, "p", None, after, Some(d))) == {}
    ensures k != K(c, enc, 0)
  {
    hide RedosFor, UndosFor;
    var after := map[c.idx.column := "x"];
    k := K(c, enc, [1, 2][EqSubFor(c.cx.hash, "p", 2)]);
    assert Aim(c, d, enc, "p") == {k};
    AddsShape(c, "p", None, after, d);
    RemsShape(c, "p", None, after, d);
  }
}
