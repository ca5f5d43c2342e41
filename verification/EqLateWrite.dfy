/**
 * The grace period is what the protocol rests on: for each of the three things that it has to
 * outlast a run exists in which, left out, a write that was routed by the document from before
 * the split lands after the old bucket has been given up.
 */
module EqLateWrite {
  import opened Wrappers
  import opened BucketMap
  import opened WritePath
  import opened EqProtocol
  import opened EqSafety
  import opened EqWriterSteps
  import opened EqTheorems

  function Last(run: seq<World>): World
    requires run != []
  {
    run[|run| - 1]
  }

  lemma Extend(c: Config, run: seq<World>, s: World) returns (longer: seq<World>)
    requires Run(c, run) && Next(c, Last(run), s)
    ensures Run(c, longer) && Last(longer) == s && run <= longer
  {
    hide Next, Init;
    longer := run + [s];
    forall i | 0 <= i < |longer| - 1 ensures Next(c, longer[i], longer[i + 1]) {
      assert i < |run| - 1 ==> Next(c, run[i], run[i + 1]);
    }
  }

  function Beginning(): World { World(map[], {}, {}, map[], [DefaultDoc()], 0, {}, {}, Idle) }

  function FromStart(c: Config): (run: seq<World>)
    ensures Run(c, run) && Last(run) == Beginning()
  {
    [Beginning()]
  }

  /** One insertion of row "p" is in flight to the default bucket. */
  lemma SendWrite(c: Config) returns (run: seq<World>)
    requires ValidConfig(c)
    ensures Run(c, run)
    ensures var k := K(c, c.cx.esc("x"), 0);
            Last(run) == Beginning().(
                rows := map["p" := Live(RowAfter(c.cx, c.indexes, None, map[c.idx.column := "x"]), false)],
                pending := {ZAdd(k, Plain("p", 1), {k})})
  {
    hide ControlStep, WriterStep, RowAfter, Run, Next;
    run := ReadAndLoad(c, FromStart(c));
    run := CommitFirst(c, run);
  }

  /** A writer reads the absent row, and the document from before any split. */
  lemma ReadAndLoad(c: Config, run: seq<World>) returns (longer: seq<World>)
    requires ValidConfig(c) && Run(c, run)
    requires var s := Last(run); s.rows == map[] && s.attempts == map[] && s.history != [] && s.floor == 0
    ensures Run(c, longer) && Last(longer) == Last(run).(attempts := map[0 := Attempt("p", None, Some(0))])
  {
    hide ControlStep;
    var s0 := Last(run);
    var s1 := s0.(attempts := map[0 := Attempt("p", None, None)]);
    assert ReadRow(c, s0, s1, 0, "p");
    longer := Extend(c, run, s1);
    var s2 := s1.(attempts := map[0 := Attempt("p", None, Some(0))]);
    assert LoadDoc(c, s1, s2, 0, 0);
    longer := Extend(c, longer, s2);
  }

  /** The writer's script commits; its insertion is aimed where that document says. */
  lemma CommitFirst(c: Config, run: seq<World>) returns (longer: seq<World>)
    requires ValidConfig(c) && Run(c, run)
    requires var s := Last(run);
             && s.rows == map[] && s.attempts == map[0 := Attempt("p", None, Some(0))] && s.pending == {}
             && s.torn == {}
             && [DefaultDoc()] <= s.history
    ensures Run(c, longer)
    ensures var k := K(c, c.cx.esc("x"), 0);
            Last(longer) == Last(run).(
                rows := map["p" := Live(RowAfter(c.cx, c.indexes, None, map[c.idx.column := "x"]), false)],
                pending := {ZAdd(k, Plain("p", 1), {k})}, attempts := map[])
  {
    hide RowAfter, RedosFor, UndosFor, ControlStep;
    var s := Last(run);
    var after := map[c.idx.column := "x"];
    var k, m := K(c, c.cx.esc("x"), 0), Plain("p", 1);
    FirstCommands(c);
    assert s.history[0] == DefaultDoc();
    var s' := s.(rows := map["p" := Live(RowAfter(c.cx, c.indexes, None, after), false)],
                 pending := {ZAdd(k, m, {k})}, attempts := map[]);
    assert s.attempts - {0} == map[];
    assert s.torn - {"p"} == {};
    assert Commit(c, s, s', 0, after);
    longer := Extend(c, run, s');
  }

  /** A first insertion under the default document: one command, aimed at bucket 0. */
  lemma FirstCommands(c: Config)
    requires ValidConfig(c)
    ensures var after, d := map[c.idx.column := "x"], DefaultDoc();
            var k, m := K(c, c.cx.esc("x"), 0), Plain("p", 1);
            && Adds(RedosFor(c.cx, c.idx, "p", None, after, Some(d))) == {ZAdd(k, m, {k})}
            && Rems(UndosFor(c.cx, c.idx, "p", None, after, Some(d))) == {}
  {
    hide RedosFor, UndosFor;
    var after, d := map[c.idx.column := "x"], DefaultDoc();
    AddsShape(c, "p", None, after, d);
    RemsShape(c, "p", None, after, d);
    assert Aim(c, d, c.cx.esc("x"), "p") == {K(c, c.cx.esc("x"), 0)};
  }

  /** A pass over one empty bucket reads one empty page. */
  lemma EmptyPass(c: Config, run: seq<World>, final: bool, b: nat) returns (longer: seq<World>)
    requires ValidConfig(c) && Run(c, run) && Last(run).ctl.Ready? && Last(run).store == {}
    requires var s, job := Last(run), Last(run).ctl.job;
             && Sources(job.dir, job.sp) == [b] && (final ==> job.sp.state == DrainState(job.dir))
             && (final ==> Waited(c, s, job.enc, TargetKeys(c, job)))
    ensures Run(c, longer)
    ensures Last(longer) == Last(run).(ctl := Moving(Last(run).ctl.job, final, [], false, false, map[]))
  {
    hide WriterStep, Waited;
    var s := Last(run);
    var job := s.ctl.job;
    var s1 := s.(ctl := Moving(job, final, [b], false, false, map[]));
    assert StartPass(c, s, s1, final);
    longer := Extend(c, run, s1);
    var none: set<Member> := {};
    var s2 := s1.(ctl := Moving(job, final, [b], true, true, map m <- none :: Waiting));
    assert BucketOf(s1.store, K(c, job.enc, b)) == none;
    assert OpenPage(c, s1, s2, none);
    longer := Extend(c, longer, s2);
    var s3 := s2.(ctl := Moving(job, final, [], false, false, map[]));
    assert [b][1..] == [];
    assert s2.ctl.page == map[];
    assert s3.ctl.page == s2.ctl.page;
    assert ClosePage(c, s2, s3);
    longer := Extend(c, longer, s3);
  }

  /** No write is under way that the grace period outlasts. */
  ghost predicate MayDrain(c: Config, s: World) {
    (c.waits.attempts ==> s.attempts == map[]) && (c.waits.inFlight ==> s.pending == {})
  }

  /** A split of the default bucket is published and not yet registered; nothing else has changed. */
  ghost predicate JustSplit(c: Config, s: World, s': World, enc: string) {
    && s'.history != [] && s.history <= s'.history && (!c.waits.caches ==> s'.floor == s.floor)
    && ValidEq(CurrentDoc(s')) && CurrentDoc(s').ranges != [] && s'.floor < |s'.history|
    && EntryOf(CurrentDoc(s'), enc) == EqEntry([1, 2], None) && enc in CurrentDoc(s').eq && s'.ctl == Registering(enc)
    && s'.rows == s.rows && s'.pending == s.pending && s'.store == {} && s'.torn == s.torn && s'.hot == s.hot
    && s'.attempts == s.attempts
  }

  /** A whole split of the still empty default bucket. */
  lemma SplitEmpty(c: Config, run: seq<World>, enc: string) returns (longer: seq<World>)
    requires ValidConfig(c) && Run(c, run) && MayDrain(c, Last(run))
    requires Last(run).history == [DefaultDoc()] && Last(run).floor == 0 && Last(run).ctl.Idle? && Last(run).store == {}
    ensures Run(c, longer) && JustSplit(c, Last(run), Last(longer), enc)
  {
    hide WriterStep;
    var s := Last(run);
    var d := DefaultDoc();
    var e := EqEntry([0], None);
    var s1 := s.(ctl := Planned(enc, Split, e, 1));
    assert Plan(c, s, s1, enc, Split);
    longer := Extend(c, run, s1);
    var d2 := d.(version := 1, next := 3);
    var s2 := s1.(history := [d, d2], ctl := Reserved(enc, Split, e, 1));
    assert Reserve(c, s1, s2);
    longer := Extend(c, longer, s2);
    var e3 := EqEntry([0], Some(SplitInfo(Splitting, [0], [1, 2])));
    assert Fresh(1, 2) == [1, 2];
    assert Begin(Split, e, 1) == e3;
    var d3 := d2.(version := 2, eq := map[enc := e3]);
    var s3 := s2.(history := [d, d2, d3], ctl := Ready(Job(enc, Split, e3.split.value)));
    assert [d, d2] + [d3] == [d, d2, d3];
    assert Start(c, s2, s3);
    longer := Extend(c, longer, s3);
    longer := EmptyPass(c, longer, false, 0);
    longer := DrainAndFinish(c, longer, enc);
  }

  lemma DrainAndFinish(c: Config, run: seq<World>, enc: string) returns (longer: seq<World>)
    requires ValidConfig(c) && Run(c, run) && MayDrain(c, Last(run))
    requires var s, sp := Last(run), SplitInfo(Splitting, [0], [1, 2]);
             && s.history != [] && s.floor < |s.history| && ValidEq(CurrentDoc(s)) && CurrentDoc(s).ranges != []
             && EntryOf(CurrentDoc(s), enc) == EqEntry([0], Some(sp)) && enc in CurrentDoc(s).eq
             && s.ctl == Moving(Job(enc, Split, sp), false, [], false, false, map[]) && s.store == {}
    ensures Run(c, longer) && JustSplit(c, Last(run), Last(longer), enc)
  {
    hide WriterStep, Waited;
    var s := Last(run);
    var d := CurrentDoc(s);
    var sp := SplitInfo(Draining, [0], [1, 2]);
    var job := Job(enc, Split, sp);
    var d1 := d.(version := d.version + 1, eq := d.eq[enc := EqEntry([0], Some(sp))]);
    var s1 := s.(history := s.history + [d1], ctl := Ready(job));
    assert Drain(c, s, s1);
    longer := Extend(c, run, s1);
    longer := CachesCatchUp(c, longer, enc);
    longer := EmptyPass(c, longer, true, 0);
    var s2 := Last(longer);
    var s3 := s2.(ctl := Unlinking(job, [0]));
    assert EndPass(c, s2, s3);
    longer := Extend(c, longer, s3);
    var s4 := s3.(ctl := Unlinking(job, []));
    assert [0][1..] == [];
    assert Unlink(c, s3, s4);
    longer := Extend(c, longer, s4);
    var d5 := d1.(version := d1.version + 1, eq := d1.eq[enc := EqEntry([1, 2], None)]);
    var s5 := s4.(history := s4.history + [d5], ctl := Registering(enc));
    assert Publish(c, s4, s5);
    longer := Extend(c, longer, s5);
  }

  /** If they are waited for, every cache holds the latest document. */
  lemma CachesCatchUp(c: Config, run: seq<World>, enc: string) returns (longer: seq<World>)
    requires ValidConfig(c) && Run(c, run) && MayDrain(c, Last(run))
    requires var s := Last(run);
             && s.history != [] && s.floor < |s.history| && ValidEq(CurrentDoc(s)) && enc in CurrentDoc(s).eq
             && CurrentDoc(s).eq[enc] == EqEntry([0], Some(SplitInfo(Draining, [0], [1, 2])))
    ensures Run(c, longer)
    ensures Last(longer) == Last(run).(floor := if c.waits.caches then |Last(run).history| - 1 else Last(run).floor)
    ensures Waited(c, Last(longer), enc, Keys(c, enc, [1, 2]))
  {
    hide ControlStep;
    var s := Last(run);
    longer := run;
    if !c.waits.caches {
      return;
    }
    var s' := s.(floor := |s.history| - 1);
    assert Age(c, s, s', |s.history| - 1);
    longer := Extend(c, run, s');
    forall i: nat, pk: string | s'.floor <= i < |s.history|
      ensures AimMeets(c, s.history, i, enc, pk, Keys(c, enc, [1, 2]))
    {
      var b := [1, 2][EqSubFor(c.cx.hash, pk, 2)];
      assert K(c, enc, b) in Aim(c, CurrentDoc(s), enc, pk);
    }
  }

  /**
   * No row that is not cut off is lost in any run exactly when the grace period outlasts the routed attempts, the
   * caches and the insertions in flight: whichever of the three is left out, one slow
   * insertion is enough, whatever the hash, the escaping and the batch size.
   */
  lemma SafeIffGraceful(c: Config)
    requires ValidConfig(c)
    ensures (forall run: seq<World>, pk: string ::
               Run(c, run) && Indexed(c, Last(run), pk) && !Last(run).rows[pk].cut ==>
                 Last(run).history != [] && Reachable(c, Last(run), pk))
            <==> c.waits.attempts && c.waits.caches && c.waits.inFlight
  {
    if Graceful(c) {
      forall run: seq<World>, pk: string | Run(c, run) && Indexed(c, Last(run), pk) && !Last(run).rows[pk].cut
        ensures Last(run).history != [] && Reachable(c, Last(run), pk)
      {
        NothingIsLost(c, run, |run| - 1, pk);
      }
    } else {
      var run := LateWriteIsLost(c);
      assert Run(c, run) && Indexed(c, Last(run), "p");
    }
  }

  lemma LateWriteIsLost(c: Config) returns (run: seq<World>)
    requires ValidConfig(c) && !Graceful(c)
    ensures Run(c, run) && Indexed(c, Last(run), "p") && !Last(run).rows["p"].cut && Last(run).pending == {}
    ensures Last(run).history != [] && !Reachable(c, Last(run), "p")
  {
    hide ControlStep, WriterStep, RowAfter, Run, Next, RedosFor, UndosFor;
    var enc := c.cx.esc("x");
    if !c.waits.inFlight {
      run := SendWrite(c);
      run := SplitEmpty(c, run, enc);
    } else if !c.waits.attempts {
      run := ReadAndLoad(c, FromStart(c));
      run := SplitEmpty(c, run, enc);
      run := CommitFirst(c, run);
    } else {
      run := SplitEmpty(c, FromStart(c), enc);
      run := ReadAndLoad(c, run);
      run := CommitFirst(c, run);
    }
    run := LandLate(c, run, enc);
  }

  /** The insertion aimed at bucket 0 lands when readers visit buckets 1 and 2 only. */
  lemma LandLate(c: Config, run: seq<World>, enc: string) returns (longer: seq<World>)
    requires ValidConfig(c) && Run(c, run) && enc == c.cx.esc("x")
    requires var s, k := Last(run), K(c, enc, 0);
             && s.history != [] && EntryOf(CurrentDoc(s), enc) == EqEntry([1, 2], None) && enc in CurrentDoc(s).eq
             && s.rows == map["p" := Live(RowAfter(c.cx, c.indexes, None, map[c.idx.column := "x"]), false)]
             && s.pending == {ZAdd(k, Plain("p", 1), {k})} && s.store == {} && s.torn == {}
    ensures Run(c, longer) && Indexed(c, Last(longer), "p") && !Last(longer).rows["p"].cut && Last(longer).pending == {}
    ensures Last(longer).history != [] && !Reachable(c, Last(longer), "p")
  {
    hide ControlStep, RowAfter;
    var s, k, m := Last(run), K(c, enc, 0), Plain("p", 1);
    var cmd := ZAdd(k, m, {k});
    var s' := s.(pending := {}, store := {(k, m)});
    assert s.pending - {cmd} == {} && s.store + {(k, m)} == {(k, m)};
    assert Land(c, s, s', cmd);
    longer := Extend(c, run, s');
    RowAfterColumns(c, None, map[c.idx.column := "x"]);
    assert ReadBucketsEq(CurrentDoc(s'), enc) == [1, 2];
  }
}
