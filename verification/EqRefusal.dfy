/**
 * Deletions that are refused for want of room in an asynchronous index's log. The script's reply
 * carries the row's version where the caller looks for the number of rows deleted, so that at
 * version 1 the refusal is taken for a success and the removals are sent although the row lives.
 */
module EqRefusal {
  import opened Wrappers
  import opened BucketMap
  import opened WritePath
  import opened EqProtocol
  import opened EqSafety
  import opened EqWriterSteps
  import opened EqTheorems
  import opened EqLateWrite

  // ----- one refusal --------------------------------------------------------------------------

  /** A removal goes to every bucket that readers of the routing document visit. */
  lemma RemovalsSent(c: Config, pk: string, row: Row, d: Doc, k: Key)
    requires ValidConfig(c) && ValidDoc(Some(d)) && c.idx.column in row.cols
    requires k in ReadKeys(c, d, c.cx.esc(row.cols[c.idx.column]))
    ensures ZRem(k, CurrentMember(c, row, pk)) in Rems(UndosFor(c.cx, c.idx, pk, Some(row), map[], Some(d)))
  {
    var enc, m := c.cx.esc(row.cols[c.idx.column]), CurrentMember(c, row, pk);
    var undos := UndosFor(c.cx, c.idx, pk, Some(row), map[], Some(d));
    var bs := ReadBucketsEq(d, enc);
    var b :| b in bs && k == K(c, enc, b);
    var i :| 0 <= i < |bs| && bs[i] == b;
    assert undos[i] == Undo(k, m);
  }

  /**
   * A refusal is harmless exactly when the row is not at version 1 or has no value for the
   * index: otherwise a removal of the member that readers need is under way.
   */
  lemma RefusalIsHarmlessIff(c: Config, s: World, s': World, id: nat)
    requires ValidConfig(c) && Inv(c, s) && Refuse(c, s, s', id) && !s.rows[s.attempts[id].pk].cut
    ensures var row := s.rows[s.attempts[id].pk].row;
            Inv(c, s'.(rows := s.rows)) <==> row.ver != 1 || c.idx.column !in row.cols
  {
    var a := s.attempts[id];
    var row := s.rows[a.pk].row;
    SeenIsPresent(c, s, id);
    if row.ver == 1 && c.idx.column in row.cols {
      RefusalNamesCurrent(c, s, s', id);
    } else {
      RemsShape(c, a.pk, a.seen, map[], s.history[a.snap.value]);
      hide Inv, UndosFor;
      assert s'.pending == s.pending && s'.(rows := s.rows) == s.(attempts := s.attempts - {id});
      AbandonStep(c, s, s'.(rows := s.rows), id);
    }
  }

  lemma RefusalNamesCurrent(c: Config, s: World, s': World, id: nat)
    requires ValidConfig(c) && Inv(c, s) && Refuse(c, s, s', id) && !s.rows[s.attempts[id].pk].cut
    requires s.rows[s.attempts[id].pk].row.ver == 1 && c.idx.column in s.rows[s.attempts[id].pk].row.cols
    ensures !Inv(c, s'.(rows := s.rows))
  {
    hide NoLoss, Siblings, RowsOK, StoreOK, AimsOK, ControlOK, PageOK, FinalAims, FinalMembers, UndosFor, AttemptsOK;
    var a := s.attempts[id];
    var row, d := s.rows[a.pk].row, s.history[a.snap.value];
    SeenIsPresent(c, s, id);
    var enc, m := c.cx.esc(row.cols[c.idx.column]), CurrentMember(c, row, a.pk);
    var b := EntryReads(EntryOf(d, enc))[0];
    RemovalsSent(c, a.pk, row, d, K(c, enc, b));
    var cmd := ZRem(K(c, enc, b), m);
    assert cmd in s'.pending && IsCurrent(c, s.rows, m);
    assert !CmdOK(c, s.rows, cmd, CurrentDoc(s').next);
  }

  // ----- which rows are cut off -----------------------------------------------------------------

  /** In this step a deletion of the row is refused, and taken for a success. */
  ghost predicate Misread(c: Config, s: World, s': World, pk: string) {
    && LifeOf(s.rows, pk).Live? && s.rows[pk].row.ver == 1
    && exists id <- s.attempts :: s.attempts[id].pk == pk && Refuse(c, s, s', id)
  }

  lemma OnlyMisreadsCut(c: Config, s: World, s': World, pk: string)
    requires Next(c, s, s') && CutOff(s', pk) && !CutOff(s, pk)
    ensures Misread(c, s, s', pk)
  {
    hide RowAfter, UndosFor, RedosFor, Adds, Rems, ControlStep;
    if ControlStep(c, s, s') {
      ControllerLeavesRows(c, s, s');
    } else if id: nat :| Refuse(c, s, s', id) {
      assert s.attempts[id].pk == pk;
    }
  }

  lemma ControllerLeavesRows(c: Config, s: World, s': World)
    requires ControlStep(c, s, s')
    ensures s'.rows == s.rows
  {
    hide AimsMeet, BucketOf, Home;
  }

  /** A row is cut off only by a refused deletion of it that was taken for a success. */
  lemma {:induction false} CutByMisread(c: Config, run: seq<World>, n: nat, pk: string) returns (i: nat)
    requires Run(c, run) && n < |run| && CutOff(run[n], pk)
    ensures i < n && Misread(c, run[i], run[i + 1], pk)
  {
    hide Next, Misread;
    if n > 0 {
      assert Next(c, run[n - 1], run[n - 1 + 1]);
      if CutOff(run[n - 1], pk) {
        i := CutByMisread(c, run, n - 1, pk);
      } else {
        OnlyMisreadsCut(c, run[n - 1], run[n], pk);
        i := n - 1;
      }
    }
  }

  /** Without an asynchronous index no deletion is refused, so no row is cut off. */
  lemma NoneCut(c: Config, run: seq<World>, n: nat, pk: string)
    requires Run(c, run) && n < |run| && SyncOnly(c.indexes)
    ensures !CutOff(run[n], pk)
  {
    hide Init, Next;
    if CutOff(run[n], pk) {
      var i := CutByMisread(c, run, n, pk);
      assert false;
    }
  }

  // ----- the loss -------------------------------------------------------------------------------

  function Places(cmds: set<Cmd>): set<(Key, Member)> { set cmd <- cmds :: (cmd.key, cmd.member) }

  lemma LandOne(c: Config, run: seq<World>, cmd: Cmd) returns (longer: seq<World>)
    requires Run(c, run) && cmd in Last(run).pending
    ensures Run(c, longer) && run <= longer
    ensures var s, e := Last(run), (cmd.key, cmd.member);
            Last(longer) == s.(
                pending := s.pending - {cmd}, store := if cmd.ZAdd? then s.store + {e} else s.store - {e})
  {
    hide ControlStep, Init;
    var s, e := Last(run), (cmd.key, cmd.member);
    var s' := s.(pending := s.pending - {cmd}, store := if cmd.ZAdd? then s.store + {e} else s.store - {e});
    assert Land(c, s, s', cmd);
    longer := Extend(c, run, s');
  }

  /** Commands in flight that are all of one kind land one after the other. */
  lemma {:induction false} LandAll(c: Config, run: seq<World>, cmds: set<Cmd>, adds: bool) returns (longer: seq<World>)
    requires Run(c, run) && cmds <= Last(run).pending && forall cmd <- cmds :: cmd.ZAdd? == adds
    ensures Run(c, longer) && run <= longer
    ensures var s := Last(run);
            Last(longer) == s.(
                pending := s.pending - cmds,
                store := if adds then s.store + Places(cmds) else s.store - Places(cmds))
    decreases |cmds|
  {
    hide Next, Init;
    var s := Last(run);
    if cmds == {} {
      longer := run;
    } else {
      var cmd :| cmd in cmds;
      var rest := cmds - {cmd};
      longer := LandOne(c, run, cmd);
      longer := LandAll(c, longer, rest, adds);
      assert Places(cmds) == Places(rest) + {(cmd.key, cmd.member)};
      assert s.pending - {cmd} - rest == s.pending - cmds;
    }
  }

  /**
   * From any state of any run: when a deletion of a row at version 1 is refused that was routed
   * by the stored document, the commands in flight may land so that the row is unreachable.
   */
  lemma MisreadMayLose(c: Config, run: seq<World>, s': World, id: nat) returns (longer: seq<World>)
    requires ValidConfig(c) && Graceful(c) && Run(c, run) && Refuse(c, Last(run), s', id)
    requires var s := Last(run); var pk := s.attempts[id].pk;
             s.attempts[id].snap == Some(|s.history| - 1) && Indexed(c, s, pk) && s.rows[pk].row.ver == 1
    ensures Run(c, longer) && run <= longer
    ensures var s, pk := Last(run), Last(run).attempts[id].pk;
            && Last(longer).pending == {} && Last(longer).torn == s.torn && Last(longer).history == s.history
            && Indexed(c, Last(longer), pk) && Last(longer).rows[pk].row == s.rows[pk].row
            && !Reachable(c, Last(longer), pk)
  {
    hide Next, Init, UndosFor, Inv;
    var s := Last(run);
    var a := s.attempts[id];
    var row, d := s.rows[a.pk].row, CurrentDoc(s);
    RunKeepsInv(c, run, |run| - 1);
    SeenOf(c, s, id);
    RefuseIsAStep(c, s, s', id);
    longer := Extend(c, run, s');
    longer := LandAll(c, longer, set cmd <- s'.pending | cmd.ZAdd?, true);
    var mid := Last(longer);
    longer := LandAll(c, longer, mid.pending, false);
    var end := Last(longer);
    var enc, m := c.cx.esc(row.cols[c.idx.column]), CurrentMember(c, row, a.pk);
    forall b | b in ReadBucketsEq(d, enc) ensures (K(c, enc, b), m) !in end.store {
      RemovalsSent(c, a.pk, row, d, K(c, enc, b));
      assert ZRem(K(c, enc, b), m) in mid.pending;
    }
  }

  lemma SeenOf(c: Config, s: World, id: nat)
    requires Inv(c, s) && id in s.attempts && LifeOf(s.rows, s.attempts[id].pk).Live?
    requires OldVer(RowOf(LifeOf(s.rows, s.attempts[id].pk))) == OldVer(s.attempts[id].seen)
    ensures s.attempts[id].seen == Some(s.rows[s.attempts[id].pk].row)
  {
    SeenIsPresent(c, s, id);
  }

  lemma RefuseIsAStep(c: Config, s: World, s': World, id: nat)
    requires Refuse(c, s, s', id)
    ensures Next(c, s, s')
  {
    hide ControlStep;
  }

  /** With an asynchronous index in the table, one insertion and one refused deletion lose a row. */
  lemma RefusalLoses(c: Config) returns (run: seq<World>)
    requires ValidConfig(c) && Graceful(c) && !SyncOnly(c.indexes)
    ensures Run(c, run) && Indexed(c, Last(run), "p") && Last(run).pending == {} && Last(run).torn == {}
    ensures Last(run).history == [DefaultDoc()] && !Reachable(c, Last(run), "p")
  {
    hide Next, Init, RowAfter, RedosFor, UndosFor, Refuse, Reachable;
    var log :| log in c.indexes && log.async;
    var after := map[c.idx.column := "x", log.column := "x"];
    run := InsertBoth(c, after);
    var s := Last(run);
    var s1 := s.(attempts := map[0 := Attempt("p", Some(s.rows["p"].row), None)]);
    assert s.attempts[0 := Attempt("p", Some(s.rows["p"].row), None)] == s1.attempts;
    ReadIsAStep(c, s, s1);
    run := Extend(c, run, s1);
    var s2 := s1.(attempts := map[0 := Attempt("p", Some(s.rows["p"].row), Some(0))]);
    LoadIsAStep(c, s1, s2);
    run := Extend(c, run, s2);
    assert Logged(c.indexes, s.rows["p"].row);
    var s3 := Refused(c, s2);
    run := MisreadMayLose(c, run, s3, 0);
  }

  lemma ReadIsAStep(c: Config, s: World, s': World)
    requires ReadRow(c, s, s', 0, "p")
    ensures Next(c, s, s')
  {
    hide ControlStep;
  }

  lemma LoadIsAStep(c: Config, s: World, s': World)
    requires LoadDoc(c, s, s', 0, 0)
    ensures Next(c, s, s')
  {
    hide ControlStep;
  }

  /** Row "p" has been inserted under the default document, with these columns. */
  lemma InsertBoth(c: Config, after: map<string, string>) returns (run: seq<World>)
    requires ValidConfig(c) && c.idx.column in after
    ensures Run(c, run)
    ensures var s := Last(run);
            && s.history == [DefaultDoc()] && s.attempts == map[] && s.torn == {} && s.floor == 0
            && LifeOf(s.rows, "p") == Live(RowAfter(c.cx, c.indexes, None, after), false)
            && s.rows["p"].row.cols == after && s.rows["p"].row.ver == 1
  {
    hide ControlStep, Init, RowAfter, UndosFor, RedosFor, Adds, Rems;
    run := ReadAndLoad(c, FromStart(c));
    var s := Last(run);
    var d := Some(s.history[0]);
    var s' := s.(
      rows := map["p" := Live(RowAfter(c.cx, c.indexes, None, after), false)],
      pending := Rems(UndosFor(c.cx, c.idx, "p", None, after, d)) + Adds(RedosFor(c.cx, c.idx, "p", None, after, d)),
      attempts := map[]);
    RowAfterColumns(c, None, after);
    assert s.attempts - {0} == map[] && s.torn - {"p"} == {};
    assert Commit(c, s, s', 0, after);
    run := Extend(c, run, s');
  }

  /** A deletion of row "p" at version 1 is refused. */
  lemma Refused(c: Config, s: World) returns (s': World)
    requires LifeOf(s.rows, "p").Live? && s.rows["p"].row.ver == 1 && Logged(c.indexes, s.rows["p"].row)
    requires s.attempts == map[0 := Attempt("p", Some(s.rows["p"].row), Some(0))] && s.history == [DefaultDoc()]
    ensures Refuse(c, s, s', 0)
  {
    hide UndosFor, Rems;
    var a := s.attempts[0];
    s' := s.(
      rows := s.rows["p" := s.rows["p"].(cut := true)],
      pending := s.pending + Rems(UndosFor(c.cx, c.idx, a.pk, a.seen, map[], Some(s.history[0]))),
      attempts := s.attempts - {0});
  }

  /**
   * No row is lost in any run exactly when the grace period is long enough and the table has no
   * asynchronous index, whose log could be full.
   */
  lemma SafeIff(c: Config)
    requires ValidConfig(c)
    ensures (forall run: seq<World>, pk: string ::
               Run(c, run) && Indexed(c, Last(run), pk) ==> Last(run).history != [] && Reachable(c, Last(run), pk))
            <==> Graceful(c) && SyncOnly(c.indexes)
  {
    hide Next, Init, Indexed, Reachable;
    if Graceful(c) && SyncOnly(c.indexes) {
      forall run: seq<World>, pk: string | Run(c, run) && Indexed(c, Last(run), pk)
        ensures Last(run).history != [] && Reachable(c, Last(run), pk)
      {
        IndexedLives(c, Last(run), pk);
        NoneCut(c, run, |run| - 1, pk);
        NothingIsLost(c, run, |run| - 1, pk);
      }
    } else if !Graceful(c) {
      var run := LateWriteIsLost(c);
      assert Run(c, run) && Indexed(c, Last(run), "p");
    } else {
      var run := RefusalLoses(c);
      assert Run(c, run) && Indexed(c, Last(run), "p");
    }
  }

  lemma IndexedLives(c: Config, s: World, pk: string)
    requires Indexed(c, s, pk)
    ensures LifeOf(s.rows, pk).Live?
  {
  }

  /** The same for one run: what was not misread is not lost. */
  lemma UnlessMisread(c: Config, run: seq<World>, n: nat, pk: string)
    requires ValidConfig(c) && Graceful(c) && Run(c, run) && n < |run| && Indexed(c, run[n], pk)
    requires forall i :: 0 <= i < n ==> !Misread(c, run[i], run[i + 1], pk)
    ensures run[n].history != [] && Reachable(c, run[n], pk)
  {
    hide Next, Init, Misread;
    if CutOff(run[n], pk) {
      var i := CutByMisread(c, run, n, pk);
    }
    NothingIsLost(c, run, n, pk);
  }
}
