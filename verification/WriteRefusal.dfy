/**
 * The refused deletion of `EqRefusal` for all synchronous indexes of a table at once: when it is
 * harmless, that it alone cuts rows off, and exactly which tables are safe from it.
 */
module WriteRefusal {
  import opened Wrappers
  import opened BucketMap
  import opened WritePath
  import opened TableShape
  import P = EqProtocol
  import opened WriteRace

  // ----- one refusal --------------------------------------------------------------------------

  /** Whatever a row calls for is named by the removals of its deletion. */
  lemma DeletionTakesAll(c: Config, pk: string, row: Row, k: Key, m: Member)
    requires ValidConfig(c) && RowOK(c.cx, c.indexes, row) && CallsFor(c.cx, c.indexes, c.docs, pk, row, k, m)
    ensures Take(k, m) in Takes(AllUndos(c.cx, c.indexes, pk, Some(row), map[], c.docs))
  {
    var idx :| idx in c.indexes && CallsIn(c.cx, idx, c.docs, pk, row, k, m);
    var d := DocOf(c.docs, idx.id);
    hide TableOK, AllUndos, UndosFor, CallsIn, ReceiptsFor, RowOK;
    CalledIsOwn(c.cx, c.indexes, idx, c.docs, pk, row, k, m);
    ListedHasValue(c.cx, idx, pk, IvOf(Some(row), idx.id), row.cols, d, Undo(k, m));
    UndosAreListed(c.cx, idx, pk, Some(row), map[], d);
    UndoHas(c.cx, c.indexes, pk, Some(row), map[], c.docs, Undo(k, m));
    assert Undo(k, m) in AllUndos(c.cx, c.indexes, pk, Some(row), map[], c.docs);
  }

  /** A deletion that goes through sends a removal of all of it. */
  lemma DeleteTakesAll(c: Config, s: World, s': World, id: nat, k: Key, m: Member)
    requires ValidConfig(c) && Inv(c, s) && Delete(c, s, s', id)
    requires CallsFor(c.cx, c.indexes, c.docs, s.attempts[id].pk, s.rows[s.attempts[id].pk].row, k, m)
    ensures Take(k, m) in s'.pending
  {
    SeenIsStored(c, s, s.attempts[id]);
    hide AllUndos, CallsFor, TableOK, RowOK;
    DeletionTakesAll(c, s.attempts[id].pk, s.rows[s.attempts[id].pk].row, k, m);
  }

  /** A write sends a removal of whatever the row called for and no longer does. */
  lemma CommitTakesOld(c: Config, s: World, s': World, id: nat, after: map<string, string>, k: Key, m: Member)
    requires ValidConfig(c) && Inv(c, s) && Commit(c, s, s', id, after)
    requires P.LifeOf(s.rows, s.attempts[id].pk).Live?
    requires CallsFor(c.cx, c.indexes, c.docs, s.attempts[id].pk, s.rows[s.attempts[id].pk].row, k, m)
    requires !CallsFor(c.cx, c.indexes, c.docs, s.attempts[id].pk, s'.rows[s.attempts[id].pk].row, k, m)
    ensures Take(k, m) in s'.pending
  {
    var a := s.attempts[id];
    var row := s.rows[a.pk].row;
    SeenIsStored(c, s, a);
    hide AllUndos, AllRedos, TableOK, RowOK, RowAfter, CallsIn, UndosFor, RedosFor;
    TableParts(c.cx, c.indexes, c.docs);
    var idx :| idx in c.indexes && CallsIn(c.cx, idx, c.docs, a.pk, row, k, m);
    UpdateInOne(c.cx, c.indexes, idx, c.docs, a.pk, row, after, k, m);
    UndoHas(c.cx, c.indexes, a.pk, Some(row), after, c.docs, Undo(k, m));
    assert Undo(k, m) in AllUndos(c.cx, c.indexes, a.pk, Some(row), after, c.docs);
  }

  /** The row has a member in some synchronous index. */
  ghost predicate HasMembers(c: Config, pk: string, row: Row)
    requires ValidConfig(c)
  {
    exists k: Key, m: Member :: CallsFor(c.cx, c.indexes, c.docs, pk, row, k, m)
  }

  /** A row whose deletion has removals to send calls for some member. */
  lemma NoMembersNoTakes(c: Config, pk: string, row: Row)
    requires ValidConfig(c) && !HasMembers(c, pk, row)
    ensures AllUndos(c.cx, c.indexes, pk, Some(row), map[], c.docs) == []
  {
    hide TableOK, AllUndos, UndosFor, CallsFor, HasMembers;
    var undos := AllUndos(c.cx, c.indexes, pk, Some(row), map[], c.docs);
    if undos != [] {
      UndoHas(c.cx, c.indexes, pk, Some(row), map[], c.docs, undos[0]);
      var idx :| idx in c.indexes && undos[0] in UndosFor(c.cx, idx, pk, Some(row), map[], DocOf(c.docs, idx.id));
      UndoneIsValued(c, idx, pk, row, undos[0]);
      var k, m := CalledOf(c, idx, pk, row);
      Witnessed(c, pk, row, k, m);
    }
  }

  lemma Witnessed(c: Config, pk: string, row: Row, k: Key, m: Member)
    requires ValidConfig(c) && CallsFor(c.cx, c.indexes, c.docs, pk, row, k, m)
    ensures HasMembers(c, pk, row)
  {
  }

  lemma UndoneIsValued(c: Config, idx: IndexDef, pk: string, row: Row, u: Undo)
    requires ValidConfig(c) && u in UndosFor(c.cx, idx, pk, Some(row), map[], DocOf(c.docs, idx.id))
    ensures Valued(c.cx, idx, row.cols)
  {
  }

  lemma CalledOf(c: Config, idx: IndexDef, pk: string, row: Row) returns (k: Key, m: Member)
    requires ValidConfig(c) && idx in c.indexes && Valued(c.cx, idx, row.cols)
    ensures CallsFor(c.cx, c.indexes, c.docs, pk, row, k, m)
  {
    m := Plain(pk, IvOf(Some(row), idx.id));
    if idx.kind.Range? {
      k := RangeCalled(c, idx, pk, row);
    } else {
      k := EqCalled(c, idx, pk, row);
    }
  }

  /** A refusal is harmless exactly when the row is not at version 1 or has no member anywhere. */
  lemma RefusalIsHarmlessIff(c: Config, s: World, s': World, id: nat)
    requires ValidConfig(c) && Inv(c, s) && Refuse(c, s, s', id) && !s.rows[s.attempts[id].pk].cut
    ensures var pk := s.attempts[id].pk;
            Inv(c, s'.(rows := s.rows)) <==> s.rows[pk].row.ver != 1 || !HasMembers(c, pk, s.rows[pk].row)
  {
    var a := s.attempts[id];
    var row := s.rows[a.pk].row;
    SeenIsStored(c, s, a);
    hide TableOK, AllUndos, CallsFor, RowOK, Older;
    if row.ver == 1 && HasMembers(c, a.pk, row) {
      var k, m :| CallsFor(c.cx, c.indexes, c.docs, a.pk, row, k, m);
      DeletionTakesAll(c, a.pk, row, k, m);
      CalledIsNotOlder(c, a.pk, row, k, m);
      assert Take(k, m) in s'.pending && !TakeOK(c, s.rows, k, m);
    } else {
      if row.ver == 1 {
        NoMembersNoTakes(c, a.pk, row);
      }
      hide Inv;
      assert s'.pending == s.pending && s'.(rows := s.rows) == s.(attempts := s.attempts - {id});
      AttemptStepsKeep(c, s, s'.(rows := s.rows), id, "");
    }
  }

  lemma CalledIsNotOlder(c: Config, pk: string, row: Row, k: Key, m: Member)
    requires ValidConfig(c) && CallsFor(c.cx, c.indexes, c.docs, pk, row, k, m)
    ensures m.pk == pk && !Older(c, row, k, m)
  {
    CalledIsStamped(c, pk, row, k, m);
  }

  // ----- which rows are cut off -----------------------------------------------------------------

  predicate CutOff(s: World, pk: string) { P.LifeOf(s.rows, pk).Live? && s.rows[pk].cut }

  /** In this step a deletion of the row is refused, and taken for a success. */
  ghost predicate Misread(c: Config, s: World, s': World, pk: string) {
    && P.LifeOf(s.rows, pk).Live? && s.rows[pk].row.ver == 1
    && exists id <- s.attempts :: s.attempts[id].pk == pk && Refuse(c, s, s', id)
  }

  lemma OnlyMisreadsCut(c: Config, s: World, s': World, pk: string)
    requires Next(c, s, s') && CutOff(s', pk) && !CutOff(s, pk)
    ensures Misread(c, s, s', pk)
  {
    hide RowAfter, AllUndos, AllRedos, CallsFor;
    if id: nat :| Refuse(c, s, s', id) {
      assert s.attempts[id].pk == pk;
    }
  }

  /** A row is cut off only by a refused deletion of it that was taken for a success. */
  lemma {:induction false} CutByMisread(c: Config, run: seq<World>, n: nat, pk: string) returns (i: nat)
    requires Run(c, run) && n < |run| && CutOff(run[n], pk)
    ensures i < n && Misread(c, run[i], run[i + 1], pk)
  {
    hide Next, Misread;
    if n > 0 {
      assert Next(c, run[n - 1], run[n - 1 + 1]);
      if CutOff(run[n - 1], pk) {
        i := CutByMisread(c, run, n - 1, pk);
      } else {
        OnlyMisreadsCut(c, run[n - 1], run[n], pk);
        i := n - 1;
      }
    }
  }

  // ----- the loss -------------------------------------------------------------------------------

  function Last(run: seq<World>): World
    requires run != []
  {
    run[|run| - 1]
  }

  lemma Extend(c: Config, run: seq<World>, s: World) returns (longer: seq<World>)
    requires Run(c, run) && Next(c, Last(run), s)
    ensures Run(c, longer) && Last(longer) == s
  {
    hide Next, Init;
    longer := run + [s];
    forall i | 0 <= i < |longer| - 1 ensures Next(c, longer[i], longer[i + 1]) {
      assert i < |run| - 1 ==> Next(c, run[i], run[i + 1]);
    }
  }

  /** A member of a living row that is neither in place nor on its way, though nothing was lost on the way. */
  ghost predicate Missing(c: Config, s: World, pk: string, k: Key, m: Member)
    requires ValidConfig(c)
  {
    && P.LifeOf(s.rows, pk).Live? && pk !in s.torn
    && CallsFor(c.cx, c.indexes, c.docs, pk, s.rows[pk].row, k, m) && !Kept(s, k, m)
  }

  /** A log may be full while a row has members in other indexes. */
  ghost predicate Mixed(c: Config) {
    && !P.SyncOnly(c.indexes)
    && exists idx <- c.indexes, v: string :: Valued(c.cx, idx, map[idx.column := v])
  }

  /** The insertion of one row, and one of its members in place. */
  lemma InsertAndLand(c: Config, after: map<string, string>, k: Key, m: Member) returns (run: seq<World>)
    requires ValidConfig(c)
    requires CallsFor(c.cx, c.indexes, c.docs, "p", RowAfter(c.cx, c.indexes, None, after), k, m)
    ensures Run(c, run)
    ensures var s := Last(run);
            && s.rows == map["p" := P.Live(RowAfter(c.cx, c.indexes, None, after), false)]
            && s.attempts == map[] && s.torn == {} && Put(k, m) !in s.pending
  {
    hide RowAfter, AllUndos, AllRedos, CallsFor, TableOK;
    var s0 := World(map[], {}, {}, map[], {});
    run := [s0];
    var s1 := s0.(attempts := map[0 := Attempt("p", None)]);
    assert Read(c, s0, s1, 0, "p");
    run := Extend(c, run, s1);
    TableParts(c.cx, c.indexes, c.docs);
    var s2 := s1.(
      rows := map["p" := P.Live(RowAfter(c.cx, c.indexes, None, after), false)],
      pending := Takes(AllUndos(c.cx, c.indexes, "p", None, after, c.docs)) +
          Puts(AllRedos(c.cx, c.indexes, "p", None, after, c.docs)),
      attempts := map[]);
    assert s1.attempts - {0} == map[];
    assert Commit(c, s1, s2, 0, after);
    run := Extend(c, run, s2);
    CalledBefore(c, "p", None, after, k, m);
    var s3 := s2.(pending := s2.pending - {Put(k, m)}, store := {(k, m)});
    assert Land(c, s2, s3, Put(k, m));
    run := Extend(c, run, s3);
  }

  /** In such a table one insertion and one refused deletion take a member from a row that lives. */
  lemma RefusalLoses(c: Config) returns (run: seq<World>, k: Key, m: Member)
    requires ValidConfig(c) && Mixed(c)
    ensures Run(c, run) && Missing(c, Last(run), "p", k, m)
  {
    hide RowAfter, AllUndos, CallsFor, TableOK, Next;
    var log :| log in c.indexes && log.async;
    var idx, v: string :| idx in c.indexes && Valued(c.cx, idx, map[idx.column := v]);
    var after := map[log.column := v][idx.column := v];
    var row := RowAfter(c.cx, c.indexes, None, after);
    RowStaysOK(c.cx, c.indexes, None, after);
    FirstRow(c, after);
    k, m := CalledOf(c, idx, "p", row);
    run := InsertAndLand(c, after, k, m);
    var s := Last(run);
    var s1 := s.(attempts := map[0 := Attempt("p", Some(row))]);
    ReadIsAStep(c, s, s1);
    run := Extend(c, run, s1);
    var takes := Takes(AllUndos(c.cx, c.indexes, "p", Some(row), map[], c.docs));
    var s2 := s1.(rows := map["p" := P.Live(row, true)], pending := s1.pending + takes, attempts := map[]);
    RefuseIsAStep(c, s1, s2, row);
    run := Extend(c, run, s2);
    DeletionTakesAll(c, "p", row, k, m);
    var s3 := s2.(pending := s2.pending - {Take(k, m)}, store := s2.store - {(k, m)});
    LandIsAStep(c, s2, s3, Take(k, m));
    run := Extend(c, run, s3);
  }

  lemma FirstRow(c: Config, after: map<string, string>)
    ensures RowAfter(c.cx, c.indexes, None, after).cols == after && RowAfter(c.cx, c.indexes, None, after).ver == 1
  {
  }

  lemma ReadIsAStep(c: Config, s: World, s': World)
    requires P.LifeOf(s.rows, "p").Live? && s.attempts == map[]
    requires s' == s.(attempts := map[0 := Attempt("p", Some(s.rows["p"].row))])
    ensures Next(c, s, s')
  {
    assert Read(c, s, s', 0, "p");
  }

  lemma RefuseIsAStep(c: Config, s: World, s': World, row: Row)
    requires ValidConfig(c) && s.rows == map["p" := P.Live(row, false)] && row.ver == 1 && P.Logged(c.indexes, row)
    requires s.attempts == map[0 := Attempt("p", Some(row))]
    requires var takes := Takes(AllUndos(c.cx, c.indexes, "p", Some(row), map[], c.docs));
             s' == s.(rows := map["p" := P.Live(row, true)], pending := s.pending + takes, attempts := map[])
    ensures Next(c, s, s')
  {
    hide AllUndos, TableOK;
    TableParts(c.cx, c.indexes, c.docs);
    assert s.attempts - {0} == map[];
    assert Refuse(c, s, s', 0);
  }

  lemma LandIsAStep(c: Config, s: World, s': World, cmd: Cmd)
    requires cmd in s.pending && cmd.Take?
    requires s' == s.(pending := s.pending - {cmd}, store := s.store - {(cmd.key, cmd.member)})
    ensures Next(c, s, s')
  {
    assert Land(c, s, s', cmd);
  }

  /** In a table that is not mixed no row with members is cut off. */
  lemma NotCut(c: Config, run: seq<World>, n: nat, pk: string, k: Key, m: Member)
    requires ValidConfig(c) && !Mixed(c) && Run(c, run) && n < |run| && P.LifeOf(run[n].rows, pk).Live?
    requires CallsFor(c.cx, c.indexes, c.docs, pk, run[n].rows[pk].row, k, m)
    ensures !CutOff(run[n], pk)
  {
    hide Next, Init, CallsFor, TableOK, Mixed, Valued;
    var cols := run[n].rows[pk].row.cols;
    CalledIsStamped(c, pk, run[n].rows[pk].row, k, m);
    var idx :| idx in c.indexes && Valued(c.cx, idx, cols);
    if CutOff(run[n], pk) {
      var i := CutByMisread(c, run, n, pk);
      MixedBy(c, idx, cols);
    }
  }

  lemma MixedBy(c: Config, idx: IndexDef, cols: map<string, string>)
    requires idx in c.indexes && Valued(c.cx, idx, cols) && !P.SyncOnly(c.indexes)
    ensures Mixed(c)
  {
    assert Valued(c.cx, idx, map[idx.column := cols[idx.column]]);
  }

  /**
   * No member of a living row goes missing in any run exactly when the table has no asynchronous
   * index, whose log could be full, or no synchronous one that can hold a value.
   */
  lemma SafeIff(c: Config)
    requires ValidConfig(c)
    ensures (forall run: seq<World>, pk: string, k: Key, m: Member ::
               Run(c, run) ==> !Missing(c, Last(run), pk, k, m))
            <==> !Mixed(c)
  {
    hide Next, Init, CallsFor, TableOK;
    if Mixed(c) {
      var run, k, m := RefusalLoses(c);
      assert Run(c, run) && Missing(c, Last(run), "p", k, m);
    } else {
      forall run: seq<World>, pk: string, k: Key, m: Member | Run(c, run) ensures !Missing(c, Last(run), pk, k, m) {
        var s := Last(run);
        RunKeepsInv(c, run, |run| - 1);
        if P.LifeOf(s.rows, pk).Live? && pk !in s.torn && CallsFor(c.cx, c.indexes, c.docs, pk, s.rows[pk].row, k, m) {
          NotCut(c, run, |run| - 1, pk, k, m);
          assert Needed(c, s, pk, k, m);
        }
      }
    }
  }
}
