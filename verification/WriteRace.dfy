/**
 * Any number of writers on the same rows, all synchronous indexes of the table at once,
 * equality, unique and range ones and their prefix copies, while no bucket moves. Scripts are
 * atomic and ordered by the version check; the index commands of the second stage land in any
 * order, long after later writes have committed, or never.
 */
module WriteRace {
  import opened Wrappers
  import opened BucketMap
  import opened WritePath
  import opened TableShape
  import P = EqProtocol

  datatype Config = Config(cx: Codec, indexes: seq<IndexDef>, docs: map<string, Doc>)

  ghost predicate ValidConfig(c: Config) { ValidDocs(c.docs) && TableOK(c.cx, c.indexes, c.docs) }

  datatype Cmd = Put(key: Key, member: Member) | Take(key: Key, member: Member)

  /** A write between its read and its script. */
  datatype Attempt = Attempt(pk: string, seen: Option<Row>)

  datatype World = World(
    rows: map<string, P.Life>,
    store: set<(Key, Member)>,
    pending: set<Cmd>,
    attempts: map<nat, Attempt>,
    torn: set<string>)       // rows that an insertion they call for never reached

  function Puts(redos: seq<Redo>): set<Cmd> { set r <- redos :: Put(r.key, r.member) }

  function Takes(undos: seq<Undo>): set<Cmd> { set u <- undos :: Take(u.key, u.member) }

  // ----- steps --------------------------------------------------------------------------------

  ghost predicate Read(c: Config, s: World, s': World, id: nat, pk: string) {
    && id !in s.attempts && !P.LifeOf(s.rows, pk).Dead?
    && s' == s.(attempts := s.attempts[id := Attempt(pk, P.RowOf(P.LifeOf(s.rows, pk)))])
  }

  /** The script commits if the row has the version observed; two lists of commands follow. */
  ghost predicate Commit(c: Config, s: World, s': World, id: nat, after: map<string, string>) {
    && ValidDocs(c.docs) && id in s.attempts
    && var a := s.attempts[id];
    && var life := P.LifeOf(s.rows, a.pk);
    && !life.Dead? && OldVer(P.RowOf(life)) == OldVer(a.seen)
    && s' == s.(
         rows := s.rows[a.pk := P.Live(RowAfter(c.cx, c.indexes, a.seen, after), life.Live? && life.cut)],
         pending := s.pending + Takes(AllUndos(c.cx, c.indexes, a.pk, a.seen, after, c.docs)) +
             Puts(AllRedos(c.cx, c.indexes, a.pk, a.seen, after, c.docs)),
         attempts := s.attempts - {id})
  }

  ghost predicate Delete(c: Config, s: World, s': World, id: nat) {
    && id in s.attempts
    && var a := s.attempts[id];
    && var life := P.LifeOf(s.rows, a.pk);
    && life.Live? && OldVer(P.RowOf(life)) == OldVer(a.seen)
    && s' == s.(
         rows := s.rows[a.pk := P.Dead],
         pending := s.pending + Takes(AllUndos(c.cx, c.indexes, a.pk, a.seen, map[], c.docs)),
         attempts := s.attempts - {id})
  }

  /**
   * A log of the row's is full, so the script refuses the deletion; its reply names the version,
   * which the caller takes for a deleted row if it is 1. The row is cut off from then on from
   * the members of that version.
   */
  ghost predicate Refuse(c: Config, s: World, s': World, id: nat) {
    && ValidDocs(c.docs) && id in s.attempts
    && var a := s.attempts[id];
    && var life := P.LifeOf(s.rows, a.pk);
    && life.Live? && OldVer(P.RowOf(life)) == OldVer(a.seen) && P.Logged(c.indexes, life.row)
    && s' == s.(
         rows := s.rows[a.pk := life.(cut := life.cut || life.row.ver == 1)],
         pending := s.pending +
             if life.row.ver != 1 then {} else Takes(AllUndos(c.cx, c.indexes, a.pk, a.seen, map[], c.docs)),
         attempts := s.attempts - {id})
  }

  /** A stale reply, an error, a write refused for log space, or a writer that stops. */
  ghost predicate Abandon(c: Config, s: World, s': World, id: nat) {
    id in s.attempts && s' == s.(attempts := s.attempts - {id})
  }

  ghost predicate Expire(c: Config, s: World, s': World, pk: string) {
    P.LifeOf(s.rows, pk).Live? && s' == s.(rows := s.rows[pk := P.Dead])
  }

  ghost predicate Land(c: Config, s: World, s': World, cmd: Cmd) {
    && cmd in s.pending
    && s' == s.(
         pending := s.pending - {cmd},
         store := if cmd.Put? then s.store + {(cmd.key, cmd.member)} else s.store - {(cmd.key, cmd.member)})
  }

  /** A command that never takes effect; the row is torn if it calls for the member. */
  ghost predicate Lose(c: Config, s: World, s': World, cmd: Cmd) {
    && ValidDocs(c.docs) && cmd in s.pending
    && var pk := cmd.member.pk;
    && var needed := P.LifeOf(s.rows, pk).Live?
                     && CallsFor(c.cx, c.indexes, c.docs, pk, s.rows[pk].row, cmd.key, cmd.member);
    && s' == s.(pending := s.pending - {cmd}, torn := if cmd.Put? && needed then s.torn + {pk} else s.torn)
  }

  /** The sweeper removes members of rows that are gone. */
  ghost predicate Sweep(c: Config, s: World, s': World, e: (Key, Member)) {
    P.LifeOf(s.rows, e.1.pk).Dead? && s' == s.(store := s.store - {e})
  }

  ghost predicate Init(s: World) { s == World(map[], {}, {}, map[], {}) }

  ghost predicate Next(c: Config, s: World, s': World) {
    || (exists id: nat, pk: string :: Read(c, s, s', id, pk))
    || (exists id: nat, after: map<string, string> :: Commit(c, s, s', id, after))
    || (exists id: nat :: Delete(c, s, s', id))
    || (exists id: nat :: Refuse(c, s, s', id))
    || (exists id: nat :: Abandon(c, s, s', id))
    || (exists pk: string :: Expire(c, s, s', pk))
    || (exists cmd: Cmd :: Land(c, s, s', cmd))
    || (exists cmd: Cmd :: Lose(c, s, s', cmd))
    || (exists e: (Key, Member) :: Sweep(c, s, s', e))
  }

  ghost predicate Run(c: Config, run: seq<World>) {
    && run != [] && Init(run[0])
    && forall i :: 0 <= i < |run| - 1 ==> Next(c, run[i], run[i + 1])
  }

  // ----- the invariant ------------------------------------------------------------------------

  /** The index has a member for a row with these columns. */
  predicate Valued(cx: Codec, idx: IndexDef, cols: map<string, string>) {
    !idx.async && idx.column in cols && (idx.kind.Range? ==> cx.parse(cols[idx.column]).Some?)
  }

  predicate Kept(s: World, k: Key, m: Member) { (k, m) in s.store || Put(k, m) in s.pending }

  ghost predicate RowsOK(c: Config, rows: map<string, P.Life>) {
    forall pk <- rows :: rows[pk].Live? ==> RowOK(c.cx, c.indexes, rows[pk].row)
  }

  ghost predicate AttemptOK(rows: map<string, P.Life>, a: Attempt) {
    var life := P.LifeOf(rows, a.pk);
    && (life.Absent? ==> a.seen.None?)
    && (a.seen.Some? ==> a.seen.value.ver > 0)
    && (life.Live? && a.seen.Some? ==>
          a.seen.value.ver <= life.row.ver && (a.seen.value.ver == life.row.ver ==> a.seen.value == life.row))
  }

  ghost predicate AttemptsOK(rows: map<string, P.Life>, attempts: map<nat, Attempt>) {
    forall id <- attempts :: AttemptOK(rows, attempts[id])
  }

  /** A removal in flight is older than the member its index now has for the row. */
  ghost predicate Older(c: Config, row: Row, k: Key, m: Member) {
    && m.ver <= row.ver
    && forall idx <- c.indexes :: idx.id == k.id && Valued(c.cx, idx, row.cols) ==> m.ver < IvOf(Some(row), idx.id)
  }

  /** A row that was cut off at version 1 has lost what is stamped with that version. */
  predicate Cut(life: P.Life, m: Member) { life.Live? && life.cut && m.ver <= 1 }

  ghost predicate TakeOK(c: Config, rows: map<string, P.Life>, k: Key, m: Member) {
    var life := P.LifeOf(rows, m.pk);
    !life.Absent? && (life.Live? ==> Cut(life, m) || Older(c, life.row, k, m))
  }

  ghost predicate TakesOK(c: Config, rows: map<string, P.Life>, pending: set<Cmd>) {
    forall cmd <- pending :: cmd.Take? ==> TakeOK(c, rows, cmd.key, cmd.member)
  }

  /** A living row calls for the member. */
  ghost predicate Needed(c: Config, s: World, pk: string, k: Key, m: Member)
    requires ValidConfig(c)
  {
    && P.LifeOf(s.rows, pk).Live? && pk !in s.torn && !Cut(s.rows[pk], m)
    && CallsFor(c.cx, c.indexes, c.docs, pk, s.rows[pk].row, k, m)
  }

  /** Every member that is needed is in place or on its way. */
  ghost predicate NoLoss(c: Config, s: World)
    requires ValidConfig(c)
  {
    forall pk: string, k: Key, m: Member :: Needed(c, s, pk, k, m) ==> Kept(s, k, m)
  }

  ghost predicate Inv(c: Config, s: World)
    requires ValidConfig(c)
  {
    RowsOK(c, s.rows) && AttemptsOK(s.rows, s.attempts) && TakesOK(c, s.rows, s.pending) && NoLoss(c, s)
  }

  // ----- one commit ----------------------------------------------------------------------------

  /** An unchanged version means an unchanged row. */
  lemma SeenIsStored(c: Config, s: World, a: Attempt)
    requires RowsOK(c, s.rows) && AttemptOK(s.rows, a)
    requires !P.LifeOf(s.rows, a.pk).Dead? && OldVer(P.RowOf(P.LifeOf(s.rows, a.pk))) == OldVer(a.seen)
    ensures a.seen == P.RowOf(P.LifeOf(s.rows, a.pk))
    ensures a.seen.Some? ==> RowOK(c.cx, c.indexes, a.seen.value)
  {
  }

  /** What the new row calls for was called for before, or is inserted by the write. */
  lemma CalledBefore(c: Config, pk: string, row: Option<Row>, after: map<string, string>, k: Key, m: Member)
    requires ValidConfig(c) && (row.Some? ==> RowOK(c.cx, c.indexes, row.value))
    requires CallsFor(c.cx, c.indexes, c.docs, pk, RowAfter(c.cx, c.indexes, row, after), k, m)
    ensures || (row.Some? && CallsFor(c.cx, c.indexes, c.docs, pk, row.value, k, m))
            || Put(k, m) in Puts(AllRedos(c.cx, c.indexes, pk, row, after, c.docs))
  {
    hide RowAfter, CallsIn, UndosFor, RedosFor, AllRedos, RowOK, TableOK;
    TableParts(c.cx, c.indexes, c.docs);
    var idx :| idx in c.indexes && CallsIn(c.cx, idx, c.docs, pk, RowAfter(c.cx, c.indexes, row, after), k, m);
    AllRedosAdd(c.cx, c.indexes, c.docs, pk, row, after, k, m);
    if row.Some? {
      UpdateInOne(c.cx, c.indexes, idx, c.docs, pk, row.value, after, k, m);
    } else {
      InsertInOne(c.cx, c.indexes, idx, c.docs, pk, after, k, m);
    }
  }

  /** A member called for carries the stamp of an index that has a value. */
  lemma CalledIsStamped(c: Config, pk: string, row: Row, k: Key, m: Member)
    requires ValidConfig(c) && CallsFor(c.cx, c.indexes, c.docs, pk, row, k, m)
    ensures m.pk == pk && exists idx <- c.indexes ::
        idx.id == k.id && Valued(c.cx, idx, row.cols) && m.ver == IvOf(Some(row), idx.id)
  {
    var idx :| idx in c.indexes && CallsIn(c.cx, idx, c.docs, pk, row, k, m);
    hide DocRoutes;
    CalledIsListed(c.cx, idx, pk, IvOf(Some(row), idx.id), row.cols, DocOf(c.docs, idx.id), k, m);
    ListedHasValue(c.cx, idx, pk, IvOf(Some(row), idx.id), row.cols, DocOf(c.docs, idx.id), Undo(k, m));
  }

  /** A removal that was older than the row's members is older than those of the row after. */
  lemma StaysOlder(c: Config, row: Row, after: map<string, string>, k: Key, m: Member)
    requires ValidConfig(c) && RowOK(c.cx, c.indexes, row) && Older(c, row, k, m)
    ensures Older(c, RowAfter(c.cx, c.indexes, Some(row), after), k, m)
  {
    var row' := RowAfter(c.cx, c.indexes, Some(row), after);
    forall idx | idx in c.indexes && idx.id == k.id && Valued(c.cx, idx, row'.cols)
      ensures m.ver < IvOf(Some(row'), idx.id)
    {
      StampAfter(c.cx, c.indexes, idx, Some(row), after);
    }
  }

  /** The removals of a write are older than what the write inserts in their index. */
  lemma NewTakesAreOlder(c: Config, pk: string, row: Option<Row>, after: map<string, string>, u: Undo)
    requires ValidConfig(c) && (row.Some? ==> RowOK(c.cx, c.indexes, row.value))
    requires u in AllUndos(c.cx, c.indexes, pk, row, after, c.docs)
    ensures row.Some? && u.member.pk == pk && Older(c, RowAfter(c.cx, c.indexes, row, after), u.key, u.member)
  {
    hide AllUndos, AllStamps;
    UndoHas(c.cx, c.indexes, pk, row, after, c.docs, u);
    var idx :| idx in c.indexes && u in UndosFor(c.cx, idx, pk, row, after, DocOf(c.docs, idx.id));
    UndoIds(c.cx, idx, pk, row, after, DocOf(c.docs, idx.id));
    assert Undone(idx, Columns(row), after) && row.Some?;
    UndoStampOf(c.cx, idx, pk, row, after, DocOf(c.docs, idx.id));
    hide UndosFor;
    var row' := RowAfter(c.cx, c.indexes, row, after);
    forall other | other in c.indexes && other.id == u.key.id && Valued(c.cx, other, row'.cols)
      ensures u.member.ver < IvOf(Some(row'), other.id)
    {
      SameIndex(c, idx, other);
      StampAfter(c.cx, c.indexes, idx, row, after);
    }
  }

  lemma SameIndex(c: Config, a: IndexDef, b: IndexDef)
    requires DistinctIds(c.indexes) && a in c.indexes && b in c.indexes && a.id == b.id
    ensures a == b
  {
  }

  // ----- the steps keep it ------------------------------------------------------------------------

  lemma CommitKeeps(c: Config, s: World, s': World, id: nat, after: map<string, string>)
    requires ValidConfig(c) && Inv(c, s) && Commit(c, s, s', id, after)
    ensures Inv(c, s')
  {
    hide RowAfter, AllUndos, AllRedos, RowOK, Older, CallsFor, TableOK;
    var a := s.attempts[id];
    SeenIsStored(c, s, a);
    RowStaysOK(c.cx, c.indexes, a.seen, after);
    VersionGrows(c, a.seen, after);
    forall cmd | cmd in s'.pending && cmd.Take? ensures TakeOK(c, s'.rows, cmd.key, cmd.member) {
      if cmd in s.pending {
        assert TakeOK(c, s.rows, cmd.key, cmd.member);
        if cmd.member.pk == a.pk && !Cut(s.rows[a.pk], cmd.member) {
          StaysOlder(c, a.seen.value, after, cmd.key, cmd.member);
        }
      } else {
        NewTakesAreOlder(c, a.pk, a.seen, after, Undo(cmd.key, cmd.member));
      }
    }
    forall pk: string, k: Key, m: Member | Needed(c, s', pk, k, m) ensures Kept(s', k, m) {
      if pk == a.pk {
        CalledBefore(c, pk, a.seen, after, k, m);
        if a.seen.Some? && CallsFor(c.cx, c.indexes, c.docs, pk, a.seen.value, k, m) {
          assert Needed(c, s, pk, k, m);
        }
      } else {
        assert Needed(c, s, pk, k, m);
      }
    }
  }

  lemma VersionGrows(c: Config, row: Option<Row>, after: map<string, string>)
    ensures RowAfter(c.cx, c.indexes, row, after).ver == OldVer(row) + 1
  {
  }

  lemma DeleteKeeps(c: Config, s: World, s': World, id: nat)
    requires ValidConfig(c) && Inv(c, s) && Delete(c, s, s', id)
    ensures Inv(c, s')
  {
    hide AllUndos, RowOK, Older, CallsFor, TableOK;
    var a := s.attempts[id];
    SeenIsStored(c, s, a);
    forall cmd | cmd in s'.pending && cmd.Take? ensures TakeOK(c, s'.rows, cmd.key, cmd.member) {
      if cmd in s.pending {
        assert TakeOK(c, s.rows, cmd.key, cmd.member);
      } else {
        NewTakesAreOlder(c, a.pk, a.seen, map[], Undo(cmd.key, cmd.member));
      }
    }
    forall pk: string, k: Key, m: Member | Needed(c, s', pk, k, m) ensures Kept(s', k, m) {
      assert Needed(c, s, pk, k, m);
    }
  }

  lemma RefuseKeeps(c: Config, s: World, s': World, id: nat)
    requires ValidConfig(c) && Inv(c, s) && Refuse(c, s, s', id)
    ensures Inv(c, s')
  {
    hide AllUndos, RowOK, Older, CallsFor, TableOK;
    var a := s.attempts[id];
    SeenIsStored(c, s, a);
    forall cmd | cmd in s'.pending && cmd.Take? ensures TakeOK(c, s'.rows, cmd.key, cmd.member) {
      if cmd in s.pending {
        assert TakeOK(c, s.rows, cmd.key, cmd.member);
      } else {
        TakesAreStamped(c, a.pk, a.seen, Undo(cmd.key, cmd.member));
      }
    }
    forall pk: string, k: Key, m: Member | Needed(c, s', pk, k, m) ensures Kept(s', k, m) {
      assert Needed(c, s, pk, k, m);
    }
  }

  lemma TakesAreStamped(c: Config, pk: string, row: Option<Row>, u: Undo)
    requires ValidConfig(c) && (row.Some? ==> RowOK(c.cx, c.indexes, row.value))
    requires u in AllUndos(c.cx, c.indexes, pk, row, map[], c.docs)
    ensures row.Some? && u.member.pk == pk && u.member.ver <= row.value.ver
  {
    hide AllUndos, AllStamps, TableOK;
    UndoHas(c.cx, c.indexes, pk, row, map[], c.docs, u);
    var idx :| idx in c.indexes && u in UndosFor(c.cx, idx, pk, row, map[], DocOf(c.docs, idx.id));
    UndoIds(c.cx, idx, pk, row, map[], DocOf(c.docs, idx.id));
    assert Undone(idx, Columns(row), map[]) && row.Some?;
    UndoStampOf(c.cx, idx, pk, row, map[], DocOf(c.docs, idx.id));
  }

  lemma ExpireKeeps(c: Config, s: World, s': World, pk: string)
    requires ValidConfig(c) && Inv(c, s) && Expire(c, s, s', pk)
    ensures Inv(c, s')
  {
    hide RowOK, Older, CallsFor, TableOK;
    forall cmd | cmd in s'.pending && cmd.Take? ensures TakeOK(c, s'.rows, cmd.key, cmd.member) {
      assert TakeOK(c, s.rows, cmd.key, cmd.member);
    }
    forall pk': string, k: Key, m: Member | Needed(c, s', pk', k, m) ensures Kept(s', k, m) {
      assert Needed(c, s, pk', k, m);
    }
  }

  /** A removal in flight never names a member that is needed, so commands may land in any order. */
  lemma NoTakeOfNeeded(c: Config, s: World, pk: string, k: Key, m: Member)
    requires ValidConfig(c) && Inv(c, s) && Needed(c, s, pk, k, m)
    ensures Take(k, m) !in s.pending
  {
    CalledIsStamped(c, pk, s.rows[pk].row, k, m);
    forall cmd | cmd in s.pending && cmd.Take? ensures cmd != Take(k, m) {
      assert TakeOK(c, s.rows, cmd.key, cmd.member);
    }
  }

  lemma LandKeeps(c: Config, s: World, s': World, cmd: Cmd)
    requires ValidConfig(c) && Inv(c, s) && Land(c, s, s', cmd)
    ensures Inv(c, s')
  {
    hide RowOK, CallsFor, TableOK;
    forall pk: string, k: Key, m: Member | Needed(c, s', pk, k, m) ensures Kept(s', k, m) {
      assert Needed(c, s, pk, k, m);
      NoTakeOfNeeded(c, s, pk, k, m);
    }
  }

  lemma LoseKeeps(c: Config, s: World, s': World, cmd: Cmd)
    requires ValidConfig(c) && Inv(c, s) && Lose(c, s, s', cmd)
    ensures Inv(c, s')
  {
    hide RowOK, CallsFor, TableOK, Older;
    forall pk: string, k: Key, m: Member | Needed(c, s', pk, k, m) ensures Kept(s', k, m) {
      assert Needed(c, s, pk, k, m);
      CalledIsStamped(c, pk, s.rows[pk].row, k, m);
    }
  }

  lemma SweepKeeps(c: Config, s: World, s': World, e: (Key, Member))
    requires ValidConfig(c) && Inv(c, s) && Sweep(c, s, s', e)
    ensures Inv(c, s')
  {
    hide RowOK, CallsFor, TableOK, Older;
    forall pk: string, k: Key, m: Member | Needed(c, s', pk, k, m) ensures Kept(s', k, m) {
      assert Needed(c, s, pk, k, m);
      CalledIsStamped(c, pk, s.rows[pk].row, k, m);
    }
  }

  lemma AttemptStepsKeep(c: Config, s: World, s': World, id: nat, pk: string)
    requires ValidConfig(c) && Inv(c, s) && (Read(c, s, s', id, pk) || Abandon(c, s, s', id))
    ensures Inv(c, s')
  {
    hide CallsFor, TableOK, Older;
    forall pk': string, k: Key, m: Member | Needed(c, s', pk', k, m) ensures Kept(s', k, m) {
      assert Needed(c, s, pk', k, m);
    }
  }

  lemma {:induction false} RunKeepsInv(c: Config, run: seq<World>, n: nat)
    requires ValidConfig(c) && Run(c, run) && n < |run|
    ensures Inv(c, run[n])
  {
    hide Inv, Read, Commit, Delete, Refuse, Abandon, Expire, Land, Lose, Sweep, ValidConfig;
    if n == 0 {
      StartsOK(c, run[0]);
    } else {
      RunKeepsInv(c, run, n - 1);
      var s, s' := run[n - 1], run[n - 1 + 1];
      assert Next(c, s, s');
      if id: nat, pk: string :| Read(c, s, s', id, pk) {
        AttemptStepsKeep(c, s, s', id, pk);
      } else if id: nat, after: map<string, string> :| Commit(c, s, s', id, after) {
        CommitKeeps(c, s, s', id, after);
      } else if id: nat :| Delete(c, s, s', id) {
        DeleteKeeps(c, s, s', id);
      } else if id: nat :| Refuse(c, s, s', id) {
        RefuseKeeps(c, s, s', id);
      } else if id: nat :| Abandon(c, s, s', id) {
        AttemptStepsKeep(c, s, s', id, "");
      } else if pk: string :| Expire(c, s, s', pk) {
        ExpireKeeps(c, s, s', pk);
      } else if cmd: Cmd :| Land(c, s, s', cmd) {
        LandKeeps(c, s, s', cmd);
      } else if cmd: Cmd :| Lose(c, s, s', cmd) {
        LoseKeeps(c, s, s', cmd);
      } else {
        var e: (Key, Member) :| Sweep(c, s, s', e);
        SweepKeeps(c, s, s', e);
      }
    }
  }

  lemma StartsOK(c: Config, s: World)
    requires ValidConfig(c) && Init(s)
    ensures Inv(c, s)
  {
  }

  // ----- the theorem --------------------------------------------------------------------------------

  /** A bucket among these holds the member, or is about to. */
  predicate KeptIn(s: World, keys: seq<Key>, m: Member) { exists k <- keys :: Kept(s, k, m) }

  /**
   * In every state of every run each index with a value for a living row has the row's
   * current member in a bucket that readers of the value visit, or on its way there; so has
   * its prefix copy; and every removal still in flight for the row in that index names an
   * older member. A row that was cut off at version 1 is an exception in those indexes whose
   * column has not changed since.
   */
  lemma CurrentIsKept(c: Config, run: seq<World>, n: nat, pk: string, idx: IndexDef)
    requires ValidConfig(c) && Run(c, run) && n < |run|
    requires P.LifeOf(run[n].rows, pk).Live? && pk !in run[n].torn
    requires idx in c.indexes && Valued(c.cx, idx, run[n].rows[pk].row.cols)
    requires run[n].rows[pk].cut ==> IvOf(Some(run[n].rows[pk].row), idx.id) > 1
    ensures var row, d := run[n].rows[pk].row, DocOf(c.docs, idx.id);
            var v, iv := row.cols[idx.column], IvOf(Some(row), idx.id);
            if idx.kind.Range? then KeptIn(run[n], RangeKeys(idx.id, RangeReadSet(d, c.cx.parse(v).value)),
                Plain(pk, iv))
            else
              && KeptIn(run[n], EqKeys(idx.id, c.cx.esc(v), EqReadSet(d, c.cx.esc(v))), Plain(pk, iv))
              && (idx.prefixCopy ==> KeptIn(run[n], LexKeys(idx.id, EqReadSet(d, "l")), Lex(v, pk, iv)))
    ensures forall cmd <- run[n].pending :: cmd.Take? && cmd.key.id == idx.id && cmd.member.pk == pk ==>
              cmd.member.ver < IvOf(Some(run[n].rows[pk].row), idx.id)
  {
    RunKeepsInv(c, run, n);
    hide Run;
    var s, row, d := run[n], run[n].rows[pk].row, DocOf(c.docs, idx.id);
    var v, iv := row.cols[idx.column], IvOf(Some(row), idx.id);
    if idx.kind.Range? {
      var k := RangeCalled(c, idx, pk, row);
      assert Needed(c, s, pk, k, Plain(pk, iv));
    } else {
      var k := EqCalled(c, idx, pk, row);
      assert Needed(c, s, pk, k, Plain(pk, iv));
      if idx.prefixCopy {
        var l := LexCalled(c, idx, pk, row);
        assert Needed(c, s, pk, l, Lex(v, pk, iv));
      }
    }
    forall cmd | cmd in s.pending && cmd.Take? && cmd.key.id == idx.id && cmd.member.pk == pk
      ensures cmd.member.ver < iv
    {
      assert TakeOK(c, s.rows, cmd.key, cmd.member);
    }
  }

  lemma RangeCalled(c: Config, idx: IndexDef, pk: string, row: Row) returns (k: Key)
    requires ValidConfig(c) && idx in c.indexes && Valued(c.cx, idx, row.cols) && idx.kind.Range?
    ensures CallsFor(c.cx, c.indexes, c.docs, pk, row, k, Plain(pk, IvOf(Some(row), idx.id)))
    ensures k in RangeKeys(idx.id, RangeReadSet(DocOf(c.docs, idx.id), c.cx.parse(row.cols[idx.column]).value))
  {
    var d, s, m := DocOf(c.docs, idx.id), c.cx.parse(row.cols[idx.column]).value, Plain(pk, IvOf(Some(row), idx.id));
    hide DocRoutes, RangeReadSet;
    RangeWritesAreRead(d, s);
    var bs := RangeWriteSet(d, s);
    KeysIn(idx.id, "", bs, RangeReadSet(d, s));
    k := RangeKeys(idx.id, bs)[0];
    RedoIn(RangeKeys(idx.id, bs), m, s, k, m);
    assert CallsIn(c.cx, idx, c.docs, pk, row, k, m);
  }

  lemma EqCalled(c: Config, idx: IndexDef, pk: string, row: Row) returns (k: Key)
    requires ValidConfig(c) && idx in c.indexes && Valued(c.cx, idx, row.cols) && !idx.kind.Range?
    ensures CallsFor(c.cx, c.indexes, c.docs, pk, row, k, Plain(pk, IvOf(Some(row), idx.id)))
    ensures var enc := c.cx.esc(row.cols[idx.column]); k in EqKeys(idx.id, enc, EqReadSet(DocOf(c.docs, idx.id), enc))
  {
    var d, v, m := DocOf(c.docs, idx.id), row.cols[idx.column], Plain(pk, IvOf(Some(row), idx.id));
    var enc := c.cx.esc(v);
    SomeTarget(c.cx, d, enc, pk);
    hide DocRoutes, EqReadSet, EqWriteSet;
    EqWritesAreRead(c.cx, d, enc, pk);
    var bs := EqWriteSet(c.cx, d, enc, pk);
    KeysIn(idx.id, enc, bs, EqReadSet(d, enc));
    k := EqKeys(idx.id, enc, bs)[0];
    RedoIn(EqKeys(idx.id, enc, bs), m, Fin(0.0), k, m);
    var l := if idx.prefixCopy then Redos(LexKeys(idx.id, EqWriteSet(c.cx, d, "l", pk)), Lex(v, pk, m.ver), Fin(0.0))
        else [];
    AddsAppend(Redos(EqKeys(idx.id, enc, bs), m, Fin(0.0)), l, k, m);
    assert CallsIn(c.cx, idx, c.docs, pk, row, k, m);
  }

  lemma LexCalled(c: Config, idx: IndexDef, pk: string, row: Row) returns (k: Key)
    requires ValidConfig(c) && idx in c.indexes && Valued(c.cx, idx, row.cols) && !idx.kind.Range? && idx.prefixCopy
    ensures CallsFor(c.cx, c.indexes, c.docs, pk, row, k, Lex(row.cols[idx.column], pk, IvOf(Some(row), idx.id)))
    ensures k in LexKeys(idx.id, EqReadSet(DocOf(c.docs, idx.id), "l"))
  {
    var d, v := DocOf(c.docs, idx.id), row.cols[idx.column];
    var iv := IvOf(Some(row), idx.id);
    var m := Lex(v, pk, iv);
    SomeTarget(c.cx, d, "l", pk);
    hide DocRoutes, EqReadSet, EqWriteSet;
    EqWritesAreRead(c.cx, d, "l", pk);
    var bs := EqWriteSet(c.cx, d, "l", pk);
    KeysIn(idx.id, "l", bs, EqReadSet(d, "l"));
    k := LexKeys(idx.id, bs)[0];
    RedoIn(LexKeys(idx.id, bs), m, Fin(0.0), k, m);
    var enc := c.cx.esc(v);
    AddsAppend(Redos(EqKeys(idx.id, enc, EqWriteSet(c.cx, d, enc, pk)), Plain(pk, iv), Fin(0.0)),
        Redos(LexKeys(idx.id, bs), m, Fin(0.0)), k, m);
    assert CallsIn(c.cx, idx, c.docs, pk, row, k, m);
  }

  lemma SomeTarget(cx: Codec, d: Option<Doc>, enc: string, pk: string)
    requires ValidDoc(d)
    ensures EqWriteSet(cx, d, enc, pk) != []
  {
  }

  // ----- what the hypotheses are for ---------------------------------------------------------------------

  /**
   * A retry sees the value unchanged and sends nothing: an insertion that was lost stays lost,
   * however often the same write is repeated.
   */
  lemma RetrySendsNothing(c: Config, s: World, s': World, id: nat, after: map<string, string>)
    requires ValidConfig(c) && Commit(c, s, s', id, after) && s.attempts[id].seen.Some?
    requires s.attempts[id].seen.value.cols == after
    ensures s'.pending == s.pending && s'.store == s.store
  {
    var a := s.attempts[id];
    hide RowAfter, TableOK, AllUndos, AllRedos;
    forall u | u in AllUndos(c.cx, c.indexes, a.pk, a.seen, after, c.docs) ensures false {
      UndoHas(c.cx, c.indexes, a.pk, a.seen, after, c.docs, u);
    }
    forall r | r in AllRedos(c.cx, c.indexes, a.pk, a.seen, after, c.docs) ensures false {
      RedoHas(c.cx, c.indexes, a.pk, a.seen, after, c.docs, r);
    }
    assert Takes(AllUndos(c.cx, c.indexes, a.pk, a.seen, after, c.docs)) == {};
    assert Puts(AllRedos(c.cx, c.indexes, a.pk, a.seen, after, c.docs)) == {};
  }

  /**
   * A second life with the same columns as the first reuses its stamps: every member that the
   * row then calls for is named by a removal of the first life's deletion, which may still be
   * in flight and lands on the member of the second.
   */
  lemma SecondLifeReusesStamps(c: Config, pk: string, after: map<string, string>, k: Key, m: Member)
    requires ValidConfig(c)
    requires var row := RowAfter(c.cx, c.indexes, None, after); CallsFor(c.cx, c.indexes, c.docs, pk, row, k, m)
    ensures var first := Some(RowAfter(c.cx, c.indexes, None, after));
            Take(k, m) in Takes(AllUndos(c.cx, c.indexes, pk, first, map[], c.docs))
  {
    var row := RowAfter(c.cx, c.indexes, None, after);
    var idx :| idx in c.indexes && CallsIn(c.cx, idx, c.docs, pk, row, k, m);
    var d := DocOf(c.docs, idx.id);
    hide RowAfter, TableOK, AllUndos, UndosFor, CallsIn, ReceiptsFor;
    CalledIsOwn(c.cx, c.indexes, idx, c.docs, pk, row, k, m);
    ListedHasValue(c.cx, idx, pk, IvOf(Some(row), idx.id), row.cols, d, Undo(k, m));
    UndosAreListed(c.cx, idx, pk, Some(row), map[], d);
    UndoHas(c.cx, c.indexes, pk, Some(row), map[], c.docs, Undo(k, m));
    assert Undo(k, m) in AllUndos(c.cx, c.indexes, pk, Some(row), map[], c.docs);
  }
}
