/** Every step of a writer, of the network and of the sweeper keeps the invariant. */
module EqWriterSteps {
  import opened Wrappers
  import opened BucketMap
  import opened WritePath
  import opened EqProtocol
  import opened EqSafety

  /** Steps that touch only the writers' local state and the age of the caches. */
  lemma LocalStep(c: Config, s: World, s': World)
    requires Inv(c, s) && s' == s.(attempts := s'.attempts, floor := s'.floor) && s.floor <= s'.floor < |s.history|
    requires AttemptsOK(s.rows, s'.attempts, |s.history|)
    requires NoNewAims(s.attempts, s.pending, s.floor, s'.attempts, s.pending, s'.floor)
    ensures Inv(c, s')
  {
    hide NoLoss, Siblings, RowsOK, PendingOK, StoreOK, ControlOK, AttemptsOK, PageOK, AimsOK, FinalAims, FinalMembers,
         NoNewAims;
    AllAimsShrink(c, s, s');
  }

  lemma ReadRowStep(c: Config, s: World, s': World, id: nat, pk: string)
    requires Inv(c, s) && ReadRow(c, s, s', id, pk)
    ensures Inv(c, s')
  {
    hide NoLoss, Siblings, PendingOK, StoreOK, ControlOK, PageOK, AimsOK, FinalAims, FinalMembers, HasStamps;
    LocalStep(c, s, s');
  }

  lemma LoadDocStep(c: Config, s: World, s': World, id: nat, i: nat)
    requires Inv(c, s) && LoadDoc(c, s, s', id, i)
    ensures Inv(c, s')
  {
    hide NoLoss, Siblings, RowsOK, PendingOK, StoreOK, ControlOK, PageOK, AimsOK, FinalAims, FinalMembers;
    LocalStep(c, s, s');
  }

  lemma AbandonStep(c: Config, s: World, s': World, id: nat)
    requires Inv(c, s) && Abandon(c, s, s', id)
    ensures Inv(c, s')
  {
    hide NoLoss, Siblings, RowsOK, PendingOK, StoreOK, ControlOK, PageOK, AimsOK, FinalAims, FinalMembers;
    LocalStep(c, s, s');
  }

  lemma AgeStep(c: Config, s: World, s': World, floor: nat)
    requires Inv(c, s) && Age(c, s, s', floor)
    ensures Inv(c, s')
  {
    hide NoLoss, Siblings, RowsOK, PendingOK, StoreOK, ControlOK, PageOK, AimsOK, FinalAims, FinalMembers;
    LocalStep(c, s, s');
  }

  /** The row is gone, or cut off. */
  predicate Withdrawn(l: Life, l': Life) { l.Live? && (l'.Dead? || l' == Live(l.row, true)) }

  /** Then nothing names a current member of it. */
  lemma DeathKeeps(c: Config, s: World, pk: string, rows': map<string, Life>)
    requires Inv(c, s) && Withdrawn(LifeOf(s.rows, pk), LifeOf(rows', pk)) && rows' == s.rows[pk := LifeOf(rows', pk)]
    ensures RowsOK(c, rows') && AttemptsOK(rows', s.attempts, |s.history|) && StoreOK(rows', s.store)
    ensures PageOK(c, rows', s.store, s.ctl)
    ensures PendingOK(c, rows', s.pending, CurrentDoc(s).next)
    ensures forall m: Member :: IsCurrent(c, rows', m) ==>
              IsCurrent(c, s.rows, m) && EncOf(c, rows', m) == EncOf(c, s.rows, m)
  {
    hide NoLoss, Siblings, ControlOK, AimsOK, FinalAims, FinalMembers, DocsOK;
    DeathCurrent(c, s.rows, pk, rows');
    hide IsCurrent, EncOf;
    assert PendingOK(c, rows', s.pending, CurrentDoc(s).next) by {
      forall cmd | cmd in s.pending ensures CmdOK(c, rows', cmd, CurrentDoc(s).next) {
        assert CmdOK(c, s.rows, cmd, CurrentDoc(s).next);
      }
    }
  }

  lemma DeathCurrent(c: Config, rows: map<string, Life>, pk: string, rows': map<string, Life>)
    requires Withdrawn(LifeOf(rows, pk), LifeOf(rows', pk)) && rows' == rows[pk := LifeOf(rows', pk)]
    ensures forall m: Member :: IsCurrent(c, rows', m) ==>
              IsCurrent(c, rows, m) && EncOf(c, rows', m) == EncOf(c, rows, m)
  {
  }

  lemma ExpireStep(c: Config, s: World, s': World, pk: string)
    requires Inv(c, s) && Expire(c, s, s', pk)
    ensures Inv(c, s')
  {
    hide NoLoss, Siblings, RowsOK, PendingOK, StoreOK, ControlOK, AttemptsOK, PageOK, AimsOK, FinalAims, FinalMembers,
         IsCurrent, EncOf;
    DeathKeeps(c, s, pk, s'.rows);
    ShrinkStep(c, s, s');
  }

  lemma SweepStep(c: Config, s: World, s': World, e: (Key, Member))
    requires Inv(c, s) && Sweep(c, s, s', e)
    ensures Inv(c, s')
  {
    hide NoLoss, Siblings, RowsOK, PendingOK, ControlOK, AttemptsOK, AimsOK, FinalAims, FinalMembers;
    ShrinkStep(c, s, s');
  }

  lemma LoseStep(c: Config, s: World, s': World, cmd: Cmd)
    requires Inv(c, s) && Lose(c, s, s', cmd)
    ensures Inv(c, s')
  {
    hide NoLoss, Siblings, RowsOK, StoreOK, PageOK, AttemptsOK, AimsOK, FinalAims, FinalMembers, CmdOK, CalledFor,
         EncOf;
    ShrinkStep(c, s, s');
  }

  lemma LandKeeps(c: Config, s: World, s': World, cmd: Cmd)
    requires Inv(c, s) && Land(c, s, s', cmd)
    ensures Keeps(c, s, s')
  {
    hide NoLoss, Siblings, RowsOK, StoreOK, PageOK, AttemptsOK, AimsOK, FinalAims, FinalMembers, DocsOK, ControlOK,
         AimOK;
    assert CmdOK(c, s.rows, cmd, CurrentDoc(s).next);
    assert cmd.ZRem? ==> !IsCurrent(c, s.rows, cmd.member);
  }

  lemma LandStep(c: Config, s: World, s': World, cmd: Cmd)
    requires Inv(c, s) && Land(c, s, s', cmd)
    ensures Inv(c, s')
  {
    hide NoLoss, Siblings, RowsOK, AttemptsOK, AimsOK, FinalAims, FinalMembers, IsCurrent, EncOf, Keeps, AimOK, DocOK;
    LandKeeps(c, s, s', cmd);
    assert CmdOK(c, s.rows, cmd, CurrentDoc(s).next);
    assert PageOK(c, s'.rows, s'.store, s'.ctl);
    ShrinkStep(c, s, s');
  }

  // ----- a write or a delete that commits ------------------------------------------------

  /** The version check makes the observed row the present one. */
  lemma SeenIsPresent(c: Config, s: World, id: nat)
    requires RowsOK(c, s.rows) && AttemptsOK(s.rows, s.attempts, |s.history|) && id in s.attempts
    requires !LifeOf(s.rows, s.attempts[id].pk).Dead?
    requires OldVer(RowOf(LifeOf(s.rows, s.attempts[id].pk))) == OldVer(s.attempts[id].seen)
    ensures s.attempts[id].seen == RowOf(LifeOf(s.rows, s.attempts[id].pk))
    ensures Stampable(s.attempts[id].seen) && HasStamps(c.cx, c.indexes, s.attempts[id].seen)
  {
    assert AttemptOK(s.rows, s.attempts[id], |s.history|);
  }

  /** What a write inserts: one member, stamped with the new version, at every key it aims at. */
  lemma AddsShape(c: Config, pk: string, seen: Option<Row>, after: map<string, string>, d: Doc)
    requires ValidConfig(c) && ValidDoc(Some(d))
    ensures var adds := Adds(RedosFor(c.cx, c.idx, pk, seen, after, Some(d)));
            if Redone(c.idx, Columns(seen), after) then
              var m, aim := Plain(pk, OldVer(seen) + 1), Aim(c, d, c.cx.esc(after[c.idx.column]), pk);
              && (forall cmd <- adds :: cmd == ZAdd(cmd.key, m, aim) && cmd.key in aim)
              && (forall k <- aim :: ZAdd(k, m, aim) in adds)
            else adds == {}
  {
    if Redone(c.idx, Columns(seen), after) {
      var enc := c.cx.esc(after[c.idx.column]);
      var bs := WriteTargetsEq(d, c.cx.hash, enc, pk);
      var redos := RedosFor(c.cx, c.idx, pk, seen, after, Some(d));
      var m := Plain(pk, OldVer(seen) + 1);
      assert redos == Redos(EqKeys(c.idx.id, enc, bs), m, Fin(0.0));
      var aim := set r <- redos :: r.key;
      forall k ensures k in aim <==> k in Aim(c, d, enc, pk) {
        if k in Aim(c, d, enc, pk) {
          var b :| b in bs && k == K(c, enc, b);
          var i :| 0 <= i < |bs| && bs[i] == b;
          assert redos[i].key == k;
        }
        if k in aim {
          var i :| 0 <= i < |redos| && redos[i].key == k;
          assert k == K(c, enc, bs[i]);
        }
      }
      assert aim == Aim(c, d, enc, pk);
    }
  }

  lemma RemsShape(c: Config, pk: string, seen: Option<Row>, after: map<string, string>, d: Doc)
    requires ValidConfig(c)
    ensures forall cmd <- Rems(UndosFor(c.cx, c.idx, pk, seen, after, Some(d))) ::
              cmd.ZRem? && cmd.member == Plain(pk, IvOf(seen, c.idx.id)) && Undone(c.idx, Columns(seen), after)
  {
  }

  /** The stamp moves exactly when the column does. */
  lemma StampAfter(c: Config, seen: Option<Row>, after: map<string, string>)
    requires ValidConfig(c) && Stampable(seen) && HasStamps(c.cx, c.indexes, seen) && c.idx.column in after
    ensures IvOf(Some(RowAfter(c.cx, c.indexes, seen, after)), c.idx.id)
            == if Redone(c.idx, Columns(seen), after) then OldVer(seen) + 1 else IvOf(seen, c.idx.id)
  {
    var n :| 0 <= n < |c.indexes| && c.indexes[n] == c.idx;
    StampIsOwn(c.cx, c.indexes, n, seen, after);
    StampHas(c.cx, c.indexes, seen, after, c.idx.id);
  }

  /** Which members are current after a commit. */
  lemma CurrentAfter(c: Config, s: World, s': World, id: nat, after: map<string, string>)
    requires ValidConfig(c) && RowsOK(c, s.rows) && AttemptsOK(s.rows, s.attempts, |s.history|)
    requires Commit(c, s, s', id, after)
    ensures var pk, seen := s.attempts[id].pk, s.attempts[id].seen;
            var redone := Redone(c.idx, Columns(seen), after);
            forall m: Member | IsCurrent(c, s'.rows, m) ::
              if m.pk == pk && redone then
                m == Plain(pk, OldVer(seen) + 1) && EncOf(c, s'.rows, m) == c.cx.esc(after[c.idx.column])
              else IsCurrent(c, s.rows, m) && EncOf(c, s'.rows, m) == EncOf(c, s.rows, m)
  {
    hide HasStamps, RowAfter, IvOf, Stampable;
    var pk, seen := s.attempts[id].pk, s.attempts[id].seen;
    SeenIsPresent(c, s, id);
    forall m: Member | IsCurrent(c, s'.rows, m)
      ensures if m.pk == pk && Redone(c.idx, Columns(seen), after) then
                m == Plain(pk, OldVer(seen) + 1) && EncOf(c, s'.rows, m) == c.cx.esc(after[c.idx.column])
              else IsCurrent(c, s.rows, m) && EncOf(c, s'.rows, m) == EncOf(c, s.rows, m)
    {
      if m.pk == pk {
        RowAfterColumns(c, seen, after);
        StampAfter(c, seen, after);
      }
    }
  }

  lemma RowAfterColumns(c: Config, seen: Option<Row>, after: map<string, string>)
    ensures RowAfter(c.cx, c.indexes, seen, after).cols == after
    ensures RowAfter(c.cx, c.indexes, seen, after).ver == OldVer(seen) + 1
  {
  }

  lemma CommitBasics(c: Config, s: World, s': World, id: nat, after: map<string, string>)
    requires ValidConfig(c) && Inv(c, s) && Commit(c, s, s', id, after)
    ensures RowsOK(c, s'.rows) && AttemptsOK(s'.rows, s'.attempts, |s'.history|)
    ensures StoreOK(s'.rows, s'.store) && PageOK(c, s'.rows, s'.store, s'.ctl)
  {
    CommitRows(c, s, s', id, after);
    CommitPlaces(c, s, s', id, after);
  }

  lemma CommitRows(c: Config, s: World, s': World, id: nat, after: map<string, string>)
    requires ValidConfig(c) && Inv(c, s) && Commit(c, s, s', id, after)
    ensures RowsOK(c, s'.rows) && AttemptsOK(s'.rows, s'.attempts, |s'.history|)
  {
    hide NoLoss, Siblings, ControlOK, AimsOK, FinalAims, FinalMembers, PendingOK, StoreOK, PageOK, IsCurrent, EncOf,
         UndosFor, RedosFor, Adds, Rems;
    var pk, seen := s.attempts[id].pk, s.attempts[id].seen;
    SeenIsPresent(c, s, id);
    RowAfterColumns(c, seen, after);
    WriteKeepsStamps(c.cx, c.indexes, seen, after);
  }

  lemma CommitPlaces(c: Config, s: World, s': World, id: nat, after: map<string, string>)
    requires ValidConfig(c) && Inv(c, s) && Commit(c, s, s', id, after)
    ensures StoreOK(s'.rows, s'.store) && PageOK(c, s'.rows, s'.store, s'.ctl)
  {
    hide NoLoss, Siblings, ControlOK, AimsOK, FinalAims, FinalMembers, PendingOK, IsCurrent, EncOf, UndosFor, RedosFor,
         Adds, Rems, RowAfter;
    SeenIsPresent(c, s, id);
    CurrentAfter(c, s, s', id, after);
    RowAfterColumns(c, s.attempts[id].seen, after);
    assert forall m: Member :: Born(s.rows, m) ==> Born(s'.rows, m);
  }

  lemma CommitPending(c: Config, s: World, s': World, id: nat, after: map<string, string>)
    requires ValidConfig(c) && Inv(c, s) && Commit(c, s, s', id, after)
    ensures PendingOK(c, s'.rows, s'.pending, CurrentDoc(s').next)
  {
    hide NoLoss, Siblings, ControlOK, AimsOK, FinalAims, FinalMembers, PageOK, StoreOK, HasStamps, RowAfter, UndosFor,
         RedosFor;
    var a := s.attempts[id];
    var d := s.history[a.snap.value];
    SeenIsPresent(c, s, id);
    CurrentAfter(c, s, s', id, after);
    RowAfterColumns(c, a.seen, after);
    AddsShape(c, a.pk, a.seen, after, d);
    RemsShape(c, a.pk, a.seen, after, d);
    forall cmd | cmd in s'.pending ensures CmdOK(c, s'.rows, cmd, CurrentDoc(s').next) {
      if cmd in s.pending {
        assert CmdOK(c, s.rows, cmd, CurrentDoc(s).next);
      } else if cmd in Rems(UndosFor(c.cx, c.idx, a.pk, a.seen, after, Some(d))) {
        assert !IsCurrent(c, s'.rows, cmd.member);
      } else {
        AimBelow(c, s.history, s.floor, a.snap.value, c.cx.esc(after[c.idx.column]), a.pk);
      }
    }
  }

  /** An aim stays among the numbers its document's readers visit, hence below the allocator. */
  lemma AimBelow(c: Config, history: seq<Doc>, floor: nat, i: nat, enc: string, pk: string)
    requires DocsOK(history, floor) && i < |history|
    ensures ValidEq(history[i])
    ensures forall t <- Aim(c, history[i], enc, pk) ::
              && t.EqKey? && t.id == c.idx.id && t.enc == enc && t.sub in EntryReads(EntryOf(history[i], enc))
              && t.sub < history[|history| - 1].next
  {
    var d := history[i];
    assert DocOK(d);
    WriteWithinRead(d, c.cx.hash, enc, pk);
    assert enc in d.eq ==> EntryOK(d.eq[enc], d.next);
  }

  lemma CommitAims(c: Config, s: World, s': World, id: nat, after: map<string, string>, enc: string, keys: set<Key>)
    requires ValidConfig(c) && Inv(c, s) && Commit(c, s, s', id, after)
    requires AimsMeet(c, s.attempts, s.pending, s.history, s.floor, enc, keys)
    ensures AimsMeet(c, s'.attempts, s'.pending, s'.history, s'.floor, enc, keys)
  {
    hide NoLoss, Siblings, ControlOK, AimsOK, FinalAims, FinalMembers, PageOK, StoreOK, PendingOK, RowsOK, RowAfter,
         UndosFor, RedosFor;
    var a := s.attempts[id];
    var d := s.history[a.snap.value];
    AddsShape(c, a.pk, a.seen, after, d);
    RemsShape(c, a.pk, a.seen, after, d);
    assert AimMeets(c, s.history, a.snap.value, enc, a.pk, keys);
    forall cmd | cmd in s'.pending && cmd.ZAdd? && cmd.key.EqKey? && cmd.key.enc == enc ensures Meets(cmd.aim, keys) {
      if cmd !in s.pending {
        AimBelow(c, s.history, s.floor, a.snap.value, c.cx.esc(after[c.idx.column]), a.pk);
        assert cmd.aim == Aim(c, d, enc, a.pk);
      }
    }
  }

  /** The new member is in flight to every key of its aim; the others are where they were. */
  lemma CommitHolds(c: Config, s: World, s': World, id: nat, after: map<string, string>, m: Member)
    requires ValidConfig(c) && Inv(c, s) && Commit(c, s, s', id, after)
    requires IsCurrent(c, s'.rows, m) && m.pk !in s'.torn
    ensures forall k: Key :: Held(s.store, s.pending, k, m) ==> Held(s'.store, s'.pending, k, m)
    ensures if m.pk == s.attempts[id].pk && Redone(c.idx, Columns(s.attempts[id].seen), after) then
              var aim := Aim(c, s.history[s.attempts[id].snap.value], EncOf(c, s'.rows, m), m.pk);
              && m == Plain(m.pk, OldVer(s.attempts[id].seen) + 1)
              && (forall k <- aim :: Held(s'.store, s'.pending, k, m))
              && (forall cmd <- s'.pending :: cmd.ZAdd? && cmd.member == m ==> cmd.aim == aim)
            else
              && IsCurrent(c, s.rows, m) && m.pk !in s.torn && EncOf(c, s'.rows, m) == EncOf(c, s.rows, m)
              && (forall cmd <- s'.pending :: cmd.ZAdd? && cmd.member == m ==> cmd in s.pending)
  {
    hide NoLoss, Siblings, ControlOK, AimsOK, FinalAims, FinalMembers, PageOK, StoreOK, RowAfter, UndosFor, RedosFor,
         HasStamps, IsCurrent, EncOf, AimOK, DocOK;
    var a := s.attempts[id];
    var d := s.history[a.snap.value];
    SeenIsPresent(c, s, id);
    CurrentAfter(c, s, s', id, after);
    AddsShape(c, a.pk, a.seen, after, d);
    RemsShape(c, a.pk, a.seen, after, d);
    forall cmd | cmd in s.pending && cmd.ZAdd? && cmd.member == m
      ensures !(m.pk == a.pk && Redone(c.idx, Columns(a.seen), after))
    {
      assert CmdOK(c, s.rows, cmd, CurrentDoc(s).next);
      RowAfterColumns(c, a.seen, after);
    }
    if m.pk == a.pk && Redone(c.idx, Columns(a.seen), after) {
      forall k | k in Aim(c, d, EncOf(c, s'.rows, m), m.pk) ensures Held(s'.store, s'.pending, k, m) {
        assert ZAdd(k, m, Aim(c, d, EncOf(c, s'.rows, m), m.pk)) in s'.pending;
      }
    }
  }

  lemma CommitMembers(c: Config, s: World, s': World, id: nat, after: map<string, string>)
    requires ValidConfig(c) && Inv(c, s) && Commit(c, s, s', id, after)
    ensures NoLoss(c, s'.rows, s'.store, s'.pending, CurrentDoc(s'), s'.torn)
    ensures Siblings(c, s'.rows, s'.store, s'.pending, CurrentDoc(s'), s'.torn)
    ensures FinalMembers(c, s'.rows, s'.store, s'.pending, s'.torn, s'.ctl)
  {
    hide ControlOK, PageOK, StoreOK, RowAfter, UndosFor, RedosFor, HasStamps, IsCurrent, EncOf, PendingOK, RowsOK, Held,
        AttemptsOK, DocsOK, Redone, Aim,
         ReadKeys, SettledKeys, TargetKeys, Rems, Adds;
    var a := s.attempts[id];
    forall m: Member | IsCurrent(c, s'.rows, m) && m.pk !in s'.torn
      ensures HeldIn(s'.store, s'.pending, ReadKeys(c, CurrentDoc(s), EncOf(c, s'.rows, m)), m)
      ensures LastPass(s.ctl) && EncOf(c, s'.rows, m) == s.ctl.job.enc ==>
                HeldIn(s'.store, s'.pending, TargetKeys(c, s.ctl.job), m) || StillToMove(c, s'.store, s'.ctl, m)
    {
      CommitHolds(c, s, s', id, after, m);
      var enc := EncOf(c, s'.rows, m);
      assert AimsMeet(c, s.attempts, s.pending, s.history, s.floor, enc, LatestReads(c, s.history, enc));
      assert AimMeets(c, s.history, a.snap.value, enc, a.pk, LatestReads(c, s.history, enc));
      if LastPass(s.ctl) && enc == s.ctl.job.enc {
        assert AimMeets(c, s.history, a.snap.value, enc, a.pk, TargetKeys(c, s.ctl.job));
      }
    }
    forall cmd | cmd in s'.pending && cmd.ZAdd? && IsCurrent(c, s'.rows, cmd.member) && cmd.member.pk !in s'.torn
      ensures forall t <- cmd.aim :: t in SettledKeys(c, CurrentDoc(s), EncOf(c, s'.rows, cmd.member)) ==>
                Held(s'.store, s'.pending, t, cmd.member)
    {
      CommitHolds(c, s, s', id, after, cmd.member);
    }
  }

  lemma CommitControl(c: Config, s: World, s': World, id: nat, after: map<string, string>)
    requires ValidConfig(c) && Inv(c, s) && Commit(c, s, s', id, after)
    ensures ControlOK(c, s'.ctl, s'.history, s'.pending)
  {
    hide NoLoss, Siblings, AimsOK, FinalAims, FinalMembers, PageOK, StoreOK, PendingOK, RowsOK, RowAfter, UndosFor,
         RedosFor, JobOK;
    var a := s.attempts[id];
    var d := s.history[a.snap.value];
    AddsShape(c, a.pk, a.seen, after, d);
    RemsShape(c, a.pk, a.seen, after, d);
    if s.ctl.Reserved? {
      AimBelow(c, s.history, s.floor, a.snap.value, s.ctl.enc, a.pk);
      if Redone(c.idx, Columns(a.seen), after) {
        AimBelow(c, s.history, s.floor, a.snap.value, c.cx.esc(after[c.idx.column]), a.pk);
      }
      assert Below(c, s'.history, s'.pending, s.ctl.enc, s.ctl.first);
    }
  }

  lemma CommitStep(c: Config, s: World, s': World, id: nat, after: map<string, string>)
    requires ValidConfig(c) && Inv(c, s) && Commit(c, s, s', id, after)
    ensures Inv(c, s')
  {
    hide NoLoss, Siblings, RowsOK, PendingOK, StoreOK, ControlOK, AttemptsOK, PageOK, FinalMembers, AimsMeet;
    CommitBasics(c, s, s', id, after);
    CommitPending(c, s, s', id, after);
    CommitMembers(c, s, s', id, after);
    CommitControl(c, s, s', id, after);
    forall enc: string
      ensures AimsMeet(c, s'.attempts, s'.pending, s'.history, s'.floor, enc, LatestReads(c, s'.history, enc))
    {
      CommitAims(c, s, s', id, after, enc, LatestReads(c, s.history, enc));
    }
    if LastPass(s.ctl) {
      CommitAims(c, s, s', id, after, s.ctl.job.enc, TargetKeys(c, s.ctl.job));
    }
  }

  lemma DeleteStep(c: Config, s: World, s': World, id: nat)
    requires ValidConfig(c) && Inv(c, s) && Delete(c, s, s', id)
    ensures Inv(c, s')
  {
    hide NoLoss, Siblings, RowsOK, StoreOK, PageOK, AimsOK, FinalAims, FinalMembers, UndosFor, IsCurrent, EncOf;
    var a := s.attempts[id];
    RemsShape(c, a.pk, a.seen, map[], s.history[a.snap.value]);
    DeathKeeps(c, s, a.pk, s'.rows);
    assert !IsCurrent(c, s'.rows, Plain(a.pk, IvOf(a.seen, c.idx.id))) by {
      WithdrawnIsNotCurrent(c, s.rows, s'.rows, Plain(a.pk, IvOf(a.seen, c.idx.id)));
    }
    assert PendingOK(c, s'.rows, s'.pending, CurrentDoc(s').next);
    ShrinkStep(c, s, s');
  }

  lemma WithdrawnIsNotCurrent(c: Config, rows: map<string, Life>, rows': map<string, Life>, m: Member)
    requires Withdrawn(LifeOf(rows, m.pk), LifeOf(rows', m.pk))
    ensures !IsCurrent(c, rows', m)
  {
  }

  lemma RefuseStep(c: Config, s: World, s': World, id: nat)
    requires ValidConfig(c) && Inv(c, s) && Refuse(c, s, s', id)
    ensures Inv(c, s')
  {
    hide NoLoss, Siblings, RowsOK, StoreOK, PageOK, AimsOK, FinalAims, FinalMembers, UndosFor, IsCurrent, EncOf;
    var a := s.attempts[id];
    if s.rows[a.pk].row.ver != 1 {
      assert s'.rows == s.rows && s'.pending == s.pending;
      AbandonStep(c, s, s', id);
    } else {
      RemsShape(c, a.pk, a.seen, map[], s.history[a.snap.value]);
      DeathKeeps(c, s, a.pk, s'.rows);
      var m := Plain(a.pk, IvOf(a.seen, c.idx.id));
      assert !IsCurrent(c, s'.rows, m) by {
        WithdrawnIsNotCurrent(c, s.rows, s'.rows, m);
      }
      SeenIsPresent(c, s, id);
      assert PendingOK(c, s'.rows, s'.pending, CurrentDoc(s').next);
      ShrinkStep(c, s, s');
    }
  }
}
