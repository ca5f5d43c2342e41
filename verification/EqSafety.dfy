/**
 * Safety of the online split and merge: in every reachable state the current member of
 * every living row is in a bucket the stored document tells readers to visit, or its
 * insertion is still in flight.
 */
module EqSafety {
  import opened Wrappers
  import opened BucketMap
  import opened WritePath
  import opened EqProtocol

  // ----- what is current, and where it is -----------------------------------------------

  /** `m` is the member that the row calls for, and the row is not cut off from it. */
  ghost predicate IsCurrent(c: Config, rows: map<string, Life>, m: Member) {
    CalledFor(c, rows, m) && !rows[m.pk].cut
  }

  function EncOf(c: Config, rows: map<string, Life>, m: Member): string
    requires IsCurrent(c, rows, m)
  {
    c.cx.esc(rows[m.pk].row.cols[c.idx.column])
  }

  ghost predicate Flying(pending: set<Cmd>, k: Key, m: Member) {
    exists cmd <- pending :: cmd.ZAdd? && cmd.key == k && cmd.member == m
  }

  ghost predicate Held(store: set<(Key, Member)>, pending: set<Cmd>, k: Key, m: Member) {
    (k, m) in store || Flying(pending, k, m)
  }

  ghost predicate HeldIn(store: set<(Key, Member)>, pending: set<Cmd>, keys: set<Key>, m: Member) {
    exists k <- keys :: Held(store, pending, k, m)
  }

  function ReadKeys(c: Config, d: Doc, enc: string): set<Key> { Keys(c, enc, EntryReads(EntryOf(d, enc))) }

  function SettledKeys(c: Config, d: Doc, enc: string): set<Key> { Keys(c, enc, Settled(EntryOf(d, enc))) }

  // ----- the invariant ------------------------------------------------------------------

  ghost predicate DocsOK(history: seq<Doc>, floor: nat) {
    && history != [] && floor < |history|
    && (forall d <- history :: DocOK(d))
    && (forall i :: 0 <= i < |history| ==> history[i].next <= history[|history| - 1].next)
  }

  ghost predicate RowsOK(c: Config, rows: map<string, Life>) {
    forall pk <- rows :: Stampable(RowOf(rows[pk])) && HasStamps(c.cx, c.indexes, RowOf(rows[pk]))
  }

  ghost predicate AttemptOK(rows: map<string, Life>, a: Attempt, docs: nat) {
    var life := LifeOf(rows, a.pk);
    && (a.snap.Some? ==> a.snap.value < docs)
    && (life.Absent? ==> a.seen.None?)
    && (a.seen.Some? ==> a.seen.value.ver > 0)
    && (life.Live? && a.seen.Some? ==>
          a.seen.value.ver <= life.row.ver && (a.seen.value.ver == life.row.ver ==> a.seen.value == life.row))
  }

  ghost predicate AttemptsOK(rows: map<string, Life>, attempts: map<nat, Attempt>, docs: nat) {
    forall id <- attempts :: AttemptOK(rows, attempts[id], docs)
  }

  ghost predicate AimOK(c: Config, cmd: Cmd, next: nat)
    requires cmd.ZAdd?
  {
    && cmd.key in cmd.aim
    && forall t <- cmd.aim :: t.EqKey? && t.id == c.idx.id && cmd.key.EqKey? && t.enc == cmd.key.enc && t.sub < next
  }

  ghost predicate CmdOK(c: Config, rows: map<string, Life>, cmd: Cmd, next: nat) {
    && Born(rows, cmd.member)
    && (cmd.ZRem? ==> !IsCurrent(c, rows, cmd.member))
    && (cmd.ZAdd? ==>
          AimOK(c, cmd, next) && (IsCurrent(c, rows, cmd.member) ==> cmd.key.enc == EncOf(c, rows, cmd.member)))
  }

  ghost predicate PendingOK(c: Config, rows: map<string, Life>, pending: set<Cmd>, next: nat) {
    forall cmd <- pending :: CmdOK(c, rows, cmd, next)
  }

  ghost predicate StoreOK(rows: map<string, Life>, store: set<(Key, Member)>) {
    forall e <- store :: Born(rows, e.1)
  }

  /** The stamp of a member that has been placed was made by its row. */
  ghost predicate Born(rows: map<string, Life>, m: Member) {
    var life := LifeOf(rows, m.pk);
    !life.Absent? && (life.Live? ==> m.ver <= life.row.ver)
  }

  function LatestReads(c: Config, history: seq<Doc>, enc: string): set<Key>
    requires history != []
  {
    ReadKeys(c, history[|history| - 1], enc)
  }

  ghost predicate AimsOK(c: Config, attempts: map<nat, Attempt>, pending: set<Cmd>, history: seq<Doc>, floor: nat)
    requires history != []
  {
    forall enc: string :: AimsMeet(c, attempts, pending, history, floor, enc, LatestReads(c, history, enc))
  }

  /** The property itself. */
  ghost predicate NoLoss(c: Config, rows: map<string, Life>, store: set<(Key, Member)>, pending: set<Cmd>, d: Doc,
      torn: set<string>) {
    forall m: Member ::
      IsCurrent(c, rows, m) && m.pk !in torn ==> HeldIn(store, pending, ReadKeys(c, d, EncOf(c, rows, m)), m)
  }

  /** While one insertion of a write is in flight, the others are in flight or in place. */
  ghost predicate Siblings(c: Config, rows: map<string, Life>, store: set<(Key, Member)>, pending: set<Cmd>, d: Doc,
      torn: set<string>) {
    forall cmd <- pending :: cmd.ZAdd? && IsCurrent(c, rows, cmd.member) && cmd.member.pk !in torn ==>
      forall t <- cmd.aim :: t in SettledKeys(c, d, EncOf(c, rows, cmd.member)) ==> Held(store, pending, t, cmd.member)
  }

  /** No stored entry and no aim at `enc` mentions a number from `first` up. */
  ghost predicate Below(c: Config, history: seq<Doc>, pending: set<Cmd>, enc: string, first: nat) {
    && (forall d <- history :: forall b <- EntryReads(EntryOf(d, enc)) :: b < first)
    && (forall cmd <- pending ::
          cmd.ZAdd? && cmd.key.EqKey? && cmd.key.enc == enc ==> forall t <- cmd.aim :: t.EqKey? && t.sub < first)
  }

  ghost predicate JobOK(job: Job, d: Doc) {
    && job.enc in d.eq && d.eq[job.enc].split == Some(job.sp)
    && job.sp.state in {DualState(job.dir), DrainState(job.dir)}
  }

  ghost predicate ControlOK(c: Config, ctl: Control, history: seq<Doc>, pending: set<Cmd>)
    requires history != []
  {
    var d := history[|history| - 1];
    match ctl
    case Idle => true
    case Planned(enc, dir, entry, first) =>
      entry == EntryOf(d, enc) && entry.split.None? && FreshCount(dir, entry) > 0 && first == d.next
    case Reserved(enc, dir, entry, first) =>
      && entry == EntryOf(d, enc) && entry.split.None? && FreshCount(dir, entry) > 0
      && first + FreshCount(dir, entry) <= d.next
      && 0 < first && Below(c, history, pending, enc, first)
    case Ready(job) => JobOK(job, d)
    case Moving(job, final, todo, open, short, page) =>
      && JobOK(job, d) && (final ==> job.sp.state == DrainState(job.dir))
      && (forall b <- todo :: b in Sources(job.dir, job.sp))
      && (if open then todo != [] else page == map[])
    case Unlinking(job, todo) =>
      JobOK(job, d) && job.sp.state == DrainState(job.dir) && (forall b <- todo :: b in Sources(job.dir, job.sp))
    case Registering(_) => true
  }

  ghost predicate PageOK(c: Config, rows: map<string, Life>, store: set<(Key, Member)>, ctl: Control) {
    ctl.Moving? ==>
      forall m <- ctl.page ::
        && Born(rows, m)
        && (ctl.page[m].Gone? ==> LifeOf(rows, m.pk).Dead?)
        && (ctl.page[m].Copied? && IsCurrent(c, rows, m) ==>
              Targets(ctl.job.dir, ctl.job.sp) != [] && (Home(c, ctl.job, m), m) in store)
  }

  ghost predicate LastPass(ctl: Control) { (ctl.Moving? && ctl.final) || ctl.Unlinking? }

  /** A member that the last pass has still to move. */
  ghost predicate StillToMove(c: Config, store: set<(Key, Member)>, ctl: Control, m: Member) {
    && ctl.Moving?
    && ( || (exists b <- Unread(ctl) :: (K(c, ctl.job.enc, b), m) in store)
         || (ctl.open && ctl.short && m in ctl.page && (ctl.page[m].Waiting? || ctl.page[m].Alive?)))
  }

  function Unread(ctl: Control): seq<nat>
    requires ctl.Moving?
  {
    if ctl.open && ctl.short && ctl.todo != [] then ctl.todo[1..] else ctl.todo
  }

  /** During the last pass no aim is left that names old buckets alone. */
  ghost predicate FinalAims(c: Config, attempts: map<nat, Attempt>, pending: set<Cmd>, history: seq<Doc>, floor: nat,
      ctl: Control) {
    LastPass(ctl) ==> AimsMeet(c, attempts, pending, history, floor, ctl.job.enc, TargetKeys(c, ctl.job))
  }

  /** During the last pass a member is at its new place or on the list; afterwards at its new place. */
  ghost predicate FinalMembers(c: Config, rows: map<string, Life>, store: set<(Key, Member)>, pending: set<Cmd>,
      torn: set<string>, ctl: Control) {
    LastPass(ctl) ==>
      forall m: Member :: IsCurrent(c, rows, m) && m.pk !in torn && EncOf(c, rows, m) == ctl.job.enc ==>
        HeldIn(store, pending, TargetKeys(c, ctl.job), m) || StillToMove(c, store, ctl, m)
  }

  ghost predicate Inv(c: Config, s: World) {
    && s.history != []
    && DocsOK(s.history, s.floor)
    && RowsOK(c, s.rows)
    && AttemptsOK(s.rows, s.attempts, |s.history|)
    && PendingOK(c, s.rows, s.pending, CurrentDoc(s).next)
    && StoreOK(s.rows, s.store)
    && AimsOK(c, s.attempts, s.pending, s.history, s.floor)
    && NoLoss(c, s.rows, s.store, s.pending, CurrentDoc(s), s.torn)
    && Siblings(c, s.rows, s.store, s.pending, CurrentDoc(s), s.torn)
    && ControlOK(c, s.ctl, s.history, s.pending)
    && PageOK(c, s.rows, s.store, s.ctl)
    && FinalAims(c, s.attempts, s.pending, s.history, s.floor, s.ctl)
    && FinalMembers(c, s.rows, s.store, s.pending, s.torn, s.ctl)
  }

  lemma InitHolds(c: Config, s: World)
    requires ValidConfig(c) && Init(c, s)
    ensures Inv(c, s)
  {
    forall enc: string
      ensures AimsMeet(c, s.attempts, s.pending, s.history, s.floor, enc, LatestReads(c, s.history, enc))
    {
      forall i: nat, pk: string | s.floor <= i < |s.history|
        ensures AimMeets(c, s.history, i, enc, pk, LatestReads(c, s.history, enc))
      {
        FreshAimMeets(c, s.history, i, enc, pk);
      }
    }
  }

  /** A write routed by a document meets what readers of the same document visit. */
  lemma FreshAimMeets(c: Config, history: seq<Doc>, i: nat, enc: string, pk: string)
    requires i < |history| && DocOK(history[i])
    ensures AimMeets(c, history, i, enc, pk, ReadKeys(c, history[i], enc))
  {
    var d := history[i];
    WriteWithinRead(d, c.cx.hash, enc, pk);
    var b := WriteTargetsEq(d, c.cx.hash, enc, pk)[0];
    assert b in ReadBucketsEq(d, enc);
    assert K(c, enc, b) in Aim(c, d, enc, pk) && K(c, enc, b) in ReadKeys(c, d, enc);
  }

  // ----- steps that add no aim and lose no member -----------------------------------------

  /** Whatever is still in flight was in flight before, or is routed by an obtainable document. */
  ghost predicate NoNewAims(attempts: map<nat, Attempt>, pending: set<Cmd>, floor: nat, attempts': map<nat, Attempt>,
      pending': set<Cmd>, floor': nat) {
    && floor <= floor'
    && (forall id <- attempts' :: attempts'[id].snap.Some? ==>
          (id in attempts && attempts'[id] == attempts[id]) || floor <= attempts'[id].snap.value)
    && (forall cmd <- pending' :: cmd.ZAdd? ==> cmd in pending)
  }

  lemma AimsShrink(c: Config, s: World, s': World, enc: string, keys: set<Key>)
    requires AimsMeet(c, s.attempts, s.pending, s.history, s.floor, enc, keys)
    requires s'.history == s.history && AttemptsOK(s'.rows, s'.attempts, |s.history|)
    requires NoNewAims(s.attempts, s.pending, s.floor, s'.attempts, s'.pending, s'.floor)
    ensures AimsMeet(c, s'.attempts, s'.pending, s'.history, s'.floor, enc, keys)
  {
    hide AimMeets;
    forall id | id in s'.attempts && s'.attempts[id].snap.Some?
      ensures AimMeets(c, s'.history, s'.attempts[id].snap.value, enc, s'.attempts[id].pk, keys)
    {
      assert AttemptOK(s'.rows, s'.attempts[id], |s.history|);
    }
  }

  lemma AllAimsShrink(c: Config, s: World, s': World)
    requires s.history != [] && AimsOK(c, s.attempts, s.pending, s.history, s.floor)
    requires FinalAims(c, s.attempts, s.pending, s.history, s.floor, s.ctl)
    requires s'.history == s.history && s'.ctl == s.ctl && AttemptsOK(s'.rows, s'.attempts, |s.history|)
    requires NoNewAims(s.attempts, s.pending, s.floor, s'.attempts, s'.pending, s'.floor)
    ensures AimsOK(c, s'.attempts, s'.pending, s'.history, s'.floor)
    ensures FinalAims(c, s'.attempts, s'.pending, s'.history, s'.floor, s'.ctl)
  {
    hide AimsMeet, NoNewAims, AttemptsOK;
    forall enc: string
      ensures AimsMeet(c, s'.attempts, s'.pending, s'.history, s'.floor, enc, LatestReads(c, s'.history, enc))
    {
      AimsShrink(c, s, s', enc, LatestReads(c, s.history, enc));
    }
    if LastPass(s.ctl) {
      AimsShrink(c, s, s', s.ctl.job.enc, TargetKeys(c, s.ctl.job));
    }
  }

  /** Members that are current afterwards were current before, and are held wherever they were. */
  ghost predicate Keeps(c: Config, s: World, s': World) {
    && (forall m: Member :: IsCurrent(c, s'.rows, m) && m.pk !in s'.torn ==>
          && IsCurrent(c, s.rows, m) && m.pk !in s.torn && EncOf(c, s'.rows, m) == EncOf(c, s.rows, m)
          && (forall k: Key :: (k, m) in s.store ==> (k, m) in s'.store)
          && (forall k: Key :: Held(s.store, s.pending, k, m) ==> Held(s'.store, s'.pending, k, m)))
    && (forall cmd <- s'.pending :: cmd.ZAdd? ==> cmd in s.pending)
  }

  lemma KeepsMembers(c: Config, s: World, s': World)
    requires Keeps(c, s, s') && s.history != [] && s'.history == s.history
    requires NoLoss(c, s.rows, s.store, s.pending, CurrentDoc(s), s.torn)
    requires Siblings(c, s.rows, s.store, s.pending, CurrentDoc(s), s.torn)
    ensures NoLoss(c, s'.rows, s'.store, s'.pending, CurrentDoc(s), s'.torn)
    ensures Siblings(c, s'.rows, s'.store, s'.pending, CurrentDoc(s), s'.torn)
  {
    hide IsCurrent, Held, EncOf, ReadKeys, SettledKeys;
    forall m: Member | IsCurrent(c, s'.rows, m) && m.pk !in s'.torn
      ensures HeldIn(s'.store, s'.pending, ReadKeys(c, CurrentDoc(s), EncOf(c, s'.rows, m)), m)
    {
      assert HeldIn(s.store, s.pending, ReadKeys(c, CurrentDoc(s), EncOf(c, s.rows, m)), m);
    }
  }

  lemma KeepsFinal(c: Config, s: World, s': World)
    requires Keeps(c, s, s') && s'.ctl == s.ctl
    requires FinalMembers(c, s.rows, s.store, s.pending, s.torn, s.ctl)
    ensures FinalMembers(c, s'.rows, s'.store, s'.pending, s'.torn, s'.ctl)
  {
    hide IsCurrent, Held, EncOf, TargetKeys;
  }

  ghost predicate BasicsOK(c: Config, s: World) {
    && s.history != []
    && DocsOK(s.history, s.floor)
    && RowsOK(c, s.rows)
    && AttemptsOK(s.rows, s.attempts, |s.history|)
    && PendingOK(c, s.rows, s.pending, CurrentDoc(s).next)
    && StoreOK(s.rows, s.store)
    && ControlOK(c, s.ctl, s.history, s.pending)
    && PageOK(c, s.rows, s.store, s.ctl)
  }

  lemma ShrinkStep(c: Config, s: World, s': World)
    requires Inv(c, s) && s'.history == s.history && s'.ctl == s.ctl
    requires BasicsOK(c, s') && Keeps(c, s, s')
    requires NoNewAims(s.attempts, s.pending, s.floor, s'.attempts, s'.pending, s'.floor)
    ensures Inv(c, s')
  {
    hide NoLoss, Siblings, RowsOK, PendingOK, StoreOK, ControlOK, AttemptsOK, PageOK, AimsOK, FinalAims, FinalMembers,
         NoNewAims, Keeps;
    AllAimsShrink(c, s, s');
    KeepsMembers(c, s, s');
    KeepsFinal(c, s, s');
  }
}
