/**
 * Online split and merge of equality buckets, run against any number of concurrent
 * writers that hold older routing documents.
 *
 * The state is that of the store plus the local state of every party: each Redis command
 * and each script is one step, commands of one pipeline land in any order, and a party may
 * stop between any two of its steps. The table's index under study is `idx`; commands of
 * other indexes address other keys and are not part of the state.
 */
module EqProtocol {
  import opened Wrappers
  import opened BucketMap
  import opened WritePath

  /**
   * What the grace period outlasts before the last pass of a drain: attempts that are routed
   * by an older document, caches that may still serve one, and insertions in flight.
   */
  datatype Waits = Waits(attempts: bool, caches: bool, inFlight: bool)

  datatype Config = Config(cx: Codec, indexes: seq<IndexDef>, idx: IndexDef, batch: nat, waits: Waits)

  predicate Graceful(c: Config) { c.waits.attempts && c.waits.caches && c.waits.inFlight }

  ghost predicate ValidConfig(c: Config) {
    && c.idx in c.indexes && DistinctIds(c.indexes) && c.batch > 0
    && !c.idx.async && !c.idx.kind.Range? && !c.idx.prefixCopy && c.idx.covering == []
  }

  /**
   * A primary key is inserted once; deletion and expiry are final. A living row is cut off when
   * a deletion was refused for want of log space and yet sent removals of the row's members.
   */
  datatype Life = Absent | Live(row: Row, cut: bool) | Dead

  /** An index command on its way; an insertion carries the keys its write aimed at. */
  datatype Cmd = ZAdd(key: Key, member: Member, aim: set<Key>) | ZRem(key: Key, member: Member)

  /** A write between its reads and its script: the row it saw and the document it routes by. */
  datatype Attempt = Attempt(pk: string, seen: Option<Row>, snap: Option<nat>)

  /** What the controller knows about one member of the page it is moving. */
  datatype Item = Waiting | Alive | Gone | Copied

  datatype Job = Job(enc: string, dir: Direction, sp: SplitInfo)

  datatype Control =
    | Idle
    | Planned(enc: string, dir: Direction, entry: EqEntry, first: nat)
    | Reserved(enc: string, dir: Direction, entry: EqEntry, first: nat)
    | Ready(job: Job)
    | Moving(job: Job, final: bool, todo: seq<nat>, open: bool, short: bool, page: map<Member, Item>)
    | Unlinking(job: Job, todo: seq<nat>)
    | Registering(enc: string)

  datatype World = World(
    rows: map<string, Life>,
    store: set<(Key, Member)>,
    pending: set<Cmd>,
    attempts: map<nat, Attempt>,
    history: seq<Doc>,       // every document ever stored, the current one last
    floor: nat,              // no cache serves a document older than this any more
    torn: set<string>,       // rows whose second stage failed and was not repeated
    hot: set<string>,        // the hot-value registry
    ctl: Control)

  function CurrentDoc(s: World): Doc
    requires s.history != []
  {
    s.history[|s.history| - 1]
  }

  function LifeOf(rows: map<string, Life>, pk: string): Life { if pk in rows then rows[pk] else Absent }

  predicate CutOff(s: World, pk: string) { LifeOf(s.rows, pk).Live? && s.rows[pk].cut }

  function RowOf(l: Life): Option<Row> { if l.Live? then Some(l.row) else None }

  /** The row's column and stamp call for the member. */
  ghost predicate CalledFor(c: Config, rows: map<string, Life>, m: Member) {
    && LifeOf(rows, m.pk).Live?
    && c.idx.column in rows[m.pk].row.cols
    && m == Plain(m.pk, IvOf(Some(rows[m.pk].row), c.idx.id))
  }

  function K(c: Config, enc: string, b: nat): Key { EqKey(c.idx.id, enc, b) }

  function Keys(c: Config, enc: string, bs: seq<nat>): set<Key> { set b <- bs :: K(c, enc, b) }

  /** The keys a writer with document `d` aims at for value `enc`. */
  function Aim(c: Config, d: Doc, enc: string, pk: string): set<Key>
    requires ValidEq(d)
  {
    Keys(c, enc, WriteTargetsEq(d, c.cx.hash, enc, pk))
  }

  function Adds(redos: seq<Redo>): set<Cmd> {
    var aim := set r <- redos :: r.key;
    set r <- redos :: ZAdd(r.key, r.member, aim)
  }

  function Rems(undos: seq<Undo>): set<Cmd> { set u <- undos :: ZRem(u.key, u.member) }

  function SourceKeys(c: Config, job: Job): set<Key> { Keys(c, job.enc, Sources(job.dir, job.sp)) }
  function TargetKeys(c: Config, job: Job): set<Key> { Keys(c, job.enc, Targets(job.dir, job.sp)) }

  /** The bucket a member moves to, by the hash the writers use. */
  function Home(c: Config, job: Job, m: Member): Key
    requires Targets(job.dir, job.sp) != []
  {
    var ts := Targets(job.dir, job.sp);
    K(c, job.enc, ts[EqSubFor(c.cx.hash, m.pk, |ts|)])
  }

  function BucketOf(store: set<(Key, Member)>, k: Key): set<Member> { set e <- store | e.0 == k :: e.1 }

  // ----- writers ------------------------------------------------------------------------

  ghost predicate ReadRow(c: Config, s: World, s': World, id: nat, pk: string) {
    && id !in s.attempts && !LifeOf(s.rows, pk).Dead?
    && s' == s.(attempts := s.attempts[id := Attempt(pk, RowOf(LifeOf(s.rows, pk)), None)])
  }

  /** The routing document comes from a cache: any stored document not older than the floor. */
  ghost predicate LoadDoc(c: Config, s: World, s': World, id: nat, i: nat) {
    && id in s.attempts && s.attempts[id].snap.None? && s.floor <= i < |s.history|
    && s' == s.(attempts := s.attempts[id := s.attempts[id].(snap := Some(i))])
  }

  ghost predicate Routed(s: World, id: nat) {
    && id in s.attempts && s.attempts[id].snap.Some? && s.attempts[id].snap.value < |s.history|
    && ValidEq(s.history[s.attempts[id].snap.value]) && s.history[s.attempts[id].snap.value].ranges != []
  }

  /** The script commits if the version is still the one observed; the index commands follow. */
  ghost predicate Commit(c: Config, s: World, s': World, id: nat, after: map<string, string>) {
    && Routed(s, id)
    && var a := s.attempts[id];
    && var life := LifeOf(s.rows, a.pk);
    && !life.Dead? && OldVer(RowOf(life)) == OldVer(a.seen)
    && var d := Some(s.history[a.snap.value]);
    && s' == s.(
         rows := s.rows[a.pk := Live(RowAfter(c.cx, c.indexes, a.seen, after),
                                     life.Live? && life.cut && !Redone(c.idx, Columns(a.seen), after))],
         pending := s.pending + Rems(UndosFor(c.cx, c.idx, a.pk, a.seen, after, d)) +
             Adds(RedosFor(c.cx, c.idx, a.pk, a.seen, after, d)),
         torn := if Redone(c.idx, Columns(a.seen), after) then s.torn - {a.pk} else s.torn,
         attempts := s.attempts - {id})
  }

  ghost predicate Delete(c: Config, s: World, s': World, id: nat) {
    && Routed(s, id)
    && var a := s.attempts[id];
    && var life := LifeOf(s.rows, a.pk);
    && life.Live? && OldVer(RowOf(life)) == OldVer(a.seen)
    && s' == s.(
         rows := s.rows[a.pk := Dead],
         pending := s.pending + Rems(UndosFor(c.cx, c.idx, a.pk, a.seen, map[], Some(s.history[a.snap.value]))),
         attempts := s.attempts - {id})
  }

  predicate SyncOnly(indexes: seq<IndexDef>) { forall idx <- indexes :: !idx.async }

  /** The deletion of the row leaves an entry in the log of some asynchronous index. */
  predicate Logged(indexes: seq<IndexDef>, row: Row) { exists idx <- indexes :: idx.async && idx.column in row.cols }

  /**
   * The script refuses a deletion when one of its logs is full. Its reply names the version,
   * and the caller takes a 1 there for a deleted row: it sends the removals, of a row that lives.
   */
  ghost predicate Refuse(c: Config, s: World, s': World, id: nat) {
    && Routed(s, id)
    && var a := s.attempts[id];
    && var life := LifeOf(s.rows, a.pk);
    && life.Live? && OldVer(RowOf(life)) == OldVer(a.seen) && Logged(c.indexes, life.row)
    && s' == s.(
         rows := s.rows[a.pk := life.(cut := life.cut || life.row.ver == 1)],
         pending := s.pending +
             if life.row.ver != 1 then {}
             else Rems(UndosFor(c.cx, c.idx, a.pk, a.seen, map[], Some(s.history[a.snap.value]))),
         attempts := s.attempts - {id})
  }

  /** A stale reply, a write refused for log space, or a writer that stops before its script. */
  ghost predicate Abandon(c: Config, s: World, s': World, id: nat) {
    s' == s.(attempts := s.attempts - {id})
  }

  ghost predicate Expire(c: Config, s: World, s': World, pk: string) {
    && LifeOf(s.rows, pk).Live?
    && s' == s.(rows := s.rows[pk := Dead])
  }

  ghost predicate Land(c: Config, s: World, s': World, cmd: Cmd) {
    && cmd in s.pending
    && s' == s.(
         pending := s.pending - {cmd},
         store := if cmd.ZAdd? then s.store + {(cmd.key, cmd.member)} else s.store - {(cmd.key, cmd.member)})
  }

  /**
   * A command whose pipeline failed. If it inserts the member that the row calls for, the row
   * is torn until its column changes again.
   */
  ghost predicate Lose(c: Config, s: World, s': World, cmd: Cmd) {
    && cmd in s.pending
    && s' == s.(
         pending := s.pending - {cmd},
         torn := if cmd.ZAdd? && CalledFor(c, s.rows, cmd.member) then s.torn + {cmd.member.pk} else s.torn)
  }

  /** The sweeper removes members of rows that are gone. */
  ghost predicate Sweep(c: Config, s: World, s': World, e: (Key, Member)) {
    && LifeOf(s.rows, e.1.pk).Dead?
    && s' == s.(store := s.store - {e})
  }

  /** Caches get fresher with time. */
  ghost predicate Age(c: Config, s: World, s': World, floor: nat) {
    && s.floor <= floor < |s.history|
    && s' == s.(floor := floor)
  }

  // ----- the controller -----------------------------------------------------------------

  ghost predicate Plan(c: Config, s: World, s': World, enc: string, dir: Direction) {
    && s.ctl.Idle? && s.history != []
    && var d := CurrentDoc(s);
    && var e := EntryOf(d, enc);
    && e.split.None? && (dir.Merge? ==> |e.buckets| > 1)
    && s' == s.(ctl := Planned(enc, dir, e, d.next))
  }

  /** A restarted controller picks up an entry that is already under way. */
  ghost predicate Resume(c: Config, s: World, s': World, enc: string, dir: Direction) {
    && s.ctl.Idle? && s.history != []
    && var e := EntryOf(CurrentDoc(s), enc);
    && e.split.Some? && e.split.value.state in {DualState(dir), DrainState(dir)} && (dir.Merge? ==> |e.buckets| > 1)
    && s' == s.(ctl := Ready(Job(enc, dir, e.split.value)))
  }

  ghost predicate Reserve(c: Config, s: World, s': World) {
    && s.ctl.Planned? && s.history != []
    && var d := CurrentDoc(s);
    && s' == s.(
         history := s.history + [d.(version := d.version + 1, next := d.next + FreshCount(s.ctl.dir, s.ctl.entry))],
         ctl := Reserved(s.ctl.enc, s.ctl.dir, s.ctl.entry, s.ctl.first))
  }

  ghost predicate Start(c: Config, s: World, s': World) {
    && s.ctl.Reserved? && s.history != []
    && var d := CurrentDoc(s);
    && var e := Begin(s.ctl.dir, s.ctl.entry, s.ctl.first);
    && s' == s.(
         history := s.history + [d.(version := d.version + 1, eq := d.eq[s.ctl.enc := e])],
         ctl := Ready(Job(s.ctl.enc, s.ctl.dir, e.split.value)))
  }

  ghost predicate Meets(a: set<Key>, b: set<Key>) { exists k <- a :: k in b }

  /** Every aim at `enc` that is in flight, routed or still obtainable includes one of `keys`. */
  ghost predicate AimsMeet(c: Config, attempts: map<nat, Attempt>, pending: set<Cmd>, history: seq<Doc>, floor: nat,
      enc: string, keys: set<Key>) {
    && AttemptsMeet(c, attempts, history, enc, keys) && CachesMeet(c, history, floor, enc, keys)
    && InFlightMeet(pending, enc, keys)
  }

  ghost predicate AttemptsMeet(c: Config, attempts: map<nat, Attempt>, history: seq<Doc>, enc: string, keys: set<Key>) {
    forall id <- attempts ::
      attempts[id].snap.Some? ==> AimMeets(c, history, attempts[id].snap.value, enc, attempts[id].pk, keys)
  }

  ghost predicate CachesMeet(c: Config, history: seq<Doc>, floor: nat, enc: string, keys: set<Key>) {
    forall i: nat, pk: string :: floor <= i < |history| ==> AimMeets(c, history, i, enc, pk, keys)
  }

  ghost predicate InFlightMeet(pending: set<Cmd>, enc: string, keys: set<Key>) {
    forall cmd <- pending :: cmd.ZAdd? && cmd.key.EqKey? && cmd.key.enc == enc ==> Meets(cmd.aim, keys)
  }

  /** The grace period is over. */
  ghost predicate Waited(c: Config, s: World, enc: string, keys: set<Key>) {
    && (c.waits.attempts ==> AttemptsMeet(c, s.attempts, s.history, enc, keys))
    && (c.waits.caches ==> CachesMeet(c, s.history, s.floor, enc, keys))
    && (c.waits.inFlight ==> InFlightMeet(s.pending, enc, keys))
  }

  ghost predicate AimMeets(c: Config, history: seq<Doc>, i: nat, enc: string, pk: string, keys: set<Key>) {
    i < |history| && ValidEq(history[i]) && Meets(Aim(c, history[i], enc, pk), keys)
  }

  /**
   * A pass over the source buckets. With a long enough grace period the last pass of the
   * drain starts only when no write aimed at old buckets alone is left; the code itself
   * looks at the clock after a pass, never before one.
   */
  ghost predicate StartPass(c: Config, s: World, s': World, final: bool) {
    && s.ctl.Ready?
    && (final ==>
          && s.ctl.job.sp.state == DrainState(s.ctl.job.dir)
          && Waited(c, s, s.ctl.job.enc, TargetKeys(c, s.ctl.job)))
    && s' == s.(ctl := Moving(s.ctl.job, final, Sources(s.ctl.job.dir, s.ctl.job.sp), false, false, map[]))
  }

  /** ZRANGE of the first page: `batch` members, or the whole bucket when it holds fewer. */
  ghost predicate OpenPage(c: Config, s: World, s': World, page: set<Member>) {
    && s.ctl.Moving? && !s.ctl.open && s.ctl.todo != []
    && var bucket := BucketOf(s.store, K(c, s.ctl.job.enc, s.ctl.todo[0]));
    && page <= bucket && |page| <= c.batch && (|page| < c.batch ==> page == bucket)
    && s' == s.(ctl := s.ctl.(open := true, short := |page| < c.batch, page := map m <- page :: Waiting))
  }

  ghost predicate CheckItem(c: Config, s: World, s': World, m: Member) {
    && s.ctl.Moving? && s.ctl.open && m in s.ctl.page && s.ctl.page[m].Waiting?
    && s' == s.(ctl := s.ctl.(page := s.ctl.page[m := if LifeOf(s.rows, m.pk).Live? then Alive else Gone]))
  }

  /** ZADD of a living member to its new bucket. */
  ghost predicate CopyItem(c: Config, s: World, s': World, m: Member) {
    && s.ctl.Moving? && s.ctl.open && m in s.ctl.page && s.ctl.page[m].Alive?
    && Targets(s.ctl.job.dir, s.ctl.job.sp) != []
    && s' == s.(
         store := s.store + {(Home(c, s.ctl.job, m), m)},
         ctl := s.ctl.(page := s.ctl.page[m := Copied]))
  }

  /** ZREM from the old bucket, after the copy or when the row is gone. */
  ghost predicate RemoveItem(c: Config, s: World, s': World, m: Member) {
    && s.ctl.Moving? && s.ctl.open && s.ctl.todo != [] && m in s.ctl.page
    && (s.ctl.page[m].Copied? || s.ctl.page[m].Gone?)
    && s' == s.(
         store := s.store - {(K(c, s.ctl.job.enc, s.ctl.todo[0]), m)},
         ctl := s.ctl.(page := s.ctl.page - {m}))
  }

  /** A short page was the bucket's last; after a full one the next page is read. */
  ghost predicate ClosePage(c: Config, s: World, s': World) {
    && s.ctl.Moving? && s.ctl.open && s.ctl.page == map[] && s.ctl.todo != []
    && s' == s.(ctl := s.ctl.(open := false, short := false,
                              todo := if s.ctl.short then s.ctl.todo[1..] else s.ctl.todo))
  }

  ghost predicate EndPass(c: Config, s: World, s': World) {
    && s.ctl.Moving? && !s.ctl.open && s.ctl.todo == []
    && s' == s.(ctl := if s.ctl.final then Unlinking(s.ctl.job, Sources(s.ctl.job.dir, s.ctl.job.sp))
        else Ready(s.ctl.job))
  }

  /** CAS of the freshly read entry to its draining state, once a pass is through. */
  ghost predicate Drain(c: Config, s: World, s': World) {
    && s.ctl.Moving? && !s.ctl.open && s.ctl.todo == [] && s.history != []
    && s.ctl.job.sp.state == DualState(s.ctl.job.dir)
    && var d := CurrentDoc(s);
    && s.ctl.job.enc in d.eq && d.eq[s.ctl.job.enc].split.Some?
    && var e := ToDrain(s.ctl.job.dir, d.eq[s.ctl.job.enc]);
    && s' == s.(
         history := s.history + [d.(version := d.version + 1, eq := d.eq[s.ctl.job.enc := e])],
         ctl := Ready(s.ctl.job.(sp := e.split.value)))
  }

  ghost predicate Unlink(c: Config, s: World, s': World) {
    && s.ctl.Unlinking? && s.ctl.todo != []
    && var k := K(c, s.ctl.job.enc, s.ctl.todo[0]);
    && s' == s.(
         store := (set e <- s.store | e.0 != k),
         ctl := s.ctl.(todo := s.ctl.todo[1..]))
  }

  ghost predicate Publish(c: Config, s: World, s': World) {
    && s.ctl.Unlinking? && s.ctl.todo == [] && s.history != []
    && var d := CurrentDoc(s);
    && s' == s.(
         history := s.history + [d.(version := d.version + 1,
             eq := d.eq[s.ctl.job.enc := Finish(s.ctl.job.dir, s.ctl.job.sp)])],
         ctl := if s.ctl.job.dir.Split? then Registering(s.ctl.job.enc) else Idle)
  }

  ghost predicate Register(c: Config, s: World, s': World) {
    && s.ctl.Registering?
    && s' == s.(hot := s.hot + {s.ctl.enc}, ctl := Idle)
  }

  /** The controller stops, or gives a call up, after any single command. */
  ghost predicate Crash(c: Config, s: World, s': World) {
    s' == s.(ctl := Idle)
  }

  // ----- runs ---------------------------------------------------------------------------

  ghost predicate Init(c: Config, s: World) {
    s == World(map[], {}, {}, map[], [DefaultDoc()], 0, {}, {}, Idle)
  }

  ghost predicate WriterStep(c: Config, s: World, s': World) {
    || (exists id: nat, pk: string :: ReadRow(c, s, s', id, pk))
    || (exists id: nat, i: nat :: LoadDoc(c, s, s', id, i))
    || (exists id: nat, after: map<string, string> :: Commit(c, s, s', id, after))
    || (exists id: nat :: Delete(c, s, s', id))
    || (exists id: nat :: Refuse(c, s, s', id))
    || (exists id: nat :: Abandon(c, s, s', id))
    || (exists pk: string :: Expire(c, s, s', pk))
    || (exists cmd: Cmd :: Land(c, s, s', cmd))
    || (exists cmd: Cmd :: Lose(c, s, s', cmd))
    || (exists e: (Key, Member) :: Sweep(c, s, s', e))
    || (exists floor: nat :: Age(c, s, s', floor))
  }

  ghost predicate ControlStep(c: Config, s: World, s': World) {
    || (exists enc: string, dir: Direction :: Plan(c, s, s', enc, dir))
    || (exists enc: string, dir: Direction :: Resume(c, s, s', enc, dir))
    || Reserve(c, s, s')
    || Start(c, s, s')
    || (exists final: bool :: StartPass(c, s, s', final))
    || (exists page: set<Member> :: OpenPage(c, s, s', page))
    || (exists m: Member :: CheckItem(c, s, s', m))
    || (exists m: Member :: CopyItem(c, s, s', m))
    || (exists m: Member :: RemoveItem(c, s, s', m))
    || ClosePage(c, s, s')
    || EndPass(c, s, s')
    || Drain(c, s, s')
    || Unlink(c, s, s')
    || Publish(c, s, s')
    || Register(c, s, s')
    || Crash(c, s, s')
  }

  ghost predicate Next(c: Config, s: World, s': World) { WriterStep(c, s, s') || ControlStep(c, s, s') }

  ghost predicate Run(c: Config, run: seq<World>) {
    && run != [] && Init(c, run[0])
    && forall i :: 0 <= i < |run| - 1 ==> Next(c, run[i], run[i + 1])
  }
}
