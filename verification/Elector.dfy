/**
 * Election by a timed lock: every node campaigns with SET NX PX, the winner runs its role and
 * renews the lock at every third of its time to live, and a failed renewal ends the role.
 * Commands reach the store some time after they are sent, or never; the clock is shared.
 */
module Elector {
  import opened Wrappers

  /** `hear`: a granted SET is heard of in less than this time after it was sent, or not at all.
      `lateRelease`: a release may take effect after the call that sent it has returned. */
  datatype Config = Config(ttl: real, hear: real, lateRelease: bool)

  /** The bound that the election rests on. */
  predicate Prompt(c: Config) { c.hear <= c.ttl / 3.0 }

  datatype Kind = Acquire | Renew | Release
  datatype Outcome = Unheard | Took(granted: bool, at: real)

  /** A command a node has sent; it takes effect at most once. */
  datatype Request = Request(kind: Kind, node: nat, sent: real, outcome: Outcome)

  /** Live: the role runs; `tick` is when it began or last ticked. Stopping: it is cancelled. */
  datatype Node =
    | Idle
    | Asking(request: nat)
    | Live(tick: real, renewing: Option<nat>)
    | Stopping
    | Releasing(request: nat)

  datatype Lock = Lock(token: nat, expires: real)

  datatype World = World(now: real, lock: Option<Lock>, nodes: map<nat, Node>, requests: seq<Request>)

  function NodeOf(w: World, n: nat): Node { if n in w.nodes then w.nodes[n] else Idle }

  /** The key exists until it expires. */
  predicate Taken(w: World) { w.lock.Some? && w.now < w.lock.value.expires }

  predicate TakenBy(w: World, n: nat) { Taken(w) && w.lock.value.token == n }

  predicate Open(w: World, r: nat, kind: Kind) {
    r < |w.requests| && w.requests[r].kind == kind && w.requests[r].outcome.Unheard?
  }

  predicate Heard(w: World, r: nat) { r < |w.requests| && w.requests[r].outcome.Took? }

  function Put(w: World, n: nat, node: Node): World { w.(nodes := w.nodes[n := node]) }

  function Send(w: World, n: nat, kind: Kind): World { w.(requests := w.requests + [Request(kind, n, w.now, Unheard)]) }

  function Effect(w: World, r: nat, granted: bool): World
    requires r < |w.requests|
  {
    w.(requests := w.requests[r := w.requests[r].(outcome := Took(granted, w.now))])
  }

  // ----- the store's steps --------------------------------------------------------------------

  /** SET key token PX ttl NX. */
  ghost predicate TakeAcquire(c: Config, w: World, w': World, r: nat) {
    && Open(w, r, Acquire)
    && w' == if Taken(w) then Effect(w, r, false)
             else Effect(w, r, true).(lock := Some(Lock(w.requests[r].node, w.now + c.ttl)))
  }

  /** The renewal script: only the holder's token extends the lock. */
  ghost predicate TakeRenew(c: Config, w: World, w': World, r: nat) {
    && Open(w, r, Renew)
    && w' == if TakenBy(w, w.requests[r].node)
             then Effect(w, r, true).(lock := Some(Lock(w.requests[r].node, w.now + c.ttl)))
             else Effect(w, r, false)
  }

  /** The release script: only the holder's token deletes the lock. */
  ghost predicate TakeRelease(c: Config, w: World, w': World, r: nat) {
    && Open(w, r, Release)
    && (c.lateRelease || NodeOf(w, w.requests[r].node) == Releasing(r))
    && w' == if TakenBy(w, w.requests[r].node) then Effect(w, r, true).(lock := None) else Effect(w, r, false)
  }

  // ----- the nodes' steps ---------------------------------------------------------------------

  ghost predicate Campaign(c: Config, w: World, w': World, n: nat) {
    NodeOf(w, n).Idle? && w' == Put(Send(w, n, Acquire), n, Asking(|w.requests|))
  }

  ghost predicate HearAcquire(c: Config, w: World, w': World, n: nat) {
    && NodeOf(w, n).Asking?
    && var r := NodeOf(w, n).request;
    && Heard(w, r)
    && (w.requests[r].outcome.granted ==> w.now < w.requests[r].sent + c.hear)
    && w' == Put(w, n, if w.requests[r].outcome.granted then Live(w.now, None) else Idle)
  }

  /** An error or a timeout of the SET, which may still take effect. */
  ghost predicate GiveUp(c: Config, w: World, w': World, n: nat) {
    NodeOf(w, n).Asking? && w' == Put(w, n, Idle)
  }

  /** The ticker fires: a renewal is sent, or a busy node concedes. */
  ghost predicate Tick(c: Config, w: World, w': World, n: nat, busy: bool) {
    && NodeOf(w, n).Live? && NodeOf(w, n).renewing.None? && w.now == NodeOf(w, n).tick + c.ttl / 3.0
    && w' == if busy then Put(w, n, Stopping) else Put(Send(w, n, Renew), n, Live(w.now, Some(|w.requests|)))
  }

  ghost predicate HearRenew(c: Config, w: World, w': World, n: nat) {
    && NodeOf(w, n).Live? && NodeOf(w, n).renewing.Some?
    && var r := NodeOf(w, n).renewing.value;
    && Heard(w, r)
    && w' == Put(w, n, if w.requests[r].outcome.granted then Live(NodeOf(w, n).tick, None) else Stopping)
  }

  /** A failed or timed-out renewal, or the end of the role itself. */
  ghost predicate EndRole(c: Config, w: World, w': World, n: nat) {
    NodeOf(w, n).Live? && w' == Put(w, n, Stopping)
  }

  ghost predicate LetGo(c: Config, w: World, w': World, n: nat) {
    NodeOf(w, n).Stopping? && w' == Put(Send(w, n, Release), n, Releasing(|w.requests|))
  }

  /** The release call returns, with a reply or by its timeout. */
  ghost predicate Return(c: Config, w: World, w': World, n: nat) {
    NodeOf(w, n).Releasing? && w' == Put(w, n, Idle)
  }

  ghost predicate Crash(c: Config, w: World, w': World, n: nat) { w' == Put(w, n, Idle) }

  /** Time passes; no live role sleeps through a tick or through a renewal's timeout. */
  ghost predicate Pass(c: Config, w: World, w': World, d: real) {
    && d > 0.0
    && (forall n <- w.nodes :: w.nodes[n].Live? ==> w.now + d <= w.nodes[n].tick + c.ttl / 3.0)
    && w' == w.(now := w.now + d)
  }

  // ----- runs ---------------------------------------------------------------------------------

  ghost predicate Init(w: World) { w == World(0.0, None, map[], []) }

  ghost predicate StoreStep(c: Config, w: World, w': World) {
    exists r: nat :: TakeAcquire(c, w, w', r) || TakeRenew(c, w, w', r) || TakeRelease(c, w, w', r)
  }

  ghost predicate NodeStep(c: Config, w: World, w': World, n: nat) {
    || Campaign(c, w, w', n) || HearAcquire(c, w, w', n) || GiveUp(c, w, w', n)
    || Tick(c, w, w', n, false) || Tick(c, w, w', n, true) || HearRenew(c, w, w', n) || EndRole(c, w, w', n)
    || LetGo(c, w, w', n) || Return(c, w, w', n) || Crash(c, w, w', n)
  }

  ghost predicate Next(c: Config, w: World, w': World) {
    || StoreStep(c, w, w')
    || (exists n: nat :: NodeStep(c, w, w', n))
    || (exists d: real :: Pass(c, w, w', d))
  }

  ghost predicate Run(c: Config, run: seq<World>) {
    && run != [] && Init(run[0])
    && forall i :: 0 <= i < |run| - 1 ==> Next(c, run[i], run[i + 1])
  }

  // ----- what keeps the roles apart ------------------------------------------------------------

  predicate OwnRequest(w: World, n: nat, r: nat, kind: Kind) {
    r < |w.requests| && w.requests[r].kind == kind && w.requests[r].node == n
  }

  predicate HoldsUntil(w: World, n: nat, t: real) {
    w.lock.Some? && w.lock.value.token == n && w.lock.value.expires >= t
  }

  /** What the store still guarantees to one node in its present state. */
  ghost predicate NodeOK(c: Config, w: World, n: nat, node: Node) {
    match node
    case Asking(r) =>
      && OwnRequest(w, n, r, Acquire)
      && var o := w.requests[r].outcome;
         (o.Took? && o.granted && w.now < o.at + c.ttl ==> HoldsUntil(w, n, o.at + c.ttl))
    case Live(tick, renewing) =>
      && tick <= w.now <= tick + c.ttl / 3.0
      && match renewing {
           case None => w.lock.Some? && w.lock.value.token == n && w.lock.value.expires > tick + 2.0 * (c.ttl / 3.0)
           case Some(r) =>
             && OwnRequest(w, n, r, Renew) && w.requests[r].sent == tick
             && w.lock.Some? && w.lock.value.token == n && w.lock.value.expires > tick + c.ttl / 3.0
             && var o := w.requests[r].outcome;
                (o.Took? && o.granted ==> HoldsUntil(w, n, o.at + c.ttl))
         }
    case Releasing(r) => OwnRequest(w, n, r, Release)
    case _ => true
  }

  predicate RequestOK(w: World, r: Request) { r.sent <= w.now && (r.outcome.Took? ==> r.sent <= r.outcome.at <= w.now) }

  ghost predicate Inv(c: Config, w: World) {
    && (forall n <- w.nodes :: NodeOK(c, w, n, w.nodes[n]))
    && (forall r <- w.requests :: RequestOK(w, r))
  }

  lemma RequestsStayOK(w: World, w': World, r: nat, granted: bool)
    requires r < |w.requests| && (forall q <- w.requests :: RequestOK(w, q)) && w'.now == w.now
    requires w'.requests == Effect(w, r, granted).requests
    ensures forall q <- w'.requests :: RequestOK(w', q)
  {
    forall q | q in w'.requests ensures RequestOK(w', q) {
      var i :| 0 <= i < |w'.requests| && w'.requests[i] == q;
      assert w.requests[i] in w.requests;
    }
  }

  lemma TakeAcquireKeeps(c: Config, w: World, w': World, r: nat)
    requires c.ttl > 0.0 && Inv(c, w) && TakeAcquire(c, w, w', r)
    ensures Inv(c, w')
  {
    RequestsStayOK(w, w', r, !Taken(w));
    forall n | n in w'.nodes ensures NodeOK(c, w', n, w'.nodes[n]) {
      assert NodeOK(c, w, n, w.nodes[n]);
    }
  }

  lemma TakeRenewKeeps(c: Config, w: World, w': World, r: nat)
    requires c.ttl > 0.0 && Inv(c, w) && TakeRenew(c, w, w', r)
    ensures Inv(c, w')
  {
    RequestsStayOK(w, w', r, TakenBy(w, w.requests[r].node));
    forall n | n in w'.nodes ensures NodeOK(c, w', n, w'.nodes[n]) {
      assert NodeOK(c, w, n, w.nodes[n]);
      if w.nodes[n].Asking? {
        assert w.requests[w.nodes[n].request] in w.requests;
      } else if w.nodes[n].Live? && w.nodes[n].renewing.Some? {
        assert w.requests[w.nodes[n].renewing.value] in w.requests;
      }
    }
  }

  lemma TakeReleaseKeeps(c: Config, w: World, w': World, r: nat)
    requires c.ttl > 0.0 && !c.lateRelease && Inv(c, w) && TakeRelease(c, w, w', r)
    ensures Inv(c, w')
  {
    RequestsStayOK(w, w', r, TakenBy(w, w.requests[r].node));
    forall n | n in w'.nodes ensures NodeOK(c, w', n, w'.nodes[n]) {
      assert NodeOK(c, w, n, w.nodes[n]);
    }
  }

  lemma NodeStepKeeps(c: Config, w: World, w': World, n: nat)
    requires c.ttl > 0.0 && Prompt(c) && Inv(c, w) && NodeStep(c, w, w', n)
    ensures Inv(c, w')
  {
    if n in w.nodes {
      assert NodeOK(c, w, n, w.nodes[n]);
    }
    if NodeOf(w, n).Asking? {
      assert w.requests[NodeOf(w, n).request] in w.requests;
    } else if NodeOf(w, n).Live? && NodeOf(w, n).renewing.Some? {
      assert w.requests[NodeOf(w, n).renewing.value] in w.requests;
    }
    forall m | m in w'.nodes ensures NodeOK(c, w', m, w'.nodes[m]) {
      if m != n { assert NodeOK(c, w, m, w.nodes[m]); }
    }
  }

  lemma PassKeeps(c: Config, w: World, w': World, d: real)
    requires c.ttl > 0.0 && Inv(c, w) && Pass(c, w, w', d)
    ensures Inv(c, w')
  {
    forall n | n in w'.nodes ensures NodeOK(c, w', n, w'.nodes[n]) {
      assert NodeOK(c, w, n, w.nodes[n]);
    }
  }

  lemma InitKeepsInv(c: Config, w: World)
    requires Init(w)
    ensures Inv(c, w)
  {
  }

  lemma {:induction false} RunKeepsInv(c: Config, run: seq<World>, i: nat)
    requires c.ttl > 0.0 && Prompt(c) && !c.lateRelease && Run(c, run) && i < |run|
    ensures Inv(c, run[i])
  {
    hide Inv, TakeAcquire, TakeRenew, TakeRelease, NodeStep, Pass;
    if i == 0 {
      InitKeepsInv(c, run[0]);
    } else {
      RunKeepsInv(c, run, i - 1);
      var w, w' := run[i - 1], run[i - 1 + 1];
      assert Next(c, w, w');
      if n: nat :| NodeStep(c, w, w', n) {
        NodeStepKeeps(c, w, w', n);
      } else if d: real :| Pass(c, w, w', d) {
        PassKeeps(c, w, w', d);
      } else {
        var r: nat :| TakeAcquire(c, w, w', r) || TakeRenew(c, w, w', r) || TakeRelease(c, w, w', r);
        if TakeAcquire(c, w, w', r) {
          TakeAcquireKeeps(c, w, w', r);
        } else if TakeRenew(c, w, w', r) {
          TakeRenewKeeps(c, w, w', r);
        } else {
          TakeReleaseKeeps(c, w, w', r);
        }
      }
    }
  }

  // ----- the theorem ---------------------------------------------------------------------------

  ghost predicate OneRole(w: World) { forall n: nat, m: nat :: NodeOf(w, n).Live? && NodeOf(w, m).Live? ==> n == m }

  /** A node whose role runs still holds the lock, with time to spare for its next renewal. */
  lemma LiveRoleHoldsLock(c: Config, run: seq<World>, i: nat, n: nat)
    requires c.ttl > 0.0 && Prompt(c) && !c.lateRelease && Run(c, run) && i < |run| && NodeOf(run[i], n).Live?
    ensures TakenBy(run[i], n)
    ensures NodeOf(run[i], n).renewing.None? ==>
              run[i].lock.value.expires > NodeOf(run[i], n).tick + 2.0 * (c.ttl / 3.0)
  {
    RunKeepsInv(c, run, i);
    assert NodeOK(c, run[i], n, run[i].nodes[n]);
  }

  ghost predicate Safe(c: Config) { forall run: seq<World>, i: nat :: Run(c, run) && i < |run| ==> OneRole(run[i]) }

  /**
   * There is never more than one role exactly when grants are heard of within a third of the
   * time to live and no release is late, or no grant is ever heard of.
   */
  lemma OneRoleIffTimely(c: Config)
    requires c.ttl > 0.0
    ensures Safe(c) <==> c.hear <= 0.0 || (c.hear <= c.ttl / 3.0 && !c.lateRelease)
  {
    hide Run, OneRole;
    if c.hear <= 0.0 {
      forall run: seq<World>, i: nat | Run(c, run) && i < |run| ensures OneRole(run[i]) {
        NobodyLives(c, run, i);
        NoRoleIsOne(run[i]);
      }
    } else if c.hear <= c.ttl / 3.0 && !c.lateRelease {
      forall run: seq<World>, i: nat | Run(c, run) && i < |run| ensures OneRole(run[i]) {
        TimelyIsOne(c, run, i);
      }
    } else if c.lateRelease {
      var run := LateReleaseRun(c);
      TwoRoles(run[|run| - 1]);
    } else {
      var run := SlowGrantRun(c);
      TwoRoles(run[|run| - 1]);
    }
  }

  lemma TimelyIsOne(c: Config, run: seq<World>, i: nat)
    requires c.ttl > 0.0 && Prompt(c) && !c.lateRelease && Run(c, run) && i < |run|
    ensures OneRole(run[i])
  {
    forall n: nat, m: nat | NodeOf(run[i], n).Live? && NodeOf(run[i], m).Live? ensures n == m {
      LiveRoleHoldsLock(c, run, i, n);
      LiveRoleHoldsLock(c, run, i, m);
    }
  }

  lemma TwoRoles(w: World)
    requires NodeOf(w, 0).Live? && NodeOf(w, 1).Live?
    ensures !OneRole(w)
  {
  }

  ghost predicate NoRole(w: World) { forall n: nat :: !NodeOf(w, n).Live? }

  lemma NoRoleIsOne(w: World)
    requires NoRole(w)
    ensures OneRole(w)
  {
  }

  /** Without a grant heard of there is no role. */
  lemma {:induction false} NobodyLives(c: Config, run: seq<World>, i: nat)
    requires c.hear <= 0.0 && Run(c, run) && i < |run|
    ensures NoRole(run[i]) && forall r <- run[i].requests :: r.sent <= run[i].now
  {
    if i > 0 {
      NobodyLives(c, run, i - 1);
      var w, w' := run[i - 1], run[i - 1 + 1];
      assert Next(c, w, w');
      NobodyStarts(c, w, w');
    }
  }

  lemma NobodyStarts(c: Config, w: World, w': World)
    requires c.hear <= 0.0 && NoRole(w) && (forall r <- w.requests :: r.sent <= w.now) && Next(c, w, w')
    ensures NoRole(w') && forall r <- w'.requests :: r.sent <= w'.now
  {
    hide NoRole;
    if r: nat :| TakeAcquire(c, w, w', r) || TakeRenew(c, w, w', r) || TakeRelease(c, w, w', r) {
      StoreTakes(c, w, w', r);
    } else if n: nat :| NodeStep(c, w, w', n) {
      NodeMoves(c, w, w', n);
    } else {
      var d: real :| Pass(c, w, w', d);
      assert NoRole(w') by { SameNodes(w, w'); }
    }
  }

  lemma SameNodes(w: World, w': World)
    requires NoRole(w) && w'.nodes == w.nodes
    ensures NoRole(w')
  {
    forall n: nat ensures !NodeOf(w', n).Live? {
      assert !NodeOf(w, n).Live?;
    }
  }

  lemma StoreTakes(c: Config, w: World, w': World, r: nat)
    requires NoRole(w) && forall q <- w.requests :: q.sent <= w.now
    requires TakeAcquire(c, w, w', r) || TakeRenew(c, w, w', r) || TakeRelease(c, w, w', r)
    ensures NoRole(w') && forall q <- w'.requests :: q.sent <= w'.now
  {
    SameNodes(w, w');
    assert w.requests[r] in w.requests;
    forall q | q in w'.requests ensures q.sent <= w'.now {
      var i :| 0 <= i < |w'.requests| && w'.requests[i] == q;
      assert w.requests[i] in w.requests;
    }
  }

  lemma NodeMoves(c: Config, w: World, w': World, n: nat)
    requires c.hear <= 0.0 && NoRole(w) && (forall r <- w.requests :: r.sent <= w.now) && NodeStep(c, w, w', n)
    ensures NoRole(w') && forall r <- w'.requests :: r.sent <= w'.now
  {
    assert !NodeOf(w, n).Live?;
    if NodeOf(w, n).Asking? && NodeOf(w, n).request < |w.requests| {
      assert w.requests[NodeOf(w, n).request] in w.requests;
    }
    forall m: nat ensures !NodeOf(w', m).Live? {
      assert !NodeOf(w, m).Live?;
    }
  }

  lemma Extend(c: Config, run: seq<World>, w': World)
    requires Run(c, run) && Next(c, run[|run| - 1], w')
    ensures Run(c, run + [w'])
  {
    hide Next;
    forall i | 0 <= i < |run + [w']| - 1 ensures Next(c, (run + [w'])[i], (run + [w'])[i + 1]) {
      if i < |run| - 1 { assert Next(c, run[i], run[i + 1]); }
    }
  }

  /** One node campaigns at a moment when the lock is free, and its role begins at once. */
  lemma Grant(c: Config, run: seq<World>, n: nat) returns (longer: seq<World>)
    requires c.ttl > 0.0 && c.hear > 0.0 && Run(c, run) && NodeOf(run[|run| - 1], n).Idle? && !Taken(run[|run| - 1])
    ensures Run(c, longer)
    ensures var w, r := run[|run| - 1], |run[|run| - 1].requests|;
            longer[|longer| - 1] == World(w.now, Some(Lock(n, w.now + c.ttl)), w.nodes[n := Live(w.now, None)],
              w.requests + [Request(Acquire, n, w.now, Took(true, w.now))])
  {
    var w := run[|run| - 1];
    var r := |w.requests|;
    var w1 := Put(Send(w, n, Acquire), n, Asking(r));
    assert NodeStep(c, w, w1, n);
    Extend(c, run, w1);
    var w2 := Effect(w1, r, true).(lock := Some(Lock(n, w.now + c.ttl)));
    assert TakeAcquire(c, w1, w2, r);
    Extend(c, run + [w1], w2);
    var w3 := Put(w2, n, Live(w.now, None));
    assert HearAcquire(c, w2, w3, n) && NodeStep(c, w2, w3, n);
    Extend(c, run + [w1] + [w2], w3);
    longer := run + [w1] + [w2] + [w3];
    assert w3.nodes == w.nodes[n := Live(w.now, None)];
    assert w3.requests == w.requests + [Request(Acquire, n, w.now, Took(true, w.now))];
  }

  lemma Start(c: Config) returns (run: seq<World>)
    ensures Run(c, run) && run == [World(0.0, None, map[], [])]
  {
    run := [World(0.0, None, map[], [])];
  }

  /** A release that outlives its call deletes the lock its own node has taken anew. */
  lemma LateReleaseRun(c: Config) returns (run: seq<World>)
    requires c.ttl > 0.0 && c.hear > 0.0 && c.lateRelease
    ensures Run(c, run)
    ensures NodeOf(run[|run| - 1], 0).Live? && NodeOf(run[|run| - 1], 1).Live?
  {
    run := Start(c);
    run := Grant(c, run, 0);
    var w := run[|run| - 1];
    var w1 := Put(w, 0, Stopping);
    assert NodeStep(c, w, w1, 0);
    Extend(c, run, w1);
    run := run + [w1];
    var w2 := Put(Send(w1, 0, Release), 0, Releasing(1));
    assert LetGo(c, w1, w2, 0) && NodeStep(c, w1, w2, 0);
    Extend(c, run, w2);
    run := run + [w2];
    var w3 := Put(w2, 0, Idle);
    assert NodeStep(c, w2, w3, 0);
    Extend(c, run, w3);
    run := run + [w3];
    var w4 := w3.(now := c.ttl);
    assert Pass(c, w3, w4, c.ttl);
    Extend(c, run, w4);
    run := run + [w4];
    run := Grant(c, run, 0);
    var w5 := run[|run| - 1];
    var w6 := Effect(w5, 1, true).(lock := None);
    assert TakeRelease(c, w5, w6, 1);
    Extend(c, run, w6);
    run := run + [w6];
    run := Grant(c, run, 1);
  }

  /** Later than a third of the time to live, but by less than another third. */
  function Late(c: Config): real {
    (c.ttl / 3.0 + (if c.hear < 2.0 * (c.ttl / 3.0) then c.hear else 2.0 * (c.ttl / 3.0))) / 2.0
  }

  /**
   * However little the bound exceeds a third of the time to live: the role that begins late
   * has sent its first renewal, and not yet given up hearing of it, when the lock runs out.
   */
  lemma SlowGrantRun(c: Config) returns (run: seq<World>)
    requires c.ttl > 0.0 && c.hear > c.ttl / 3.0
    ensures Run(c, run)
    ensures NodeOf(run[|run| - 1], 0).Live? && NodeOf(run[|run| - 1], 1).Live?
  {
    run := SlowStart(c);
    var w3 := run[|run| - 1];
    var t0 := Late(c);
    var w4 := Put(w3, 0, Live(t0, None));
    assert HearAcquire(c, w3, w4, 0) && NodeStep(c, w3, w4, 0);
    Extend(c, run, w4);
    run := run + [w4];
    var w5 := w4.(now := t0 + c.ttl / 3.0);
    assert Pass(c, w4, w5, c.ttl / 3.0);
    Extend(c, run, w5);
    run := run + [w5];
    run := RenewUnheard(c, run, t0);
    run := Grant(c, run, 1);
  }

  /** A SET is granted at once, and its reply is on its way for a while. */
  lemma SlowStart(c: Config) returns (run: seq<World>)
    requires c.ttl > 0.0 && c.hear > c.ttl / 3.0
    ensures Run(c, run)
    ensures run[|run| - 1]
            == World(Late(c), Some(Lock(0, c.ttl)), map[0 := Asking(0)], [Request(Acquire, 0, 0.0, Took(true, 0.0))])
  {
    run := Start(c);
    var w := run[0];
    var w1 := Put(Send(w, 0, Acquire), 0, Asking(0));
    assert NodeStep(c, w, w1, 0);
    Extend(c, run, w1);
    run := run + [w1];
    var w2 := Effect(w1, 0, true).(lock := Some(Lock(0, c.ttl)));
    assert TakeAcquire(c, w1, w2, 0);
    Extend(c, run, w2);
    run := run + [w2];
    var w3 := w2.(now := Late(c));
    assert Pass(c, w2, w3, Late(c));
    Extend(c, run, w3);
    run := run + [w3];
  }

  /** The renewal has not reached the store when the lock runs out. */
  lemma RenewUnheard(c: Config, run: seq<World>, t0: real) returns (longer: seq<World>)
    requires c.ttl > 0.0 && c.hear > c.ttl / 3.0 && t0 == Late(c) && Run(c, run)
    requires run[|run| - 1]
             == World(t0 + c.ttl / 3.0, Some(Lock(0, c.ttl)), map[0 := Live(t0, None)],
                 [Request(Acquire, 0, 0.0, Took(true, 0.0))])
    ensures Run(c, longer)
    ensures var w := longer[|longer| - 1]; NodeOf(w, 0).Live? && NodeOf(w, 1).Idle? && !Taken(w)
  {
    var w5 := run[|run| - 1];
    var w6 := Put(Send(w5, 0, Renew), 0, Live(w5.now, Some(1)));
    assert Tick(c, w5, w6, 0, false) && NodeStep(c, w5, w6, 0);
    Extend(c, run, w6);
    longer := run + [w6];
    var w7 := w6.(now := c.ttl);
    assert Pass(c, w6, w7, c.ttl - w6.now);
    Extend(c, longer, w7);
    longer := longer + [w7];
  }

  // ----- the way back after a crash ---------------------------------------------------------------

  /** No grant and no renewal reaches further than one time to live from now. */
  predicate EndsInTime(c: Config, w: World) { w.lock.Some? ==> w.lock.value.expires <= w.now + c.ttl }

  lemma StepEndsInTime(c: Config, w: World, w': World)
    requires EndsInTime(c, w) && Next(c, w, w')
    ensures EndsInTime(c, w') && w.now <= w'.now
  {
    if n: nat :| NodeStep(c, w, w', n) {
      NodeLeavesLock(c, w, w', n);
    }
  }

  lemma NodeLeavesLock(c: Config, w: World, w': World, n: nat)
    requires NodeStep(c, w, w', n)
    ensures w'.lock == w.lock && w'.now == w.now
  {
  }

  lemma {:induction false} LockEndsInTime(c: Config, run: seq<World>, i: nat)
    requires Run(c, run) && i < |run|
    ensures EndsInTime(c, run[i])
  {
    hide Next, EndsInTime;
    if i == 0 {
      assert EndsInTime(c, run[0]) by { NoLockYet(c, run[0]); }
    } else {
      LockEndsInTime(c, run, i - 1);
      assert Next(c, run[i - 1], run[i - 1 + 1]);
      StepEndsInTime(c, run[i - 1], run[i]);
    }
  }

  lemma NoLockYet(c: Config, w: World)
    requires Init(w)
    ensures EndsInTime(c, w)
  {
  }

  /** Whoever crashes: once the lock has not changed hands or been renewed for one time to live, it is free. */
  lemma FreeAfterTTL(c: Config, run: seq<World>, i: nat, j: nat)
    requires Run(c, run) && i < j < |run| && run[j].lock == run[i].lock && run[j].now >= run[i].now + c.ttl
    ensures !Taken(run[j])
  {
    LockEndsInTime(c, run, i);
  }

  /** A role that ends lets another node start its own at once, by way of the release. */
  lemma HandOver(c: Config, run: seq<World>, n: nat, m: nat) returns (longer: seq<World>)
    requires c.ttl > 0.0 && c.hear > 0.0 && Run(c, run) && n != m
    requires var w := run[|run| - 1]; NodeOf(w, n).Stopping? && TakenBy(w, n) && NodeOf(w, m).Idle?
    ensures Run(c, longer)
    ensures var w, w' := run[|run| - 1], longer[|longer| - 1];
            w'.now == w.now && NodeOf(w', m).Live? && TakenBy(w', m) && NodeOf(w', n).Releasing?
  {
    var w := run[|run| - 1];
    var r := |w.requests|;
    var w1 := Put(Send(w, n, Release), n, Releasing(r));
    assert LetGo(c, w, w1, n) && NodeStep(c, w, w1, n);
    Extend(c, run, w1);
    var w2 := Effect(w1, r, true).(lock := None);
    assert TakeRelease(c, w1, w2, r);
    Extend(c, run + [w1], w2);
    longer := Grant(c, run + [w1] + [w2], m);
  }
}
