/**
 * The local cache of table definitions under a lease: within the lease it answers without
 * asking, past it the global schema version decides whether the whole cache is dropped.
 */
module CatalogCache {
  import opened Wrappers

  type Def = string
  datatype Stored = Stored(def: Def, ver: nat)

  /** What the store holds from one change to the next. */
  datatype Moment = Moment(since: real, tables: map<string, Stored>, schema: nat)

  /** When the moment ended, or now if it lasts. */
  function Until(history: seq<Moment>, now: real, i: nat): real
    requires i < |history|
  {
    if i + 1 < |history| then history[i + 1].since else now
  }

  ghost predicate InOrder(history: seq<Moment>, now: real) {
    history != [] && forall i :: 0 <= i < |history| ==> history[i].since <= Until(history, now, i) <= now
  }

  /** Every change of a definition has raised the schema version. */
  ghost predicate Versioned(history: seq<Moment>) {
    forall i, j :: 0 <= i < j < |history| ==> history[i].schema < history[j].schema
  }

  predicate Held(m: Moment, name: string, def: Def) { name in m.tables && m.tables[name].def == def }

  /** The definition was the stored one at some time later than `since`. */
  ghost predicate HeldAfter(history: seq<Moment>, now: real, name: string, def: Def, since: real) {
    exists i: nat :: i < |history| && Held(history[i], name, def) && Until(history, now, i) > since
  }

  class CatalogStore {
    var now: real
    var tables: map<string, Stored>
    var schema: nat
    ghost var history: seq<Moment>

    constructor ()
      ensures Valid() && Versioned(history) && tables == map[]
    {
      now, tables, schema := 0.0, map[], 0;
      history := [Moment(0.0, map[], 0)];
    }

    ghost predicate Valid()
      reads this
    {
      InOrder(history, now) && history[|history| - 1].tables == tables && history[|history| - 1].schema == schema
    }

    method Wait(d: real)
      requires Valid() && d >= 0.0
      modifies this`now
      ensures Valid() && now == old(now) + d
    {
      now := now + d;
    }

    /** The script of a save: the definition changes if its version is the expected one. */
    method Set(name: string, def: Def, expected: nat) returns (ok: bool)
      requires Valid()
      modifies this`tables, this`history
      ensures Valid()
      ensures ok <==> expected == if name in old(tables) then old(tables)[name].ver else 0
      ensures !ok ==> tables == old(tables) && history == old(history)
      ensures ok ==>
                && tables == old(tables)[name := Stored(def, expected + 1)]
                && history == old(history) + [Moment(now, tables, schema)]
    {
      var cur := if name in tables then tables[name].ver else 0;
      if cur != expected {
        return false;
      }
      tables := tables[name := Stored(def, cur + 1)];
      history := history + [Moment(now, tables, schema)];
      ok := true;
    }

    /** Save and its INCR of the schema version, as one step. */
    method Save(name: string, def: Def, expected: nat) returns (ok: bool)
      requires Valid()
      modifies this`tables, this`schema, this`history
      ensures Valid() && (old(Versioned(history)) ==> Versioned(history))
      ensures ok <==> expected == if name in old(tables) then old(tables)[name].ver else 0
      ensures !ok ==> history == old(history) && tables == old(tables)
      ensures schema == if ok then old(schema) + 1 else old(schema)
      ensures ok ==>
                && tables == old(tables)[name := Stored(def, expected + 1)]
                && history == old(history) + [Moment(now, tables, schema)]
    {
      var cur := if name in tables then tables[name].ver else 0;
      if cur != expected {
        return false;
      }
      tables := tables[name := Stored(def, cur + 1)];
      schema := schema + 1;
      history := history + [Moment(now, tables, schema)];
      ok := true;
    }

    /** DROP TABLE, likewise with its INCR. */
    method Drop(name: string)
      requires Valid()
      modifies this`tables, this`schema, this`history
      ensures Valid() && (old(Versioned(history)) ==> Versioned(history))
      ensures tables == old(tables) - {name} && history == old(history) + [Moment(now, tables, schema)]
      ensures schema == old(schema) + 1
    {
      tables := tables - {name};
      schema := schema + 1;
      history := history + [Moment(now, tables, schema)];
    }
  }

  class LeaseTracker {
    const duration: real
    var lastCheck: real
    var lastVer: nat
    var valid: bool

    constructor (duration: real)
      ensures this.duration == duration && !valid
    {
      this.duration, lastCheck, lastVer, valid := duration, 0.0, 0, false;
    }

    predicate Fresh(now: real)
      reads this
    {
      valid && now - lastCheck < duration
    }

    method Checked(now: real, remote: nat) returns (changed: bool)
      modifies this
      ensures changed == (!old(valid) || remote != old(lastVer))
      ensures lastCheck == now && lastVer == remote && valid
    {
      changed := !valid || remote != lastVer;
      lastCheck, lastVer, valid := now, remote, true;
    }

    method Invalidate()
      modifies this`valid
      ensures !valid
    {
      valid := false;
    }
  }

  /**
   * The lease's last check saw the moment `checked`, and whatever is cached was stored then
   * or later.
   */
  ghost predicate CacheOK(history: seq<Moment>, now: real, lastCheck: real, lastVer: nat, valid: bool, checked: nat,
      tables: map<string, Def>) {
    && InOrder(history, now) && Versioned(history)
    && (valid ==>
          && lastCheck <= now && checked < |history| && history[checked].schema == lastVer
          && lastCheck <= Until(history, now, checked)
          && forall name <- tables :: HeldSince(history, checked, name, tables[name]))
  }

  ghost predicate HeldSince(history: seq<Moment>, checked: nat, name: string, def: Def) {
    exists i: nat :: checked <= i < |history| && Held(history[i], name, def)
  }

  lemma ChangeKeeps(history: seq<Moment>, now: real, lastCheck: real, lastVer: nat, valid: bool, checked: nat,
      tables: map<string, Def>, m: Moment)
    requires CacheOK(history, now, lastCheck, lastVer, valid, checked, tables)
    requires m.since == now && Versioned(history + [m])
    ensures CacheOK(history + [m], now, lastCheck, lastVer, valid, checked, tables)
  {
    var h := history + [m];
    forall name | valid && name in tables ensures HeldSince(h, checked, name, tables[name]) {
      var i: nat :| checked <= i < |history| && Held(history[i], name, tables[name]);
      assert h[i] == history[i];
    }
    forall i | 0 <= i < |h| ensures h[i].since <= Until(h, now, i) <= now {
      if i < |history| { assert history[i].since <= Until(history, now, i); }
    }
  }

  lemma WaitKeeps(history: seq<Moment>, now: real, lastCheck: real, lastVer: nat, valid: bool, checked: nat,
      tables: map<string, Def>, d: real)
    requires CacheOK(history, now, lastCheck, lastVer, valid, checked, tables) && d >= 0.0
    ensures CacheOK(history, now + d, lastCheck, lastVer, valid, checked, tables)
  {
    forall i | 0 <= i < |history| ensures history[i].since <= Until(history, now + d, i) <= now + d {
      assert history[i].since <= Until(history, now, i) <= now;
    }
  }

  /** The same version means the same moment: what is cached is still what is stored. */
  lemma SameVersionSameMoment(history: seq<Moment>, now: real, lastCheck: real, lastVer: nat, checked: nat,
      tables: map<string, Def>)
    requires CacheOK(history, now, lastCheck, lastVer, true, checked, tables)
    requires history[|history| - 1].schema == lastVer
    ensures checked == |history| - 1
  {
    assert forall i :: 0 <= i < |history| - 1 ==> history[i].schema < history[|history| - 1].schema;
  }

  lemma CachedIsTimely(history: seq<Moment>, now: real, lastCheck: real, lastVer: nat, checked: nat,
      tables: map<string, Def>, name: string, duration: real)
    requires CacheOK(history, now, lastCheck, lastVer, true, checked, tables) && name in tables
    requires now - lastCheck < duration
    ensures HeldAfter(history, now, name, tables[name], now - duration)
  {
    assert HeldSince(history, checked, name, tables[name]);
    var i: nat :| checked <= i < |history| && Held(history[i], name, tables[name]);
    UntilGrows(history, now, checked, i);
  }

  lemma LoadedIsTimely(history: seq<Moment>, now: real, lastCheck: real, lastVer: nat, checked: nat,
      tables: map<string, Def>, name: string, def: Def, duration: real)
    requires CacheOK(history, now, lastCheck, lastVer, true, checked, tables) && duration > 0.0
    requires history != [] && Held(history[|history| - 1], name, def)
    ensures HeldAfter(history, now, name, def, now - duration)
    ensures CacheOK(history, now, lastCheck, lastVer, true, checked, tables[name := def])
  {
    assert Until(history, now, |history| - 1) == now;
    var more := tables[name := def];
    forall n | n in more ensures HeldSince(history, checked, n, more[n]) {
      if n == name {
        assert Held(history[|history| - 1], n, def);
      } else {
        assert HeldSince(history, checked, n, tables[n]);
      }
    }
  }

  class Cache {
    const store: CatalogStore
    const lease: LeaseTracker
    var tables: map<string, Def>
    ghost var checked: nat

    constructor (store: CatalogStore, duration: real)
      requires store.Valid() && Versioned(store.history) && duration > 0.0
      ensures Valid() && fresh(lease) && this.store == store && lease.duration == duration && !lease.valid
      ensures tables == map[]
    {
      this.store, tables, checked := store, map[], 0;
      lease := new LeaseTracker(duration);
    }

    ghost predicate Valid()
      reads this, store, lease
    {
      && lease.duration > 0.0 && store.Valid()
      && CacheOK(store.history, store.now, lease.lastCheck, lease.lastVer, lease.valid, checked, tables)
    }

    /** The cache is trusted: within the lease, or past it with the version unchanged. */
    predicate Trusted()
      reads this, store, lease
    {
      lease.Fresh(store.now) || (lease.valid && store.schema == lease.lastVer)
    }

    method CheckLease()
      requires lease.duration > 0.0 && store.Valid()
      modifies this, lease
      ensures old(Valid()) ==> Valid() && lease.valid && store.now - lease.lastCheck < lease.duration
      ensures tables == (if old(Trusted()) then old(tables) else map[])
      ensures lease.valid
      ensures if old(lease.Fresh(store.now))
          then lease.lastVer == old(lease.lastVer) && lease.lastCheck == old(lease.lastCheck)
              else lease.lastVer == store.schema && lease.lastCheck == store.now
    {
      ghost var sound := Valid();
      var now := store.now;
      if lease.Fresh(now) {
        return;
      }
      var remote := store.schema;
      if sound && lease.valid && remote == lease.lastVer {
        SameVersionSameMoment(store.history, now, lease.lastCheck, lease.lastVer, checked, tables);
      }
      var changed := lease.Checked(now, remote);
      if changed {
        tables := map[];
      }
      checked := |store.history| - 1;
    }

    /** A definition, or nothing for a table that does not exist now. */
    method Get(name: string) returns (def: Option<Def>)
      requires lease.duration > 0.0 && store.Valid()
      modifies this, lease
      ensures old(Valid()) ==>
                && Valid()
                && (def.Some? ==> HeldAfter(store.history, store.now, name, def.value, store.now - lease.duration))
      ensures def.None? ==> name !in store.tables
      ensures def == if old(Trusted()) && name in old(tables) then Some(old(tables)[name])
                     else if name in store.tables then Some(store.tables[name].def) else None
      ensures tables
              == (if old(Trusted()) then old(tables) else map[]) + (if def.Some? then map[name := def.value] else map[])
      ensures lease.valid
      ensures if old(lease.Fresh(store.now))
          then lease.lastVer == old(lease.lastVer) && lease.lastCheck == old(lease.lastCheck)
              else lease.lastVer == store.schema && lease.lastCheck == store.now
    {
      hide CacheOK, HeldAfter, Versioned;
      ghost var sound := Valid();
      CheckLease();
      if name in tables {
        if sound {
          CachedIsTimely(store.history, store.now, lease.lastCheck, lease.lastVer, checked, tables, name,
              lease.duration);
        }
        return Some(tables[name]);
      }
      if name !in store.tables {
        return None;
      }
      var loaded := store.tables[name].def;
      if sound {
        LoadedIsTimely(store.history, store.now, lease.lastCheck, lease.lastVer, checked, tables, name, loaded,
            lease.duration);
      }
      tables := tables[name := loaded];
      def := Some(loaded);
    }

    method Invalidate()
      modifies this`tables, lease`valid
      ensures (old(Valid()) ==> Valid()) && !lease.valid && tables == map[]
    {
      tables := map[];
      lease.Invalidate();
    }
  }

  lemma {:induction false} UntilGrows(history: seq<Moment>, now: real, i: nat, j: nat)
    requires InOrder(history, now) && i <= j < |history|
    ensures Until(history, now, i) <= Until(history, now, j)
    decreases j
  {
    if i < j {
      UntilGrows(history, now, i, j - 1);
      assert Until(history, now, j - 1) == history[j].since;
    }
  }

  // ----- any interleaving ------------------------------------------------------------------------

  /** A save that is not `counted` is one whose INCR never comes. */
  datatype Event =
    | Ask(name: string)
    | Put(name: string, def: Def, expected: nat, counted: bool)
    | Remove(name: string)
    | Forget
    | Pause(d: real)

  /** The store and one cache. */
  datatype View = View(now: real, stored: map<string, Stored>, schema: nat, history: seq<Moment>,
      tables: map<string, Def>, lastCheck: real, lastVer: nat, valid: bool)

  predicate IsFresh(v: View, duration: real) { v.valid && v.now - v.lastCheck < duration }

  /** What the cache has after its check of the lease. */
  function Checking(v: View, duration: real): View {
    if IsFresh(v, duration) then v
    else v.(tables := if v.valid && v.schema == v.lastVer then v.tables else map[],
            lastCheck := v.now, lastVer := v.schema, valid := true)
  }

  function Reply(v: View, duration: real, name: string): Option<Def> {
    var c := Checking(v, duration);
    if name in c.tables then Some(c.tables[name]) else if name in v.stored then Some(v.stored[name].def) else None
  }

  function Changed(v: View, stored: map<string, Stored>, schema: nat): View {
    v.(stored := stored, schema := schema, history := v.history + [Moment(v.now, stored, schema)])
  }

  predicate Accepted(v: View, name: string, expected: nat) {
    expected == if name in v.stored then v.stored[name].ver else 0
  }

  function Happen(v: View, duration: real, e: Event): View {
    match e
    case Ask(name) =>
      var c, def := Checking(v, duration), Reply(v, duration, name);
      if def.Some? then c.(tables := c.tables[name := def.value]) else c
    case Put(name, def, expected, counted) =>
      if Accepted(v, name, expected)
      then Changed(v, v.stored[name := Stored(def, expected + 1)], if counted then v.schema + 1 else v.schema)
      else v
    case Remove(name) => Changed(v, v.stored - {name}, v.schema + 1)
    case Forget => v.(tables := map[], valid := false)
    case Pause(d) => v.(now := v.now + d)
  }

  function Play(v: View, duration: real, es: seq<Event>): View {
    if es == [] then v else Happen(Play(v, duration, es[..|es| - 1]), duration, es[|es| - 1])
  }

  /** The replies in their order, each with its question. */
  function Replies(v: View, duration: real, es: seq<Event>): seq<(string, Option<Def>)> {
    if es == [] then []
    else
      var front, last := es[..|es| - 1], es[|es| - 1];
      Replies(v, duration, front)
      + if last.Ask? then [(last.name, Reply(Play(v, duration, front), duration, last.name))] else []
  }

  ghost function ViewOf(store: CatalogStore, cache: Cache): View
    reads store, cache, cache.lease
  {
    View(store.now, store.tables, store.schema, store.history, cache.tables, cache.lease.lastCheck, cache.lease.lastVer,
        cache.lease.valid)
  }

  /** Asking, saving, dropping, forgetting and waiting in any order, with or without the INCRs. */
  method Interleave(store: CatalogStore, cache: Cache, events: seq<Event>) returns (replies: seq<(string, Option<Def>)>)
    requires store.Valid() && cache.store == store && cache.lease.duration > 0.0
    requires forall e <- events :: e.Pause? ==> e.d >= 0.0
    modifies store, cache, cache.lease
    ensures store.Valid()
    ensures ViewOf(store, cache) == Play(old(ViewOf(store, cache)), cache.lease.duration, events)
    ensures replies == Replies(old(ViewOf(store, cache)), cache.lease.duration, events)
    ensures (old(ViewOK(ViewOf(store, cache))) || old(!cache.lease.valid)) && Counted(events) ==>
              AllTimely(old(ViewOf(store, cache)), cache.lease.duration, events)
    ensures old(cache.Valid()) && Counted(events) ==> cache.Valid()
  {
    hide CacheOK, Versioned, InOrder, HeldAfter, Happen, Reply, ViewOK, AllTimely;
    ghost var start, duration := ViewOf(store, cache), cache.lease.duration;
    if !cache.lease.valid {
      NewIsOK(store, cache);
    }
    if ViewOK(start) && Counted(events) {
      CountedIsTimely(start, duration, events);
    }
    replies := [];
    for n := 0 to |events|
      invariant store.Valid() && ViewOf(store, cache) == Play(start, duration, events[..n])
      invariant replies == Replies(start, duration, events[..n])
      invariant old(cache.Valid()) && Counted(events) ==> cache.Valid()
    {
      assert events[..n + 1][..n] == events[..n] && events[n] in events;
      var reply := Do(store, cache, events[n]);
      replies := replies + reply;
    }
    assert events[..|events|] == events;
  }

  /** One event. */
  method Do(store: CatalogStore, cache: Cache, e: Event) returns (reply: seq<(string, Option<Def>)>)
    requires store.Valid() && cache.store == store && cache.lease.duration > 0.0 && (e.Pause? ==> e.d >= 0.0)
    modifies store, cache, cache.lease
    ensures store.Valid()
    ensures ViewOf(store, cache) == Happen(old(ViewOf(store, cache)), cache.lease.duration, e)
    ensures reply == if e.Ask? then [(e.name, Reply(old(ViewOf(store, cache)), cache.lease.duration, e.name))] else []
    ensures old(cache.Valid()) && (e.Put? ==> e.counted) ==> cache.Valid()
  {
    hide CacheOK, Versioned, InOrder, HeldAfter;
    ghost var sound, h := cache.Valid(), store.history;
    ghost var lastCheck, lastVer, valid, checked, cached := cache.lease.lastCheck, cache.lease.lastVer,
        cache.lease.valid, cache.checked, cache.tables;
    reply := [];
    match e {
      case Ask(name) =>
        ghost var before := ViewOf(store, cache);
        var def := cache.Get(name);
        reply := [(name, def)];
        assert cache.tables == Happen(before, cache.lease.duration, e).tables;
      case Put(name, def, expected, counted) =>
        if counted {
          if sound { CacheIsVersioned(h, store.now, lastCheck, lastVer, valid, checked, cached); }
          var ok := store.Save(name, def, expected);
          if sound && ok {
            ChangeKeeps(h, store.now, lastCheck, lastVer, valid, checked, cached,
                Moment(store.now, store.tables, store.schema));
          }
        } else {
          var ok := store.Set(name, def, expected);
        }
      case Remove(name) =>
        if sound { CacheIsVersioned(h, store.now, lastCheck, lastVer, valid, checked, cached); }
        store.Drop(name);
        if sound {
          ChangeKeeps(h, store.now, lastCheck, lastVer, valid, checked, cached,
              Moment(store.now, store.tables, store.schema));
        }
      case Forget =>
        cache.Invalidate();
      case Pause(d) =>
        if sound { WaitKeeps(h, store.now, lastCheck, lastVer, valid, checked, cached, d); }
        store.Wait(d);
    }
  }

  lemma CacheIsVersioned(history: seq<Moment>, now: real, lastCheck: real, lastVer: nat, valid: bool, checked: nat,
      tables: map<string, Def>)
    requires CacheOK(history, now, lastCheck, lastVer, valid, checked, tables)
    ensures Versioned(history)
  {
  }

  // ----- when no answer is older than the lease ---------------------------------------------------

  ghost predicate Timely(v: View, duration: real, name: string) {
    Reply(v, duration, name).Some? ==>
        HeldAfter(v.history, v.now, name, Reply(v, duration, name).value, v.now - duration)
  }

  /** No answer is older than the lease at the moment it is given. */
  ghost predicate AllTimely(v: View, duration: real, es: seq<Event>) {
    forall n :: 0 <= n < |es| && es[n].Ask? ==> Timely(Play(v, duration, es[..n]), duration, es[n].name)
  }

  predicate Forward(es: seq<Event>) { forall e <- es :: e.Pause? ==> e.d >= 0.0 }

  /** Whatever is done after any part of it, with every save counted from there on. */
  ghost predicate Steadfast(v: View, duration: real, es: seq<Event>) {
    forall k: nat, more: seq<Event> ::
      k <= |es| && Forward(more) && Counted(more) ==> AllTimely(v, duration, es[..k] + more)
  }

  predicate Counted(es: seq<Event>) { forall e <- es :: e.Put? ==> e.counted }

  /** A save without its INCR replaces a definition that a cache, trusting the version, holds. */
  predicate Hidden(v: View, e: Event) {
    && e.Put? && !e.counted && Accepted(v, e.name, e.expected)
    && v.valid && v.lastVer == v.schema && e.name in v.tables && v.tables[e.name] != e.def
  }

  ghost predicate NoneHidden(v: View, duration: real, es: seq<Event>) {
    forall n :: 0 <= n < |es| ==> !Hidden(Play(v, duration, es[..n]), es[n])
  }

  /** Whatever is cached was stored at the last check or later, and is still if the version is the same. */
  ghost predicate ViewOK(v: View) {
    && InOrder(v.history, v.now) && v.history[|v.history| - 1].tables == v.stored
    && (v.valid ==>
          && v.lastCheck <= v.now && v.lastVer <= v.schema
          && AllHeld(v) && (v.lastVer == v.schema ==> AllCurrent(v.tables, v.stored)))
  }

  predicate AllCurrent(tables: map<string, Def>, stored: map<string, Stored>) {
    forall name <- tables :: name in stored && stored[name].def == tables[name]
  }

  ghost predicate AllHeld(v: View) { forall name <- v.tables :: HeldUntil(v, name) }

  ghost predicate HeldUntil(v: View, name: string)
    requires name in v.tables
  {
    exists i: nat ::
      i < |v.history| && Held(v.history[i], name, v.tables[name]) && Until(v.history, v.now, i) >= v.lastCheck
  }

  lemma ReplyIsTimely(v: View, duration: real, name: string)
    requires ViewOK(v) && duration > 0.0
    ensures Timely(v, duration, name)
  {
    var last := |v.history| - 1;
    if IsFresh(v, duration) && name in v.tables {
      assert HeldUntil(v, name);
      var i: nat :| i < |v.history| && Held(v.history[i], name, v.tables[name]) &&
                    Until(v.history, v.now, i) >= v.lastCheck;
      assert HeldAfter(v.history, v.now, name, v.tables[name], v.now - duration);
    } else if Reply(v, duration, name).Some? {
      assert Held(v.history[last], name, Reply(v, duration, name).value) && Until(v.history, v.now, last) == v.now;
    }
  }

  lemma CheckingKeeps(v: View, duration: real)
    requires ViewOK(v) && duration > 0.0
    ensures ViewOK(Checking(v, duration)) && Checking(v, duration).valid
  {
    if !IsFresh(v, duration) {
      var c, last := Checking(v, duration), |v.history| - 1;
      forall n | n in c.tables ensures HeldUntil(c, n) {
        assert Held(c.history[last], n, c.tables[n]) && Until(c.history, c.now, last) == v.now;
      }
    }
  }

  lemma LoadKeeps(c: View, name: string, def: Def)
    requires ViewOK(c) && c.valid
    requires if name in c.tables then c.tables[name] == def else name in c.stored && c.stored[name].def == def
    ensures ViewOK(c.(tables := c.tables[name := def]))
  {
    var v', last := c.(tables := c.tables[name := def]), |c.history| - 1;
    forall n | n in v'.tables ensures HeldUntil(v', n) {
      if n in c.tables {
        assert HeldUntil(c, n);
        var i: nat :| i < |c.history| && Held(c.history[i], n, c.tables[n]) &&
                      Until(c.history, c.now, i) >= c.lastCheck;
        assert Held(v'.history[i], n, v'.tables[n]);
      } else {
        assert Held(v'.history[last], n, v'.tables[n]) && Until(v'.history, v'.now, last) == c.now;
      }
    }
  }

  lemma AskKeeps(v: View, duration: real, name: string)
    requires ViewOK(v) && duration > 0.0
    ensures ViewOK(Happen(v, duration, Ask(name)))
  {
    CheckingKeeps(v, duration);
    hide ViewOK;
    var c, def := Checking(v, duration), Reply(v, duration, name);
    assert c.stored == v.stored;
    if def.Some? {
      LoadKeeps(c, name, def.value);
    }
  }

  lemma ChangeIsOK(v: View, stored: map<string, Stored>, schema: nat)
    requires ViewOK(v) && schema >= v.schema
    requires v.valid && v.lastVer == schema ==> AllCurrent(v.tables, stored)
    ensures ViewOK(Changed(v, stored, schema))
  {
    var v' := Changed(v, stored, schema);
    forall i | 0 <= i < |v'.history| ensures v'.history[i].since <= Until(v'.history, v'.now, i) <= v'.now {
      if i < |v.history| { assert v.history[i].since <= Until(v.history, v.now, i) <= v.now; }
    }
    forall n | v.valid && n in v'.tables ensures HeldUntil(v', n) {
      assert HeldUntil(v, n);
      var i: nat :| i < |v.history| && Held(v.history[i], n, v.tables[n]) && Until(v.history, v.now, i) >= v.lastCheck;
      assert Held(v'.history[i], n, v'.tables[n]) && Until(v'.history, v'.now, i) >= v'.lastCheck;
    }
  }

  lemma PauseKeeps(v: View, d: real)
    requires ViewOK(v) && d >= 0.0
    ensures ViewOK(v.(now := v.now + d))
  {
    var v' := v.(now := v.now + d);
    forall i | 0 <= i < |v.history| ensures v.history[i].since <= Until(v.history, v'.now, i) <= v'.now {
      assert v.history[i].since <= Until(v.history, v.now, i) <= v.now;
    }
    forall n | v.valid && n in v.tables ensures HeldUntil(v', n) {
      assert HeldUntil(v, n);
      var i: nat :| i < |v.history| && Held(v.history[i], n, v.tables[n]) && Until(v.history, v.now, i) >= v.lastCheck;
      assert Held(v'.history[i], n, v'.tables[n]) && Until(v'.history, v'.now, i) >= v'.lastCheck;
    }
  }

  lemma PutKeeps(v: View, duration: real, e: Event)
    requires ViewOK(v) && e.Put? && !Hidden(v, e)
    ensures ViewOK(Happen(v, duration, e))
  {
    hide ViewOK, Hidden, AllCurrent;
    if Accepted(v, e.name, e.expected) {
      PutCurrent(v, e);
      ChangeIsOK(v, v.stored[e.name := Stored(e.def, e.expected + 1)], if e.counted then v.schema + 1 else v.schema);
    }
  }

  lemma PutCurrent(v: View, e: Event)
    requires ViewOK(v) && e.Put? && Accepted(v, e.name, e.expected) && !Hidden(v, e)
    ensures v.valid && v.lastVer == (if e.counted then v.schema + 1 else v.schema) ==>
              AllCurrent(v.tables, v.stored[e.name := Stored(e.def, e.expected + 1)])
  {
    hide InOrder, AllHeld;
  }

  lemma RemoveKeeps(v: View, duration: real, e: Event)
    requires ViewOK(v) && e.Remove?
    ensures ViewOK(Happen(v, duration, e))
  {
    hide InOrder, AllHeld, AllCurrent;
    ChangeIsOK(v, v.stored - {e.name}, v.schema + 1);
  }

  lemma ForgetKeeps(v: View, duration: real)
    requires ViewOK(v)
    ensures ViewOK(Happen(v, duration, Forget))
  {
  }

  lemma HappenKeeps(v: View, duration: real, e: Event)
    requires ViewOK(v) && duration > 0.0 && !Hidden(v, e) && (e.Pause? ==> e.d >= 0.0)
    ensures ViewOK(Happen(v, duration, e))
  {
    hide ViewOK, Hidden;
    match e {
      case Ask(name) => AskKeeps(v, duration, name);
      case Put(name, def, expected, counted) => PutKeeps(v, duration, e);
      case Remove(name) => RemoveKeeps(v, duration, e);
      case Forget => ForgetKeeps(v, duration);
      case Pause(d) => PauseKeeps(v, d);
    }
  }

  lemma {:induction false} PlayKeeps(v: View, duration: real, es: seq<Event>, n: nat)
    requires ViewOK(v) && duration > 0.0 && Forward(es) && NoneHidden(v, duration, es) && n <= |es|
    ensures ViewOK(Play(v, duration, es[..n]))
  {
    hide ViewOK, Hidden, Happen;
    if n == 0 {
      assert es[..0] == [];
    } else {
      PlayKeeps(v, duration, es, n - 1);
      assert es[..n][..n - 1] == es[..n - 1];
      HappenKeeps(Play(v, duration, es[..n - 1]), duration, es[n - 1]);
    }
  }

  lemma {:induction false} PlayAppend(v: View, duration: real, a: seq<Event>, b: seq<Event>)
    ensures Play(v, duration, a + b) == Play(Play(v, duration, a), duration, b)
  {
    if b == [] {
      assert a + b == a;
    } else {
      assert (a + b)[..|a + b| - 1] == a + b[..|b| - 1];
      PlayAppend(v, duration, a, b[..|b| - 1]);
    }
  }

  /** Counted saves hide nothing. */
  lemma MoreHidesNothing(v: View, duration: real, es: seq<Event>, k: nat, more: seq<Event>)
    requires k <= |es| && NoneHidden(v, duration, es) && Counted(more)
    ensures NoneHidden(v, duration, es[..k] + more)
  {
    var all := es[..k] + more;
    forall n | 0 <= n < |all| ensures !Hidden(Play(v, duration, all[..n]), all[n]) {
      if n < k {
        assert all[..n] == es[..n] && all[n] == es[n];
      } else {
        assert all[n] == more[n - k] && all[n] in more;
      }
    }
  }

  lemma OpenIsSteadfast(v: View, duration: real, es: seq<Event>)
    requires ViewOK(v) && duration > 0.0 && Forward(es) && NoneHidden(v, duration, es)
    ensures Steadfast(v, duration, es)
  {
    hide ViewOK, Timely, NoneHidden, Play;
    forall k: nat, more: seq<Event> | k <= |es| && Forward(more) && Counted(more)
      ensures AllTimely(v, duration, es[..k] + more)
    {
      var all := es[..k] + more;
      MoreHidesNothing(v, duration, es, k, more);
      forall n | 0 <= n < |all| && all[n].Ask? ensures Timely(Play(v, duration, all[..n]), duration, all[n].name) {
        PlayKeeps(v, duration, all, n);
        ReplyIsTimely(Play(v, duration, all[..n]), duration, all[n].name);
      }
    }
  }

  /** With every save counted, no answer is older than the lease. */
  lemma CountedIsTimely(v: View, duration: real, es: seq<Event>)
    requires ViewOK(v) && duration > 0.0 && Forward(es) && Counted(es)
    ensures AllTimely(v, duration, es)
  {
    hide ViewOK, Play, AllTimely;
    assert NoneHidden(v, duration, es);
    OpenIsSteadfast(v, duration, es);
    var none: seq<Event> := [];
    assert Forward(none) && Counted(none) && AllTimely(v, duration, es[..|es|] + none);
    assert es[..|es|] + none == es;
  }

  /** A lease later the cache answers with what has been replaced since before. */
  lemma HiddenIsUntimely(v: View, duration: real, e: Event)
    requires ViewOK(v) && duration > 0.0 && Hidden(v, e)
    ensures var w := Happen(Happen(v, duration, e), duration, Pause(duration));
            !Timely(w, duration, e.name)
  {
    var w := Happen(Happen(v, duration, e), duration, Pause(duration));
    assert Reply(w, duration, e.name) == Some(v.tables[e.name]);
    forall i: nat | i < |w.history| && Held(w.history[i], e.name, v.tables[e.name])
      ensures Until(w.history, w.now, i) <= v.now
    {
      assert i < |v.history|;
      assert v.history[i].since <= Until(v.history, v.now, i) <= v.now;
    }
  }

  /**
   * No answer is older than the lease, whatever is done after any part of an interleaving,
   * exactly when no save in it lacks its INCR while the cache trusts the version under which
   * it holds the definition that the save replaces.
   */
  lemma SteadfastIff(v: View, duration: real, es: seq<Event>)
    requires ViewOK(v) && duration > 0.0 && Forward(es)
    ensures Steadfast(v, duration, es) <==> NoneHidden(v, duration, es)
  {
    if NoneHidden(v, duration, es) {
      OpenIsSteadfast(v, duration, es);
    } else {
      hide ViewOK, Hidden, Play;
      var n := FirstHidden(v, duration, es, |es|);
      HiddenShows(v, duration, es, n);
    }
  }

  lemma HiddenShows(v: View, duration: real, es: seq<Event>, n: nat)
    requires ViewOK(v) && duration > 0.0 && Forward(es) && n < |es|
    requires Hidden(Play(v, duration, es[..n]), es[n]) && NoneHidden(v, duration, es[..n])
    ensures !Steadfast(v, duration, es)
  {
    var name, front := es[n].name, es[..n];
    assert front[..n] == front && Forward(front);
    assert es[..n + 1] == front + [es[n]];
    hide ViewOK, Hidden, NoneHidden, AllTimely, Play;
    PlayKeeps(v, duration, front, n);
    UntimelyAfter(v, duration, front, es[n]);
    assert Forward([Pause(duration), Ask(name)]) && Counted([Pause(duration), Ask(name)]);
  }

  /** The hidden save, and then a lease later the question after what it has replaced. */
  lemma UntimelyAfter(v: View, duration: real, front: seq<Event>, e: Event)
    requires ViewOK(Play(v, duration, front)) && duration > 0.0 && Hidden(Play(v, duration, front), e)
    ensures !AllTimely(v, duration, front + [e] + [Pause(duration), Ask(e.name)])
  {
    var at := Play(v, duration, front);
    var all := front + [e] + [Pause(duration), Ask(e.name)];
    HiddenIsUntimely(at, duration, e);
    hide ViewOK, Hidden, Timely, Happen, AllTimely, Play;
    assert all[..|front| + 2] == front + [e, Pause(duration)];
    PlayAppend(v, duration, front, [e, Pause(duration)]);
    PlayTwo(at, duration, e, Pause(duration));
    OneUntimely(v, duration, all, |front| + 2, e.name);
  }

  lemma OneUntimely(v: View, duration: real, es: seq<Event>, n: nat, name: string)
    requires n < |es| && es[n] == Ask(name) && !Timely(Play(v, duration, es[..n]), duration, name)
    ensures !AllTimely(v, duration, es)
  {
  }

  lemma PlayTwo(v: View, duration: real, a: Event, b: Event)
    ensures Play(v, duration, [a, b]) == Happen(Happen(v, duration, a), duration, b)
  {
    hide Happen;
    assert [a, b][..1] == [a] && [a][..0] == [];
    assert Play(v, duration, [a]) == Happen(Play(v, duration, []), duration, a);
    assert Play(v, duration, [a, b]) == Happen(Play(v, duration, [a]), duration, b);
  }

  lemma {:induction false} FirstHidden(v: View, duration: real, es: seq<Event>, m: nat) returns (n: nat)
    requires m <= |es| && exists i :: 0 <= i < m && Hidden(Play(v, duration, es[..i]), es[i])
    ensures n < m && Hidden(Play(v, duration, es[..n]), es[n]) && NoneHidden(v, duration, es[..n])
  {
    hide Hidden, Play;
    if i :| 0 <= i < m - 1 && Hidden(Play(v, duration, es[..i]), es[i]) {
      n := FirstHidden(v, duration, es, m - 1);
    } else {
      n := m - 1;
      forall j | 0 <= j < |es[..n]| ensures !Hidden(Play(v, duration, es[..n][..j]), es[..n][j]) {
        assert es[..n][..j] == es[..j] && es[..n][j] == es[j];
      }
    }
  }

  /** A cache that has no lease, as one is made. */
  lemma NewIsOK(store: CatalogStore, cache: Cache)
    requires store.Valid() && !cache.lease.valid
    ensures ViewOK(ViewOf(store, cache))
  {
  }

  /** The cache still holds the definition that the store has replaced. */
  ghost predicate Missed(store: CatalogStore, cache: Cache)
    reads store, cache, cache.lease
  {
    && cache.store == store && store.Valid() && cache.lease.duration > 0.0
    && "t" in store.tables && store.tables["t"].def == "new"
    && cache.lease.valid && cache.lease.lastVer == store.schema && cache.tables == map["t" := "old"]
  }

  method AskAgain(store: CatalogStore, cache: Cache) returns (def: Option<Def>)
    requires Missed(store, cache)
    modifies store, cache, cache.lease
    ensures Missed(store, cache) && def == Some("old") && store.now == old(store.now) + cache.lease.duration
    ensures "t" in store.tables
    ensures store.tables["t"].def == "new"
  {
    store.Wait(cache.lease.duration);
    def := cache.Get("t");
  }

  /**
   * A save whose INCR never comes is never noticed: however long the cache is used past the
   * change, it goes on answering with the definition that was replaced.
   */
  method MissedIncrement(duration: real, rounds: nat) returns (def: Option<Def>, age: real, current: Def)
    requires duration > 0.0 && rounds > 0
    ensures def == Some("old") && current == "new" && age == rounds as real * duration
  {
    hide *;
    var store, cache := ReplacedSilently(duration);
    def := AskAgain(store, cache);
    var changed := store.now - duration;
    for i := 1 to rounds
      invariant Missed(store, cache) && def == Some("old") && cache.lease.duration == duration
      invariant fresh(store) && fresh(cache) && fresh(cache.lease)
      invariant store.now == changed + i as real * duration && "t" in store.tables && store.tables["t"].def == "new"
    {
      def := AskAgain(store, cache);
      assert (i + 1) as real * duration == i as real * duration + duration;
    }
    age := store.now - changed;
    current := store.tables["t"].def;
  }

  /** A definition is cached, and then replaced without the schema version being raised. */
  method ReplacedSilently(duration: real) returns (store: CatalogStore, cache: Cache)
    requires duration > 0.0
    ensures Missed(store, cache) && fresh(store) && fresh(cache) && fresh(cache.lease)
    ensures cache.lease.duration == duration
  {
    hide CacheOK, Versioned, InOrder, HeldAfter;
    store := new CatalogStore();
    var ok := store.Save("t", "old", 0);
    cache := Warm(store, duration);
    ok := store.Set("t", "new", 1);
  }

  method Warm(store: CatalogStore, duration: real) returns (cache: Cache)
    requires duration > 0.0 && store.Valid() && Versioned(store.history) && "t" in store.tables
    requires store.tables["t"].def == "old"
    ensures fresh(cache) && fresh(cache.lease) && cache.store == store && cache.lease.duration == duration
    ensures cache.lease.valid && cache.lease.lastVer == store.schema && cache.tables == map["t" := "old"]
  {
    hide CacheOK, Versioned, InOrder, HeldAfter;
    cache := new Cache(store, duration);
    var def := cache.Get("t");
  }
}
