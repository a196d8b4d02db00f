/** The critical sections of the compiled-module cache, as functions of the state
    the mutex protects, and the class that runs them. Entries are numbered by
    the order of their creation; a number stands for the entry. */
module ModuleCache {
  datatype Key = Key(scope: nat, digest: string, fingerprint: string)

  /** Compiling until `ready` is closed; then compiled or failed for good. */
  datatype Status = Compiling | Compiled | Failed

  datatype Entry = Entry(key: Key, status: Status, refs: nat, evicted: bool)

  datatype Cache = Cache(entries: map<Key, nat>, pool: seq<Entry>, closed: bool)

  const EMPTY := Cache(map[], [], false)

  datatype Found = Lead(entry: nat) | Wait(entry: nat) | Refused

  function Lookup(c: Cache, key: Key): (Cache, Found)
  {
    if c.closed then (c, Refused)
    else if key in c.entries then (c, Wait(c.entries[key]))
    else (Cache(c.entries[key := |c.pool|], c.pool + [Entry(key, Compiling, 0, false)], false), Lead(|c.pool|))
  }

  /** The leader's second section. It deletes by key, whoever holds the key now. */
  function Publish(c: Cache, n: nat, ok: bool): (Cache, bool)
    requires n < |c.pool|
  {
    var e := c.pool[n];
    var pool := c.pool[n := e.(status := if ok then Compiled else Failed)];
    if !ok then (Cache(c.entries - {e.key}, pool, c.closed), false)
    else if c.closed || e.evicted then (Cache(c.entries - {e.key}, pool, c.closed), true)
    else (Cache(c.entries, pool, c.closed), false)
  }

  datatype Taken = Leased | CacheClosed | CompileFailed | Evicted

  function Take(c: Cache, n: nat): (Cache, Taken)
    requires n < |c.pool|
  {
    var e := c.pool[n];
    if c.closed then (c, CacheClosed)
    else if e.status == Failed then (c, CompileFailed)
    else if e.evicted then (c, Evicted)
    else (c.(pool := c.pool[n := e.(refs := e.refs + 1)]), Leased)
  }

  /** The second component: the entry to close, if any. */
  function Evict(c: Cache, key: Key): (Cache, set<nat>)
    requires key in c.entries ==> c.entries[key] < |c.pool|
  {
    if key !in c.entries then (c, {})
    else
      var n := c.entries[key];
      var e := c.pool[n];
      (Cache(c.entries - {key}, c.pool[n := e.(evicted := true)], c.closed),
       if e.refs == 0 && e.status == Compiled then {n} else {})
  }

  datatype Freed = Free(close: bool) | ReleasedTwice

  function Release(c: Cache, n: nat): (Cache, Freed)
    requires n < |c.pool|
  {
    var e := c.pool[n];
    if e.refs == 0 then (c, ReleasedTwice)
    else (c.(pool := c.pool[n := e.(refs := e.refs - 1)]),
          Free(e.refs == 1 && (e.evicted || c.closed) && e.status == Compiled))
  }

  function Retired(e: Entry, listed: bool): Entry { if listed then e.(evicted := true) else e }

  ghost predicate Indexed(c: Cache) { forall k :: k in c.entries ==> c.entries[k] < |c.pool| }

  /** The entries the map holds. */
  ghost function Listed(entries: map<Key, nat>): set<nat> { set k | k in entries :: entries[k] }

  ghost function Close(c: Cache): (Cache, set<nat>)
    requires Indexed(c)
  {
    if c.closed then (c, {})
    else
      var ids := Listed(c.entries);
      assert forall i :: i in ids ==> i < |c.pool|;
      (Cache(map[], RetireAll(c.pool, ids), true), set i | i in ids && Idle(c.pool[i]))
  }

  ghost function RetireAll(pool: seq<Entry>, ids: set<nat>): seq<Entry>
  {
    seq(|pool|, i requires 0 <= i < |pool| => Retired(pool[i], i in ids))
  }

  predicate Idle(e: Entry) { e.refs == 0 && e.status == Compiled }

  /** The map holds wanted entries under their own keys, and nothing once the
      cache is closed. */
  ghost predicate MapOk(c: Cache)
  {
    && (forall k :: k in c.entries ==>
          c.entries[k] < |c.pool| && c.pool[c.entries[k]].key == k && !c.pool[c.entries[k]].evicted && c.pool[c.entries[k]].status != Failed)
    && (c.closed ==> c.entries == map[])
  }

  /** A module may be closed: it is compiled and nobody holds it or can get it. */
  ghost predicate Disposable(c: Cache, n: nat)
  {
    && n < |c.pool| && Idle(c.pool[n]) && (c.pool[n].evicted || c.closed)
    && forall k :: k in c.entries ==> c.entries[k] != n
  }

  /** Entries other than n are as they were. */
  ghost predicate OthersKept(before: seq<Entry>, after: seq<Entry>, n: nat)
  {
    |before| <= |after| && forall m :: 0 <= m < |before| && m != n ==> after[m] == before[m]
  }


  class ModuleCache {
    var entries: map<Key, nat>
    var pool: seq<Entry>
    var closed: bool

    ghost function View(): Cache
      reads this
    {
      Cache(entries, pool, closed)
    }

    constructor ()
      ensures View() == EMPTY
    {
      entries, pool, closed := map[], [], false;
    }

    /** acquire, up to the point where it compiles or waits. */
    method AcquireLookup(key: Key) returns (found: Found)
      requires MapOk(View())
      modifies this
      ensures (View(), found) == Lookup(old(View()), key)
      ensures MapOk(View()) && closed == old(closed) && old(pool) <= pool
      ensures found.Refused? <==> old(closed)
      ensures !found.Refused? ==> key in entries && entries[key] == found.entry && !pool[found.entry].evicted
      ensures found.Lead? <==> !old(closed) && |pool| == |old(pool)| + 1
      ensures found.Lead? ==> found.entry == |old(pool)| && pool[found.entry].refs == 0 && pool[found.entry].status == Compiling
    {
      if closed { return Refused; }
      if key !in entries {
        var n := |pool|;
        pool := pool + [Entry(key, Compiling, 0, false)];
        entries := entries[key := n];
        return Lead(n);
      }
      return Wait(entries[key]);
    }

    /** acquire, after the leader's compilation. */
    method AcquirePublish(n: nat, ok: bool) returns (closeNow: bool)
      requires MapOk(View()) && n < |pool| && pool[n].status == Compiling && pool[n].refs == 0
      modifies this
      ensures (View(), closeNow) == Publish(old(View()), n, ok)
      ensures MapOk(View()) && closed == old(closed) && OthersKept(old(pool), pool, n)
      ensures pool[n].refs == 0 && pool[n].evicted == old(pool)[n].evicted && (pool[n].status == Compiled <==> ok)
      ensures forall k :: k in entries ==> k in old(entries) && entries[k] == old(entries)[k]
      ensures closeNow <==> Idle(pool[n]) && (pool[n].evicted || closed)
      ensures closeNow ==> Disposable(View(), n)
    {
      var key := pool[n].key;
      pool := pool[n := pool[n].(status := if ok then Compiled else Failed)];
      closeNow := false;
      if !ok {
        entries := entries - {key};
      } else if closed || pool[n].evicted {
        entries := entries - {key};
        closeNow := true;
      }
    }

    /** acquire, its last section. */
    method AcquireTake(n: nat) returns (taken: Taken)
      requires MapOk(View()) && n < |pool|
      modifies this
      ensures (View(), taken) == Take(old(View()), n)
      ensures MapOk(View()) && closed == old(closed) && entries == old(entries) && OthersKept(old(pool), pool, n)
      ensures pool[n].refs == old(pool)[n].refs + if taken.Leased? then 1 else 0
      ensures taken.Leased? <==> !closed && !pool[n].evicted && pool[n].status != Failed
    {
      if closed { return CacheClosed; }
      if pool[n].status == Failed { return CompileFailed; }
      if pool[n].evicted { return Evicted; }
      pool := pool[n := pool[n].(refs := pool[n].refs + 1)];
      return Leased;
    }

    method EvictKey(key: Key) returns (closeNow: set<nat>)
      requires MapOk(View())
      modifies this
      ensures (View(), closeNow) == Evict(old(View()), key)
      ensures MapOk(View()) && closed == old(closed) && key !in entries
      ensures forall k :: k != key ==> (k in entries <==> k in old(entries)) && (k in entries ==> entries[k] == old(entries)[k])
      ensures forall m :: 0 <= m < |pool| ==> pool[m].refs == old(pool)[m].refs && pool[m].status == old(pool)[m].status
      ensures forall m :: m in closeNow ==> Disposable(View(), m) && !Disposable(old(View()), m)
    {
      if key !in entries { return {}; }
      var n := entries[key];
      closeNow := if pool[n].refs == 0 && pool[n].status == Compiled then {n} else {};
      pool := pool[n := pool[n].(evicted := true)];
      entries := entries - {key};
    }

    method ReleaseEntry(n: nat) returns (freed: Freed)
      requires MapOk(View()) && n < |pool|
      modifies this
      ensures (View(), freed) == Release(old(View()), n)
      ensures MapOk(View()) && closed == old(closed) && entries == old(entries) && OthersKept(old(pool), pool, n)
      ensures freed.Free? <==> old(pool)[n].refs > 0
      ensures freed.Free? ==> pool[n].refs == old(pool)[n].refs - 1 && (freed.close <==> Disposable(View(), n))
    {
      if pool[n].refs == 0 { return ReleasedTwice; }
      pool := pool[n := pool[n].(refs := pool[n].refs - 1)];
      return Free(pool[n].refs == 0 && (pool[n].evicted || closed) && pool[n].status == Compiled);
    }

    /** Close, ranging over the map in any order while emptying it. */
    method CloseAll() returns (closers: set<nat>)
      requires MapOk(View())
      modifies this
      ensures (View(), closers) == Close(old(View()))
      ensures closed && MapOk(View())
      ensures !old(closed) ==> forall k :: k in old(entries) && old(entries)[k] < |pool| ==> pool[old(entries)[k]].evicted
      ensures forall m :: 0 <= m < |pool| ==> pool[m].refs == old(pool)[m].refs && pool[m].status == old(pool)[m].status
      ensures forall m :: m in closers ==> Disposable(View(), m) && !Disposable(old(View()), m)
    {
      hide Close, Closing, Indexed, MapOk, Disposable, Listed, RetireAll, Idle;
      closers := {};
      IndexedOk(View());
      RetiresListed(View());
      CloseMeans(View());
      if closed { ClosedAlready(View()); return; }
      closed := true;
      ghost var ids: set<nat> := {};
      ClosingStarts(old(View()));
      while entries != map[]
        invariant Closing(old(View()), View(), ids, closers)
        decreases entries.Keys
      {
        var key :| key in entries;
        var n := entries[key];
        ClosingMore(old(View()), View(), ids, closers, key);
        if Idle(pool[n]) { closers := closers + {n}; }
        pool := pool[n := pool[n].(evicted := true)];
        entries := entries - {key};
        ids := ids + {n};
      }
      ClosingEnds(old(View()), View(), ids, closers);
    }
  }

  lemma {:induction false} RetiresListed(c: Cache)
    requires Indexed(c)
    ensures !c.closed ==> forall k :: k in c.entries && c.entries[k] < |c.pool| ==>
              c.entries[k] < |Close(c).0.pool| && Close(c).0.pool[c.entries[k]].evicted
  {
  }

  /** The entries ids have been taken off the map of c and retired. */
  ghost predicate Closing(c: Cache, v: Cache, ids: set<nat>, closers: set<nat>)
  {
    && v.closed && Indexed(c) && Indexed(v) && ids + Listed(v.entries) == Listed(c.entries) && (forall i :: i in ids ==> i < |c.pool|)
    && v.pool == RetireAll(c.pool, ids) && |v.pool| == |c.pool|
    && closers == set i | i in ids && Idle(c.pool[i])
  }

  lemma {:induction false} ClosedAlready(c: Cache)
    requires Indexed(c) && c.closed
    ensures Close(c) == (c, {})
  {
  }

  lemma {:induction false} ClosingStarts(c: Cache)
    requires Indexed(c)
    ensures Closing(c, c.(closed := true), {}, {})
  {
    assert RetireAll(c.pool, {}) == c.pool;
  }

  lemma {:induction false} ClosingMore(c: Cache, v: Cache, ids: set<nat>, closers: set<nat>, key: Key)
    requires Closing(c, v, ids, closers) && key in v.entries
    ensures v.entries[key] < |v.pool| && (v.entries - {key}).Keys < v.entries.Keys
    ensures var n := v.entries[key];
            Closing(c, Cache(v.entries - {key}, v.pool[n := v.pool[n].(evicted := true)], v.closed), ids + {n},
                    if Idle(v.pool[n]) then closers + {n} else closers)
  {
    hide Listed, RetireAll, Idle;
    var n := v.entries[key];
    ListedIn(c, v, ids, key);
    RetireOne(v.entries, c.pool, ids, key);
    assert key !in (v.entries - {key}).Keys;
  }

  lemma {:induction false} ListedIn(c: Cache, v: Cache, ids: set<nat>, key: Key)
    requires Indexed(c) && ids + Listed(v.entries) == Listed(c.entries) && key in v.entries
    ensures v.entries[key] < |c.pool|
  {
    assert v.entries[key] in Listed(v.entries);
  }

  lemma {:induction false} ClosingEnds(c: Cache, v: Cache, ids: set<nat>, closers: set<nat>)
    requires Closing(c, v, ids, closers) && v.entries == map[] && !c.closed
    ensures Close(c) == (v, closers)
  {
    assert Listed(v.entries) == {};
    assert ids == Listed(c.entries);
  }

  lemma {:induction false} IndexedOk(c: Cache)
    requires MapOk(c)
    ensures Indexed(c)
  {
  }

  /** Close retires what the map holds, and only that, and keeps every count. */
  lemma {:induction false} CloseMeans(c: Cache)
    requires MapOk(c) && Indexed(c)
    ensures var (d, closers) := Close(c);
            && d.closed && MapOk(d) && |d.pool| == |c.pool|
            && (forall m :: 0 <= m < |c.pool| ==> d.pool[m].refs == c.pool[m].refs && d.pool[m].status == c.pool[m].status)
            && (forall m :: m in closers ==> Disposable(d, m) && !Disposable(c, m))
  {
  }

  lemma {:induction false} RetireOne(entries: map<Key, nat>, pool: seq<Entry>, ids: set<nat>, key: Key)
    requires key in entries && entries[key] < |pool|
    ensures Listed(entries) == {entries[key]} + Listed(entries - {key})
    ensures var n := entries[key]; var retired := RetireAll(pool, ids);
            && Idle(retired[n]) == Idle(pool[n])
            && retired[n := retired[n].(evicted := true)] == RetireAll(pool, ids + {n})
  {
    var n := entries[key];
    var retired, next := RetireAll(pool, ids), RetireAll(pool, ids + {n});
    forall i | 0 <= i < |pool| ensures retired[n := retired[n].(evicted := true)][i] == next[i] {}
    forall m | m in Listed(entries) ensures m == n || m in Listed(entries - {key}) {
      var k :| k in entries && entries[k] == m;
      if k != key { assert k in entries - {key}; }
    }
    forall m | m in Listed(entries - {key}) ensures m in Listed(entries) {
      var k :| k in entries - {key} && (entries - {key})[k] == m;
      assert k in entries && entries[k] == m;
    }
  }
}
