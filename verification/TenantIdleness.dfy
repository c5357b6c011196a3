/** When a pool was last used, and which pools a lookup closes for it. */
module TenantIdleness {
  import opened Wrappers
  import opened OrderedMap
  import opened TenantConfig
  import opened PoolCache
  import opened PoolLifecycle
  import opened TenantProtocol
  import opened TenantRuns
  import opened TenantTheorems

  /** The clock of a step that hands the pool out, lends a connection of it or takes one back. */
  function UsedBy(s: State, step: Step, s': State, id: nat): Option<int> {
    match step
    case ResumeTail(l, now) =>
      if l < |s'.searches| && s'.searches[l].phase == Returned(Some(id)) then Some(now) else None
    case Grant(r, now) => if r < |s.requests| && s.requests[r].pool == id then Some(now) else None
    case DeliverGrant(r, now) =>
      // The caller had given up, so the connection goes straight back.
      if r < |s.requests| && s.requests[r].pool == id && s.requests[r].timed && s.requests[r].settled then Some(now)
      else None
    case Finish(r, now) => if r < |s.requests| && s.requests[r].pool == id then Some(now) else None
    case _ => None
  }

  // ---------------------------------------------------------------- one lookup that is served

  /** The served pool is used now; no other pool is. */
  lemma ServeUses(p: Pools, key: Key, snapshot: Snapshot, now: int)
    requires IdsInRange(p) && snapshot.value.Some?
    ensures var (q, id) := Serve(p, key, snapshot, now);
            && |q.entries| == (if id < |p.entries| then |p.entries| else id + 1) && id <= |p.entries|
            && q.entries[id].lastUsed == now
            && forall k :: 0 <= k < |p.entries| && k != id ==> q.entries[k].lastUsed == p.entries[k].lastUsed
  {
    assert forall e: Entry :: EvictEntry(e).lastUsed == e.lastUsed;
    hide Unlink, EvictEntry, Without;
  }

  lemma TrimUses(p: Pools, max: nat, decrypt: Decrypt)
    requires Lifecycle(p, decrypt)
    ensures var q := Trim(p, max);
            && |q.entries| == |p.entries| && Frame(p, q)
            && forall k :: 0 <= k < |p.entries| ==> q.entries[k].lastUsed == p.entries[k].lastUsed
  {
    TrimKeeps(p, max, decrypt);
    EvictionsFrame(p, Trim(p, max));
    hide Lifecycle, Trim;
  }

  /** A pool at rest for longer than the limit with nothing borrowed. */
  predicate Rested(e: Entry, idleMs: int, now: int) {
    idleMs > 0 && e.borrowed == 0 && now - e.lastUsed > idleMs
  }

  /**
   Of the other organizations' slots those of rested pools go; of the rest one goes only when the cache is full,
   and then everything kept was served after it.
   */
  ghost predicate IdleThenCap(p: Pools, q: Pools, key: Key, idleMs: int, max: nat, now: int, rank: Key -> int)
    requires IdsInRange(p)
  {
    && (forall s :: s in p.cache && s.key != key && Rested(p.entries[s.value], idleMs, now) ==>
          s !in q.cache && s.value < |q.entries| && q.entries[s.value].ended)
    && (forall s, t :: s in p.cache && s.key != key && !Rested(p.entries[s.value], idleMs, now) && s !in q.cache ==>
          |q.cache| == max && (t in q.cache && t.key != key ==> rank(s.key) < rank(t.key)))
    && (forall t :: t in q.cache && t.key != key ==> t in p.cache)
  }

  lemma CapDropsOldest(b: Pools, q: Pools, s: PoolSlot, max: nat, rank: Key -> int)
    requires OrderedBy(b.cache, rank) && s in b.cache && s !in q.cache
    requires q.cache == b.cache[if |b.cache| <= max then 0 else |b.cache| - max..]
    ensures |q.cache| == max && forall t :: t in q.cache ==> rank(s.key) < rank(t.key)
  {
    var i :| 0 <= i < |b.cache| && b.cache[i] == s;
    var n := if |b.cache| <= max then 0 else |b.cache| - max;
    assert forall j :: n <= j < |b.cache| ==> q.cache[j - n] == b.cache[j];
    forall t | t in q.cache ensures rank(s.key) < rank(t.key) {
      var j :| 0 <= j < |q.cache| && q.cache[j] == t;
      assert b.cache[n + j] == t;
    }
  }

  lemma IsWellFormed(p: Pools, decrypt: Decrypt)
    requires Lifecycle(p, decrypt)
    ensures WellFormed(p)
  {
  }

  lemma CheckoutUses(p: Pools, key: Key, snapshot: Snapshot, idleMs: int, max: nat, now: int,
                     decrypt: Decrypt, rank: Key -> int, rank': Key -> int)
    requires Lifecycle(p, decrypt) && snapshot.value.Some? && GoodSnapshot(snapshot, decrypt)
    requires snapshot.generation == Generation(p, key)
    requires OrderedBy(p.cache, rank) && Promotes(p.cache, rank, rank', key)
    ensures var (q, id) := Checkout(p, key, snapshot, idleMs, max, now);
            && id <= |p.entries| && |q.entries| == (if id < |p.entries| then |p.entries| else id + 1)
            && q.entries[id].lastUsed == now
            && forall k :: 0 <= k < |p.entries| && k != id ==> q.entries[k].lastUsed == p.entries[k].lastUsed
  {
    EvictIdleKeeps(p, idleMs, now, decrypt, rank);
    hide Lifecycle, Serve, Trim, EvictIdle, OrderedBy, Serves, GoodSnapshot, WellFormed, Promotes;
    IsWellFormed(p, decrypt);
    SweepIsExact(p, idleMs, now);
    var a := EvictIdle(p, idleMs, now);
    ServeKeeps(a, key, snapshot, now, decrypt, rank, rank');
    ServeUses(a, key, snapshot, now);
    TrimUses(Serve(a, key, snapshot, now).0, max, decrypt);
  }

  lemma RestedGo(p: Pools, a: Pools, b: Pools, q: Pools, idleMs: int, now: int, s: PoolSlot)
    requires IdsInRange(p) && s in p.cache && Rested(p.entries[s.value], idleMs, now) && Frame(a, b) && Frame(b, q)
    requires |a.entries| == |p.entries|
    requires forall t :: t in a.cache ==>
               t in p.cache
               && (idleMs <= 0 || p.entries[t.value].borrowed > 0 || now - p.entries[t.value].lastUsed <= idleMs)
    requires forall t :: t in p.cache && t !in a.cache ==> a.entries[t.value].ended
    ensures s !in a.cache && s.value < |q.entries| && q.entries[s.value].ended
  {
    assert Agree(a.entries[s.value], b.entries[s.value]) && Agree(b.entries[s.value], q.entries[s.value]);
  }

  lemma CheckoutCloses(p: Pools, key: Key, snapshot: Snapshot, idleMs: int, max: nat, now: int,
                       decrypt: Decrypt, rank: Key -> int, rank': Key -> int)
    requires Lifecycle(p, decrypt) && snapshot.value.Some? && GoodSnapshot(snapshot, decrypt)
    requires snapshot.generation == Generation(p, key)
    requires OrderedBy(p.cache, rank) && Promotes(p.cache, rank, rank', key)
    ensures IdleThenCap(p, Checkout(p, key, snapshot, idleMs, max, now).0, key, idleMs, max, now, rank)
  {
    EvictIdleKeeps(p, idleMs, now, decrypt, rank);
    hide Lifecycle, Serve, Trim, EvictIdle, OrderedBy, Serves, GoodSnapshot, WellFormed, EvictionsOnly, Frame, Without;
    IsWellFormed(p, decrypt);
    SweepIsExact(p, idleMs, now);
    var a := EvictIdle(p, idleMs, now);
    assert Promotes(a.cache, rank, rank', key);
    ServeKeeps(a, key, snapshot, now, decrypt, rank, rank');
    var b := Serve(a, key, snapshot, now).0;
    TrimKeeps(b, max, decrypt);
    TrimUses(b, max, decrypt);
    var q := Trim(b, max);
    assert forall t :: t in q.cache ==> t in b.cache;
    assert forall t :: t in b.cache && t.key != key <==> t in a.cache && t.key != key;
    CutsClose(p, a, b, q, key, idleMs, max, now, rank, rank');
  }

  lemma CutsClose(p: Pools, a: Pools, b: Pools, q: Pools, key: Key, idleMs: int, max: nat, now: int,
                  rank: Key -> int, rank': Key -> int)
    requires IdsInRange(p) && |a.entries| == |p.entries| && Frame(a, b) && Frame(b, q)
    requires forall t :: t in a.cache <==>
               t in p.cache
               && (idleMs <= 0 || p.entries[t.value].borrowed > 0 || now - p.entries[t.value].lastUsed <= idleMs)
    requires forall t :: t in p.cache && t !in a.cache ==> a.entries[t.value].ended
    requires forall t :: t in b.cache && t.key != key <==> t in a.cache && t.key != key
    requires forall t :: t in q.cache ==> t in b.cache
    requires q.cache == b.cache[if |b.cache| <= max then 0 else |b.cache| - max..]
    requires OrderedBy(b.cache, rank') && Promotes(p.cache, rank, rank', key)
    ensures IdleThenCap(p, q, key, idleMs, max, now, rank)
  {
    hide OrderedBy, Frame;
    forall s | s in p.cache && s.key != key && Rested(p.entries[s.value], idleMs, now)
      ensures s !in q.cache && s.value < |q.entries| && q.entries[s.value].ended
    {
      RestedGo(p, a, b, q, idleMs, now, s);
    }
    forall s, t | s in p.cache && s.key != key && !Rested(p.entries[s.value], idleMs, now) && s !in q.cache
      ensures |q.cache| == max && (t in q.cache && t.key != key ==> rank(s.key) < rank(t.key))
    {
      assert s in a.cache && s in b.cache;
      CapDropsOldest(b, q, s, max, rank');
    }
  }

  // ---------------------------------------------------------------- one step

  /** A step changes the moment of last use of exactly the pool it uses, to its own clock. */
  ghost predicate UseKept(s: State, step: Step, s': State, id: nat) {
    match UsedBy(s, step, s', id)
    case Some(now) => id < |s'.pools.entries| && s'.pools.entries[id].lastUsed == now
    case None =>
      && (id < |s'.pools.entries| ==> id < |s.pools.entries|)
      && (id < |s.pools.entries| ==>
            id < |s'.pools.entries| && s'.pools.entries[id].lastUsed == s.pools.entries[id].lastUsed)
  }

  lemma EvictionsUseNothing(p: Pools, q: Pools)
    requires EvictionsOnly(p, q)
    ensures forall id :: 0 <= id < |p.entries| ==> q.entries[id].lastUsed == p.entries[id].lastUsed
  {
  }

  /** A lookup that is served, at the level of one step. */
  lemma ServedStep(env: Env, s: State, l: nat, now: int, rank: Key -> int, rank': Key -> int)
    requires GoodEnv(env) && InRange(s) && Enabled(s, ResumeTail(l, now)) && StateOk(env, s)
    requires OrderedBy(s.pools.cache, rank) && Reranks(env, s, ResumeTail(l, now), rank, rank')
    requires TailOf(env, s, l, now).1.Pool?
    ensures var (s', id) := (TailStep(env, s, l, now), TailOf(env, s, l, now).1.id);
            && s'.searches[l].phase == Returned(Some(id))
            && id <= |s.pools.entries|
            && |s'.pools.entries| == (if id < |s.pools.entries| then |s.pools.entries| else id + 1)
            && s'.pools.entries[id].lastUsed == now
            && (forall k :: 0 <= k < |s.pools.entries| && k != id ==>
                  s'.pools.entries[k].lastUsed == s.pools.entries[k].lastUsed)
            && IdleThenCap(s.pools, s'.pools, s.searches[l].key, env.idleMs, env.maxPools, now, rank)
  {
    var q := s.searches[l];
    assert PoolsOk(env, s) && SearchOk(env, s, q) && ServedKey(env, s, ResumeTail(l, now)) == Some(q.key);
    hide TailOf, TailStep, Checkout, Lifecycle, OrderedBy, GoodSnapshot, IdleThenCap, Promotes, StateOk, ServedKey;
    TailCases(env, s, l, now);
    TailChecksOut(env, s, l, now);
    CheckoutUses(s.pools, q.key, q.phase.snapshot.value, env.idleMs, env.maxPools, now, env.decrypt, rank, rank');
    CheckoutCloses(s.pools, q.key, q.phase.snapshot.value, env.idleMs, env.maxPools, now, env.decrypt, rank, rank');
  }

  lemma ServedIsUse(s: State, l: nat, now: int, s': State, served: nat, id: nat)
    requires l < |s'.searches| && s'.searches[l].phase == Returned(Some(served)) && served < |s'.pools.entries|
    requires |s'.pools.entries| == (if served < |s.pools.entries| then |s.pools.entries| else served + 1)
    requires served <= |s.pools.entries| && s'.pools.entries[served].lastUsed == now
    requires forall k :: 0 <= k < |s.pools.entries| && k != served ==>
               s'.pools.entries[k].lastUsed == s.pools.entries[k].lastUsed
    ensures UseKept(s, ResumeTail(l, now), s', id)
  {
  }

  lemma OtherIsNoUse(s: State, l: nat, now: int, s': State, id: nat)
    requires l < |s'.searches| && !(s'.searches[l].phase.Returned? && s'.searches[l].phase.pool.Some?)
    requires |s'.pools.entries| == |s.pools.entries|
    requires forall k :: 0 <= k < |s.pools.entries| ==> s'.pools.entries[k].lastUsed == s.pools.entries[k].lastUsed
    ensures UseKept(s, ResumeTail(l, now), s', id)
  {
  }

  lemma TailUses(env: Env, s: State, l: nat, now: int, rank: Key -> int, rank': Key -> int, id: nat)
    requires GoodEnv(env) && InRange(s) && Enabled(s, ResumeTail(l, now)) && StateOk(env, s)
    requires OrderedBy(s.pools.cache, rank) && Reranks(env, s, ResumeTail(l, now), rank, rank')
    ensures UseKept(s, ResumeTail(l, now), TailStep(env, s, l, now), id)
  {
    assert PoolsOk(env, s);
    hide TailOf, TailStep, StateOk, Reranks, OrderedBy, IdleThenCap, DropStale, EvictionsOnly, Lifecycle, UseKept;
    TailCases(env, s, l, now);
    var s' := TailStep(env, s, l, now);
    if TailOf(env, s, l, now).1.Pool? {
      ServedStep(env, s, l, now, rank, rank');
      ServedIsUse(s, l, now, s', TailOf(env, s, l, now).1.id, id);
    } else if TailOf(env, s, l, now).1.Shared? {
      DropStaleKeeps(s.pools, s.searches[l].key, env.decrypt);
      EvictionsUseNothing(s.pools, DropStale(s.pools, s.searches[l].key));
      OtherIsNoUse(s, l, now, s', id);
    } else {
      OtherIsNoUse(s, l, now, s', id);
    }
  }

  lemma UseStep(env: Env, s: State, step: Step, rank: Key -> int, rank': Key -> int, id: nat)
    requires GoodEnv(env) && InRange(s) && Enabled(s, step) && StateOk(env, s)
    requires OrderedBy(s.pools.cache, rank) && Reranks(env, s, step, rank, rank')
    ensures UseKept(s, step, Apply(env, s, step), id)
  {
    if step.ResumeTail? {
      TailUses(env, s, step.l, step.now, rank, rank', id);
      hide TailStep, StateOk, Reranks, OrderedBy, UseKept;
    } else if step.InvalidateOrg? {
      InvalidateKeeps(s.pools, step.key, env.decrypt);
      EvictionsUseNothing(Bump(s.pools, step.key), Invalidate(s.pools, step.key));
      hide Invalidate, StateOk, Reranks, OrderedBy, EvictionsOnly;
    } else {
      hide StateOk, Reranks, OrderedBy, TailStep, Invalidate, Start, Resume;
    }
  }

  // ---------------------------------------------------------------- every run

  ghost function UsedAt(run: Run, j: nat, id: nat): Option<int>
    requires j < |run.steps| < |run.states|
  {
    UsedBy(run.states[j], run.steps[j], run.states[j + 1], id)
  }

  /** `at` is the clock of the last step before state `n` that used the pool. */
  ghost predicate LastUse(run: Run, n: nat, id: nat, at: int)
    requires n <= |run.steps| < |run.states|
  {
    exists j :: 0 <= j < n && UsedAt(run, j, id) == Some(at) && forall i :: j < i < n ==> UsedAt(run, i, id) == None
  }

  /** In every reachable state a pool's `lastUsed` is the clock of the last step that used it. */
  lemma {:induction false} LastUsedIsLastUse(env: Env, run: Run, n: nat, id: nat)
    requires IsRun(env, run) && n <= |run.steps| && id < |run.states[n].pools.entries|
    ensures LastUse(run, n, id, run.states[n].pools.entries[id].lastUsed)
    decreases n
  {
    assert n > 0;
    RunOk(env, run, n - 1);
    RecencyStep(env, run, n - 1);
    var (s, step, s') := (run.states[n - 1], run.steps[n - 1], run.states[n]);
    assert Enabled(s, step) && s' == Apply(env, s, step);
    hide Apply, StateOk, OrderedBy, Reranks, Recency, Enabled, UsedBy;
    UseStep(env, s, step, Recency(env, run, n - 1), Recency(env, run, n), id);
    if UsedAt(run, n - 1, id) == None {
      LastUsedIsLastUse(env, run, n - 1, id);
      var at := s.pools.entries[id].lastUsed;
      var j :|
        0 <= j < n - 1 && UsedAt(run, j, id) == Some(at) && forall i :: j < i < n - 1 ==> UsedAt(run, i, id) == None;
      assert forall i :: j < i < n ==> UsedAt(run, i, id) == None;
    }
  }

  /**
   A lookup that is served closes, of the other organizations' pools, exactly those with nothing borrowed whose
   last use is longer ago than the limit, when there is one. Beyond these a slot goes only from a cache that is
   full, and only one that was served before everything kept.
   */
  lemma LookupClosesTheRested(env: Env, run: Run, n: nat, l: nat, now: int, s: PoolSlot, at: int)
    requires IsRun(env, run) && n < |run.steps| && run.steps[n] == ResumeTail(l, now)
    requires run.states[n + 1].searches[l].phase.Returned? && run.states[n + 1].searches[l].phase.pool.Some?
    requires s in run.states[n].pools.cache && s.key != run.states[n].searches[l].key && LastUse(run, n, s.value, at)
    ensures var (p, q) := (run.states[n].pools, run.states[n + 1].pools);
            && s.value < |p.entries| && s.value < |q.entries|
            && (env.idleMs > 0 && p.entries[s.value].borrowed == 0 && now - at > env.idleMs ==>
                  s !in q.cache && q.entries[s.value].ended)
            && (!(env.idleMs > 0 && p.entries[s.value].borrowed == 0 && now - at > env.idleMs) && s !in q.cache ==>
                  && |q.cache| == env.maxPools
                  && forall t :: t in q.cache && t.key != run.states[n].searches[l].key ==>
                       LastServed(env, run, n, s.key) < LastServed(env, run, n, t.key))
  {
    RunOk(env, run, n);
    RecencyStep(env, run, n);
    var (s0, rank) := (run.states[n], Recency(env, run, n));
    ReturnsAPool(env, s0, l, now);
    LastUsedIsLastUse(env, run, n, s.value);
    OneLastUse(run, n, s.value, at, s0.pools.entries[s.value].lastUsed);
    hide TailOf, TailStep, StateOk, OrderedBy, Reranks, LastUse, LastServed;
    ServedStep(env, s0, l, now, rank, Recency(env, run, n + 1));
    assert s in s0.pools.cache && Rested(s0.pools.entries[s.value], env.idleMs, now) ==>
             s !in run.states[n + 1].pools.cache;
    forall t | t in run.states[n + 1].pools.cache && t.key != s0.searches[l].key
      ensures rank(s.key) == LastServed(env, run, n, s.key) && rank(t.key) == LastServed(env, run, n, t.key)
    {
    }
  }

  lemma ReturnsAPool(env: Env, s: State, l: nat, now: int)
    requires InRange(s) && Enabled(s, ResumeTail(l, now))
    requires var phase := TailStep(env, s, l, now).searches[l].phase; phase.Returned? && phase.pool.Some?
    ensures TailOf(env, s, l, now).1.Pool?
  {
    hide Tail, MemoFor;
  }

  lemma OneLastUse(run: Run, n: nat, id: nat, a: int, b: int)
    requires n <= |run.steps| < |run.states| && LastUse(run, n, id, a) && LastUse(run, n, id, b)
    ensures a == b
  {
    var i :| 0 <= i < n && UsedAt(run, i, id) == Some(a) && forall k :: i < k < n ==> UsedAt(run, k, id) == None;
    var j :| 0 <= j < n && UsedAt(run, j, id) == Some(b) && forall k :: j < k < n ==> UsedAt(run, k, id) == None;
    hide UsedAt;
    assert i == j;
  }
}
