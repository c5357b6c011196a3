/**
 Where a tenant pool can be in its life, and what every stretch of the cache
 code keeps: a pool is cached, draining or ended, never two of these, and its
 shutdown is queued at most once.
 */
module PoolLifecycle {
  import opened Wrappers
  import opened OrderedMap
  import opened TenantConfig
  import opened PoolCache

  ghost predicate Cached(p: Pools, id: nat) {
    exists s :: s in p.cache && s.value == id
  }

  predicate Draining(e: Entry) {
    e.retired && !e.ended && e.borrowed > 0
  }

  /** What holds of every pool, whether or not the Map still holds it. */
  predicate EntryOk(e: Entry, decrypt: Decrypt) {
    && e.endsQueued + e.endsRun == (if e.ended then 1 else 0)
    && ConfigOf(e.fingerprint, decrypt) == Some(e.config)
  }

  ghost predicate Lifecycle(p: Pools, decrypt: Decrypt) {
    && WellFormed(p)
    && (forall id :: 0 <= id < |p.entries| ==> EntryOk(p.entries[id], decrypt))
    && (forall s :: s in p.cache ==>
          var e := p.entries[s.value];
          !e.retired && !e.ended && e.generation == Generation(p, s.key))
    && (forall id :: 0 <= id < |p.entries| && !Cached(p, id) ==> p.entries[id].ended || Draining(p.entries[id]))
  }

  /** Exactly one of the three. */
  lemma Trichotomy(p: Pools, decrypt: Decrypt, id: nat)
    requires Lifecycle(p, decrypt) && id < |p.entries|
    ensures var e := p.entries[id];
            var cached := Cached(p, id) && !e.retired && !e.ended;
            && (cached || Draining(e) || e.ended)
            && !(cached && Draining(e)) && !(cached && e.ended) && !(Draining(e) && e.ended)
            && (Cached(p, id) ==> cached)
  {
  }

  /** `q` differs from `p` by evictions only. */
  ghost predicate EvictionsOnly(p: Pools, q: Pools) {
    && q.generations == p.generations
    && |q.entries| == |p.entries|
    && (forall s :: s in q.cache ==> s in p.cache)
    && (forall id :: 0 <= id < |p.entries| ==> q.entries[id] in {p.entries[id], EvictEntry(p.entries[id])})
  }

  lemma SlotsDistinct(p: Pools, s: PoolSlot, t: PoolSlot)
    requires WellFormed(p) && s in p.cache && t in p.cache && s != t
    ensures s.key != t.key && s.value != t.value
  {
    var i :| 0 <= i < |p.cache| && p.cache[i] == s;
    var j :| 0 <= j < |p.cache| && p.cache[j] == t;
    if i < j {
      assert p.cache[i].key != p.cache[j].key && p.cache[i].value != p.cache[j].value;
    } else {
      assert p.cache[j].key != p.cache[i].key && p.cache[j].value != p.cache[i].value;
    }
  }

  /** A pool that leaves the cache is ended, or draining while connections are out. */
  lemma DropSlotKeeps(p: Pools, q: Pools, s: PoolSlot, decrypt: Decrypt)
    requires Lifecycle(p, decrypt) && s in p.cache && WellFormed(q) && q.generations == p.generations
    requires q.entries == p.entries[s.value := EvictEntry(p.entries[s.value])]
    requires forall t :: t in q.cache <==> t in p.cache && t != s
    requires forall t :: t in p.cache && t != s ==> t.value != s.value
    ensures Lifecycle(q, decrypt)
  {
    forall id | 0 <= id < |q.entries| && !Cached(q, id) ensures q.entries[id].ended || Draining(q.entries[id]) {
      if id != s.value {
        assert forall t :: t in p.cache && t != s ==> t in q.cache;
        assert !Cached(p, id);
      }
    }
  }

  lemma EvictKeeps(p: Pools, s: PoolSlot, decrypt: Decrypt)
    requires Lifecycle(p, decrypt) && s in p.cache
    ensures var q := Evict(p, s);
            && Lifecycle(q, decrypt) && EvictionsOnly(p, q)
            && q.cache == Without(p.cache, s.key)
  {
    var i :| 0 <= i < |p.cache| && p.cache[i] == s;
    EvictCached(p, i);
    LookupUnique(p.cache, s);
    var q := Evict(p, s);
    forall t | t in p.cache && t != s ensures t.value != s.value && t.key != s.key {
      SlotsDistinct(p, s, t);
    }
    hide Lifecycle, WellFormed, EvictEntry;
    DropSlotKeeps(p, q, s, decrypt);
  }

  lemma {:induction false} EvictAllKeeps(p: Pools, ss: seq<PoolSlot>, decrypt: Decrypt)
    requires Lifecycle(p, decrypt) && UniqueKeys(ss) && forall s :: s in ss ==> s in p.cache
    ensures var q := EvictAll(p, ss);
            && Lifecycle(q, decrypt) && EvictionsOnly(p, q)
            && (forall s :: s in q.cache <==> s in p.cache && s !in ss)
    decreases |ss|
  {
    if ss != [] {
      EvictKeeps(p, ss[0], decrypt);
      UniqueTail(ss);
      var q := Evict(p, ss[0]);
      forall s | s in ss[1..] ensures s in q.cache {
        assert s in ss;
      }
      EvictAllKeeps(q, ss[1..], decrypt);
      forall s | s in p.cache && s.key == ss[0].key ensures s == ss[0] {
        LookupUnique(p.cache, s);
        LookupUnique(p.cache, ss[0]);
      }
    }
  }

  lemma {:induction false} EvictAllKeepsOrder(p: Pools, ss: seq<PoolSlot>, rank: Key -> int)
    requires OrderedBy(p.cache, rank) && forall s :: s in ss ==> s.value < |p.entries|
    ensures OrderedBy(EvictAll(p, ss).cache, rank)
    decreases |ss|
  {
    if ss != [] {
      WithoutKeepsOrder(p.cache, ss[0].key, rank);
      EvictAllKeepsOrder(Evict(p, ss[0]), ss[1..], rank);
    }
  }

  /** The idle sweep closes exactly the idle pools, none with a borrowed connection. */
  lemma EvictIdleKeeps(p: Pools, idleMs: int, now: int, decrypt: Decrypt, rank: Key -> int)
    requires Lifecycle(p, decrypt) && OrderedBy(p.cache, rank)
    ensures var q := EvictIdle(p, idleMs, now);
            && Lifecycle(q, decrypt) && Frame(p, q) && q.generations == p.generations && OrderedBy(q.cache, rank)
            && (forall s :: s in q.cache <==>
                  && s in p.cache
                  && (idleMs <= 0 || p.entries[s.value].borrowed > 0 || now - p.entries[s.value].lastUsed <= idleMs))
  {
    if idleMs > 0 {
      var ss := IdleSlots(p.cache, p.entries, idleMs, now);
      IdleSlotsUnique(p.cache, p.entries, idleMs, now);
      EvictAllKeeps(p, ss, decrypt);
      EvictAllKeepsOrder(p, ss, rank);
      EvictionsFrame(p, EvictAll(p, ss));
    }
  }

  lemma {:induction false} EvictAllPrefix(p: Pools, n: nat)
    requires WellFormed(p) && n <= |p.cache|
    ensures forall s :: s in p.cache[..n] ==> s in p.cache
    ensures EvictAll(p, p.cache[..n]).cache == p.cache[n..]
    decreases n
  {
    if n > 0 {
      PrefixStep(p, n);
      hide Evict, EvictAll, WellFormed;
      var q := Evict(p, p.cache[0]);
      EvictAllPrefix(q, n - 1);
      assert q.cache[n - 1..] == p.cache[n..];
    }
  }

  /** The cap drops the oldest slots and no others. */
  lemma TrimKeeps(p: Pools, max: nat, decrypt: Decrypt)
    requires Lifecycle(p, decrypt)
    ensures var q := Trim(p, max);
            && Lifecycle(q, decrypt) && EvictionsOnly(p, q)
            && q.cache == p.cache[if |p.cache| <= max then 0 else |p.cache| - max..]
  {
    if |p.cache| > max {
      var n := |p.cache| - max;
      PrefixUnique(p.cache, n);
      EvictAllPrefix(p, n);
      hide Lifecycle, EvictionsOnly, EvictAll;
      EvictAllKeeps(p, p.cache[..n], decrypt);
    }
  }

  lemma PrefixUnique(c: seq<PoolSlot>, n: nat)
    requires UniqueKeys(c) && n <= |c|
    ensures UniqueKeys(c[..n])
  {
  }

  lemma {:induction false} DropStaleKeeps(p: Pools, key: Key, decrypt: Decrypt)
    requires Lifecycle(p, decrypt)
    ensures var q := DropStale(p, key);
            && Lifecycle(q, decrypt) && EvictionsOnly(p, q) && q.cache == Without(p.cache, key)
  {
    var stale := Lookup(p.cache, key);
    if stale.Some? {
      EvictKeeps(p, Slot(key, stale.value), decrypt);
    } else {
      WithoutAbsent(p.cache, key);
    }
  }

  /** After an invalidation no pool of the organization is cached, whatever its generation was. */
  lemma {:induction false} InvalidateKeeps(p: Pools, key: Key, decrypt: Decrypt)
    requires Lifecycle(p, decrypt)
    ensures var q := Invalidate(p, key);
            && Lifecycle(q, decrypt) && EvictionsOnly(Bump(p, key), q) && q.cache == Without(p.cache, key)
            && Generation(q, key) == Generation(p, key) + 1
            && (forall k :: k != key ==> Generation(q, k) == Generation(p, k))
  {
    DropStaleKeeps(p, key, decrypt);
    assert Invalidate(p, key) == DropStale(p, key).(generations := Bump(p, key).generations);
  }

  // ---------------------------------------------------------------- serving a pool

  /** What serving may do to a pool it does not create. */
  predicate Agree(e: Entry, e': Entry) {
    && e'.config == e.config && e'.generation == e.generation && e'.fingerprint == e.fingerprint
    && e'.borrowed == e.borrowed && e'.endsRun == e.endsRun
    && (e.ended ==> e'.ended) && (e'.ended ==> e.ended || e.borrowed == 0)
  }

  ghost predicate Frame(p: Pools, q: Pools) {
    && |p.entries| <= |q.entries|
    && (forall id :: 0 <= id < |p.entries| ==> Agree(p.entries[id], q.entries[id]))
    && (forall id :: |p.entries| <= id < |q.entries| ==> q.entries[id].borrowed == 0 && q.entries[id].endsRun == 0)
  }

  lemma FrameTransitive(p: Pools, q: Pools, r: Pools)
    requires Frame(p, q) && Frame(q, r)
    ensures Frame(p, r)
  {
  }

  lemma EvictionsFrame(p: Pools, q: Pools)
    requires EvictionsOnly(p, q)
    ensures Frame(p, q)
  {
  }

  ghost predicate GoodSnapshot(s: Snapshot, decrypt: Decrypt) {
    s.value == ConfigOf(s.fingerprint, decrypt)
  }

  ghost predicate Serves(e: Entry, s: Snapshot)
    requires s.value.Some?
  {
    e.config == s.value.value && e.generation == s.generation && e.fingerprint == s.fingerprint
    && !e.retired && !e.ended
  }

  lemma {:induction false} ReuseKeeps(p: Pools, key: Key, snapshot: Snapshot, now: int, decrypt: Decrypt)
    requires Lifecycle(p, decrypt) && Reusable(p, key, snapshot)
    requires snapshot.value.Some? && GoodSnapshot(snapshot, decrypt)
    ensures var (q, id) := Serve(p, key, snapshot, now);
            && Lifecycle(q, decrypt) && Frame(p, q) && q.generations == p.generations
            && q.cache == Without(p.cache, key) + [Slot(key, id)] && Serves(q.entries[id], snapshot)
  {
    var (q, id) := Serve(p, key, snapshot, now);
    var rest := Without(p.cache, key);
    WithoutKeepsUnique(p.cache, key);
    WithoutKeepsUniqueValues(p.cache, key);
    WithoutDropsValue(p.cache, key);
    SnocUnique(rest, Slot(key, id));
    SnocUniqueValues(rest, Slot(key, id));
    forall i | 0 <= i < |q.entries| && !Cached(q, i) ensures q.entries[i].ended || Draining(q.entries[i]) {
      assert Slot(key, id) in q.cache;
      if s :| s in p.cache && s.value == i {
        LookupUnique(p.cache, s);
      }
    }
  }

  lemma {:induction false} CreateKeeps(p: Pools, key: Key, snapshot: Snapshot, now: int, decrypt: Decrypt)
    requires Lifecycle(p, decrypt) && !Reusable(p, key, snapshot)
    requires snapshot.value.Some? && GoodSnapshot(snapshot, decrypt) && snapshot.generation == Generation(p, key)
    ensures var (q, id) := Serve(p, key, snapshot, now);
            && Lifecycle(q, decrypt) && Frame(p, q) && q.generations == p.generations
            && q.cache == Without(p.cache, key) + [Slot(key, id)] && Serves(q.entries[id], snapshot)
  {
    var (q, id) := Serve(p, key, snapshot, now);
    var d := DropStale(p, key);
    DropStaleKeeps(p, key, decrypt);
    EvictionsFrame(p, d);
    SnocUnique(d.cache, Slot(key, id));
    SnocUniqueValues(d.cache, Slot(key, id));
    assert q.entries == d.entries + [NewEntry(snapshot.value.value, snapshot, now)];
    forall i | 0 <= i < |q.entries| && !Cached(q, i) ensures q.entries[i].ended || Draining(q.entries[i]) {
      assert Slot(key, id) in q.cache;
      assert !Cached(d, i) by {
        forall s | s in d.cache ensures s.value != i { assert s in q.cache; }
      }
    }
  }

  /** `rank'` puts `key` above everything `rank` ordered and agrees with it elsewhere. */
  ghost predicate Promotes(c: seq<PoolSlot>, rank: Key -> int, rank': Key -> int, key: Key) {
    forall s :: s in c && s.key != key ==> rank'(s.key) == rank(s.key) < rank'(key)
  }

  lemma SnocKeepsOrder(c: seq<PoolSlot>, rank: Key -> int, rank': Key -> int, s: PoolSlot)
    requires OrderedBy(c, rank) && Promotes(c, rank, rank', s.key) && forall t :: t in c ==> t.key != s.key
    ensures OrderedBy(c + [s], rank')
  {
    forall i, j | 0 <= i < j < |c + [s]| ensures rank'((c + [s])[i].key) < rank'((c + [s])[j].key) {
      assert c[i] in c;
      if j < |c| { assert c[j] in c; }
    }
  }

  lemma {:induction false} ServeKeeps(p: Pools, key: Key, snapshot: Snapshot, now: int, decrypt: Decrypt,
                                      rank: Key -> int, rank': Key -> int)
    requires Lifecycle(p, decrypt) && snapshot.value.Some? && GoodSnapshot(snapshot, decrypt)
    requires snapshot.generation == Generation(p, key)
    requires OrderedBy(p.cache, rank) && Promotes(p.cache, rank, rank', key)
    ensures var (q, id) := Serve(p, key, snapshot, now);
            && Lifecycle(q, decrypt) && Frame(p, q) && q.generations == p.generations
            && q.cache == Without(p.cache, key) + [Slot(key, id)] && Serves(q.entries[id], snapshot)
            && OrderedBy(q.cache, rank')
  {
    if Reusable(p, key, snapshot) {
      ReuseKeeps(p, key, snapshot, now, decrypt);
    } else {
      CreateKeeps(p, key, snapshot, now, decrypt);
    }
    WithoutKeepsOrder(p.cache, key, rank);
    hide Lifecycle, Frame, Serve;
    SnocKeepsOrder(Without(p.cache, key), rank, rank', Slot(key, Serve(p, key, snapshot, now).1));
  }

  lemma SuffixKeepsOrder(c: seq<PoolSlot>, n: nat, rank: Key -> int)
    requires OrderedBy(c, rank) && n <= |c|
    ensures OrderedBy(c[n..], rank)
  {
    forall i, j | 0 <= i < j < |c[n..]| ensures rank(c[n..][i].key) < rank(c[n..][j].key) {
      assert c[n..][i] == c[n + i] && c[n..][j] == c[n + j];
    }
  }

  /** Evictions leave a pool that stays cached as it was. */
  lemma ServedSurvives(p: Pools, q: Pools, snapshot: Snapshot, decrypt: Decrypt)
    requires Lifecycle(p, decrypt) && Lifecycle(q, decrypt) && EvictionsOnly(p, q) && p.cache != [] && q.cache != []
    requires snapshot.value.Some?
    requires q.cache[|q.cache| - 1] == p.cache[|p.cache| - 1]
    requires Serves(p.entries[p.cache[|p.cache| - 1].value], snapshot)
    ensures p.cache[|p.cache| - 1].value < |q.entries| && Serves(q.entries[p.cache[|p.cache| - 1].value], snapshot)
  {
    assert q.cache[|q.cache| - 1] in q.cache;
    hide WellFormed, EntryOk;
  }

  /** The youngest slot survives the cap, and so does its pool. */
  lemma TrimServed(p: Pools, key: Key, snapshot: Snapshot, max: nat, decrypt: Decrypt, rank: Key -> int)
    requires Lifecycle(p, decrypt) && max >= 1 && p.cache != [] && snapshot.value.Some?
    requires Serves(p.entries[p.cache[|p.cache| - 1].value], snapshot) && OrderedBy(p.cache, rank)
    ensures var q := Trim(p, max);
            && Lifecycle(q, decrypt) && Frame(p, q) && q.generations == p.generations
            && 1 <= |q.cache| <= max && q.cache[|q.cache| - 1] == p.cache[|p.cache| - 1]
            && Serves(q.entries[p.cache[|p.cache| - 1].value], snapshot)
            && OrderedBy(q.cache, rank)
  {
    assert IdsInRange(p);
    hide *;
    TrimKeeps(p, max, decrypt);
    var q := Trim(p, max);
    EvictionsFrame(p, q);
    ServedSurvives(p, q, snapshot, decrypt);
    SuffixKeepsOrder(p.cache, if |p.cache| <= max then 0 else |p.cache| - max, rank);
  }

  /**
   A lookup that is served: one pool for the key, current, at the young end;
   at most `max` pools; the recency order extended by this lookup.
   */
  lemma CheckoutKeeps(p: Pools, key: Key, snapshot: Snapshot, idleMs: int, max: nat, now: int,
                      decrypt: Decrypt, rank: Key -> int, rank': Key -> int)
    requires Lifecycle(p, decrypt) && snapshot.value.Some? && GoodSnapshot(snapshot, decrypt) && max >= 1
    requires snapshot.generation == Generation(p, key)
    requires OrderedBy(p.cache, rank) && Promotes(p.cache, rank, rank', key)
    ensures var (q, id) := Checkout(p, key, snapshot, idleMs, max, now);
            && Lifecycle(q, decrypt) && Frame(p, q) && q.generations == p.generations
            && 1 <= |q.cache| <= max && q.cache[|q.cache| - 1] == Slot(key, id)
            && Serves(q.entries[id], snapshot)
            && OrderedBy(q.cache, rank')
  {
    EvictIdleKeeps(p, idleMs, now, decrypt, rank);
    hide Lifecycle, Frame, EvictionsOnly, Serve, Trim, EvictIdle, Without, OrderedBy, Serves, GoodSnapshot;
    var a := EvictIdle(p, idleMs, now);
    ServeKeeps(a, key, snapshot, now, decrypt, rank, rank');
    var (b, id) := Serve(a, key, snapshot, now);
    assert b.cache[|b.cache| - 1] == Slot(key, id);
    TrimServed(b, key, snapshot, max, decrypt, rank');
    FrameTransitive(p, a, b);
    FrameTransitive(p, b, Trim(b, max));
  }

  // ---------------------------------------------------------------- the pool library's events

  /**
   A lookup reuses the cached pool exactly when it has the resolved snapshot's generation and fingerprint and is
   in use or was used within the idle limit; otherwise it creates one new pool.
   */
  lemma CheckoutReusesIff(p: Pools, key: Key, snapshot: Snapshot, idleMs: int, max: nat, now: int,
                          decrypt: Decrypt, rank: Key -> int)
    requires Lifecycle(p, decrypt) && snapshot.value.Some? && OrderedBy(p.cache, rank)
    ensures var (q, id) := Checkout(p, key, snapshot, idleMs, max, now);
            && (forall s :: s in p.cache && s.key == key ==>
                  var e := p.entries[s.value];
                  if e.generation == snapshot.generation && e.fingerprint == snapshot.fingerprint
                     && (idleMs <= 0 || e.borrowed > 0 || now - e.lastUsed <= idleMs)
                  then id == s.value && |q.entries| == |p.entries|
                  else id == |p.entries| && |q.entries| == |p.entries| + 1)
            && ((forall s :: s in p.cache ==> s.key != key) ==> id == |p.entries| && |q.entries| == |p.entries| + 1)
  {
    EvictIdleKeeps(p, idleMs, now, decrypt, rank);
    var a := EvictIdle(p, idleMs, now);
    var (found, kept) := (Lookup(p.cache, key), Lookup(a.cache, key));
    if found.Some? {
      var s := Slot(key, found.value);
      assert s in p.cache && Agree(p.entries[s.value], a.entries[s.value]);
      if s in a.cache { LookupUnique(a.cache, s); }
    }
    if kept.Some? {
      LookupUnique(p.cache, Slot(key, kept.value));
    }
    hide Lifecycle, Frame, EvictIdle, EvictAll, Trim, Idle;
  }

  lemma UpdateCached(p: Pools, id: nat, e: Entry)
    requires id < |p.entries|
    ensures forall i :: Cached(Update(p, id, e), i) <==> Cached(p, i)
  {
    assert Update(p, id, e).cache == p.cache;
  }

  lemma AcquireKeeps(p: Pools, id: nat, now: int, decrypt: Decrypt)
    requires Lifecycle(p, decrypt) && id < |p.entries|
    ensures Lifecycle(Update(p, id, AcquireEntry(p.entries[id], now)), decrypt)
  {
    UpdateCached(p, id, AcquireEntry(p.entries[id], now));
  }

  /** Returning the last borrowed connection of a retired pool ends it. */
  lemma ReleaseKeeps(p: Pools, id: nat, now: int, decrypt: Decrypt)
    requires Lifecycle(p, decrypt) && id < |p.entries| && p.entries[id].borrowed > 0
    ensures Lifecycle(Update(p, id, ReleaseEntry(p.entries[id], now)), decrypt)
  {
    UpdateCached(p, id, ReleaseEntry(p.entries[id], now));
  }

  lemma RunEndKeeps(p: Pools, id: nat, decrypt: Decrypt)
    requires Lifecycle(p, decrypt) && id < |p.entries| && p.entries[id].endsQueued > 0
    ensures Lifecycle(Update(p, id, RunEndEntry(p.entries[id])), decrypt)
  {
    UpdateCached(p, id, RunEndEntry(p.entries[id]));
  }
}
