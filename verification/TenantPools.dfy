/**
 The tenant pool cache as the module keeps it: pool entries updated in place
 and shared by the Map, its callers and the pool's event handlers. Every
 method is tied to its function in PoolCache.
 */
module TenantPools {
  import opened Wrappers
  import opened OrderedMap
  import opened TenantConfig
  import PC = PoolCache

  class PoolEntry {
    ghost const id: nat
    const config: Config
    const generation: nat
    const fingerprint: Fingerprint
    var lastUsed: int
    var borrowed: nat
    var retired: bool
    var ended: bool
    ghost var endsQueued: nat
    ghost var endsRun: nat

    ghost function Abs(): PC.Entry
      reads this
    {
      PC.Entry(config, generation, fingerprint, lastUsed, borrowed, retired, ended, endsQueued, endsRun)
    }

    constructor (ghost id: nat, config: Config, snapshot: PC.Snapshot, now: int)
      ensures this.id == id && Abs() == PC.NewEntry(config, snapshot, now)
    {
      this.id := id;
      this.config, generation, fingerprint := config, snapshot.generation, snapshot.fingerprint;
      lastUsed, borrowed, retired, ended := now, 0, false, false;
      endsQueued, endsRun := 0, 0;
    }

    method OnAcquire(now: int)
      modifies this
      ensures Abs() == PC.AcquireEntry(old(Abs()), now)
    {
      borrowed := borrowed + 1;
      lastUsed := now;
    }

    method OnRelease(now: int)
      modifies this
      ensures Abs() == PC.ReleaseEntry(old(Abs()), now)
    {
      if borrowed > 0 { borrowed := borrowed - 1; }
      lastUsed := now;
      if retired && borrowed == 0 { EndTenantPool(); }
    }

    method RetireOrEnd()
      modifies this
      ensures Abs() == PC.EvictEntry(old(Abs()))
    {
      if borrowed > 0 {
        retired := true;
      } else {
        EndTenantPool();
      }
    }

    method EndTenantPool()
      modifies this
      ensures Abs() == PC.EndEntry(old(Abs()))
    {
      if ended { return; }
      ended := true;
      endsQueued := endsQueued + 1;
    }
  }

  ghost function AbsCache(c: seq<Slot<Key, PoolEntry>>): (r: seq<PC.PoolSlot>)
    ensures |r| == |c|
  {
    if c == [] then [] else [Slot(c[0].key, c[0].value.id)] + AbsCache(c[1..])
  }

  lemma {:induction false} AbsAt(c: seq<Slot<Key, PoolEntry>>, i: nat)
    requires i < |c|
    ensures AbsCache(c)[i] == Slot(c[i].key, c[i].value.id)
  {
    if i > 0 { AbsAt(c[1..], i - 1); }
  }

  lemma {:induction false} AbsLookup(c: seq<Slot<Key, PoolEntry>>, key: Key)
    ensures Lookup(AbsCache(c), key)
         == if Lookup(c, key).Some? then Some(Lookup(c, key).value.id) else None
  {
    if c != [] {
      AbsLookup(c[1..], key);
    }
  }

  lemma {:induction false} AbsWithout(c: seq<Slot<Key, PoolEntry>>, key: Key)
    ensures Without(AbsCache(c), key) == AbsCache(Without(c, key))
  {
    if c != [] {
      AbsWithout(c[1..], key);
      assert AbsCache(c)[1..] == AbsCache(c[1..]);
    }
  }

  lemma UnlinkAbs(c: seq<Slot<Key, PoolEntry>>, key: Key, entry: PoolEntry)
    requires UniqueKeys(AbsCache(c)) && UniqueValues(AbsCache(c))
    requires forall s :: s in c && s.value.id == entry.id ==> s.value == entry
    ensures PC.Unlinked(AbsCache(c), Slot(key, entry.id))
         == AbsCache(if Lookup(c, key) == Some(entry) then Without(c, key) else c)
    ensures UniqueKeys(AbsCache(Without(c, key))) && UniqueValues(AbsCache(Without(c, key)))
  {
    AbsLookup(c, key);
    AbsWithout(c, key);
    WithoutKeepsUnique(AbsCache(c), key);
    WithoutKeepsUniqueValues(AbsCache(c), key);
  }

  lemma {:induction false} AbsSnoc(c: seq<Slot<Key, PoolEntry>>, s: Slot<Key, PoolEntry>)
    requires UniqueKeys(AbsCache(c)) && UniqueValues(AbsCache(c))
    requires forall t :: t in c ==> t.key != s.key && t.value.id != s.value.id
    ensures AbsCache(c + [s]) == AbsCache(c) + [Slot(s.key, s.value.id)]
    ensures UniqueKeys(AbsCache(c + [s])) && UniqueValues(AbsCache(c + [s]))
  {
    AbsConcat(c, s);
    forall i | 0 <= i < |c| ensures AbsCache(c)[i] == Slot(c[i].key, c[i].value.id) && c[i] in c {
      AbsAt(c, i);
    }
  }

  lemma {:induction false} AbsConcat(c: seq<Slot<Key, PoolEntry>>, s: Slot<Key, PoolEntry>)
    ensures AbsCache(c + [s]) == AbsCache(c) + [Slot(s.key, s.value.id)]
  {
    if c != [] {
      assert (c + [s])[1..] == c[1..] + [s];
      AbsConcat(c[1..], s);
    } else {
      assert c + [s] == [s];
    }
  }

  datatype TailResult = NoPool | ResolveAgain | Serving(entry: PoolEntry) {
    ghost function Abs(): PC.TailOutcome {
      match this
      case NoPool => PC.Shared
      case ResolveAgain => PC.Again
      case Serving(e) => PC.Pool(e.id)
    }
  }

  class TenantPools {
    const idleMs: int
    const maxPools: nat
    var generations: map<Key, nat>
    var cache: seq<Slot<Key, PoolEntry>>
    // Every entry ever created, by id, and the value the whole structure stands for.
    ghost var created: seq<PoolEntry>
    ghost var state: PC.Pools

    ghost predicate Known(e: PoolEntry)
      reads this`created
    {
      e.id < |created| && created[e.id] == e
    }

    ghost predicate Valid()
      reads this, created
    {
      && (forall i :: 0 <= i < |created| ==> created[i].id == i)
      && (forall s :: s in cache ==> Known(s.value))
      && PC.WellFormed(state)
      && state.generations == generations
      && state.cache == AbsCache(cache)
      && |state.entries| == |created|
      && (forall i :: 0 <= i < |created| ==> state.entries[i] == created[i].Abs())
    }

    constructor (idleMs: int, maxPools: nat)
      ensures Valid() && state == PC.Pools(map[], [], [])
      ensures this.idleMs == idleMs && this.maxPools == maxPools
    {
      this.idleMs, this.maxPools := idleMs, maxPools;
      generations, cache, created := map[], [], [];
      state := PC.Pools(map[], [], []);
    }

    method Generation(key: Key) returns (g: nat)
      requires Valid()
      ensures g == PC.Generation(state, key)
    {
      g := if key in generations then generations[key] else 0;
    }

    // tenantPoolCache.delete(key), when the key still maps to this entry.
    method Unlink(key: Key, entry: PoolEntry)
      requires Valid() && Known(entry)
      modifies this`cache, this`state
      ensures Valid()
      ensures state == PC.Unlink(old(state), Slot(key, entry.id))
      ensures cache == old(cache) || cache == Without(old(cache), key)
    {
      hide UniqueKeys, UniqueValues, AbsCache, Lookup;
      UnlinkAbs(cache, key, entry);
      state := state.(cache := PC.Unlinked(state.cache, Slot(key, entry.id)));
      if Lookup(cache, key) == Some(entry) {
        cache := Without(cache, key);
      }
    }

    method Close(entry: PoolEntry)
      requires Valid() && Known(entry)
      modifies this`state, entry
      ensures Valid()
      ensures entry.id < |old(state.entries)|
      ensures state == PC.Update(old(state), entry.id, PC.EvictEntry(old(state.entries)[entry.id]))
    {
      entry.RetireOrEnd();
      state := PC.Update(state, entry.id, PC.EvictEntry(state.entries[entry.id]));
    }

    method EvictTenantPool(key: Key, entry: PoolEntry)
      requires Valid() && Known(entry)
      modifies this`cache, this`state, entry
      ensures Valid()
      ensures entry.id < |old(state.entries)| && state == PC.Evict(old(state), Slot(key, entry.id))
      ensures cache == old(cache) || cache == Without(old(cache), key)
    {
      Unlink(key, entry);
      Close(entry);
    }

    lemma SlotFacts(i: nat)
      requires Valid() && i < |cache|
      ensures Known(cache[i].value)
      ensures PC.WellFormed(state) && |state.cache| == |cache|
      ensures state.cache[i] == Slot(cache[i].key, cache[i].value.id)
      ensures state.entries[cache[i].value.id] == cache[i].value.Abs()
    {
      AbsAt(cache, i);
    }

    lemma SizeFacts()
      requires Valid()
      ensures |state.cache| == |cache| && PC.WellFormed(state) && PC.IdsInRange(state)
    {
    }

    method EvictIdleTenantPools(now: int)
      requires Valid()
      modifies this`cache, this`state, created
      ensures Valid() && PC.IdsInRange(old(state)) && state == PC.EvictIdle(old(state), idleMs, now)
      ensures forall s :: s in state.cache <==>
                && s in old(state).cache
                && var e := old(state).entries[s.value];
                   idleMs <= 0 || e.borrowed > 0 || now - e.lastUsed <= idleMs
      ensures forall s :: s in old(state).cache && s !in state.cache ==> state.entries[s.value].ended
    {
      SizeFacts();
      PC.SweepIsExact(state, idleMs, now);
      if idleMs <= 0 { return; }
      var i := 0;
      assert state.cache[0..] == state.cache;
      hide *;
      while i < |cache|
        invariant Valid() && i <= |cache|
        invariant PC.EvictAll(state, PC.IdleSlots(state.cache[i..], state.entries, idleMs, now))
               == PC.EvictIdle(old(state), idleMs, now)
        decreases |cache| - i
      {
        var slot := cache[i];
        SlotFacts(i);
        PC.SweepTurn(state, i, idleMs, now);
        if slot.value.borrowed > 0 || now - slot.value.lastUsed <= idleMs {
          i := i + 1;
        } else {
          EvictTenantPool(slot.key, slot.value);
        }
      }
    }

    // Lines 334-361 for a key that is absent from the cache.
    method Insert(key: Key, entry: PoolEntry)
      requires Valid() && Known(entry)
      requires forall s :: s in cache ==> s.key != key && s.value != entry
      modifies this`cache, this`state
      ensures Valid() && state == old(state).(cache := old(state).cache + [Slot(key, entry.id)])
    {
      AbsSnoc(cache, Slot(key, entry));
      state := state.(cache := state.cache + [Slot(key, entry.id)]);
      cache := cache + [Slot(key, entry)];
    }

    method Register(config: Config, snapshot: PC.Snapshot, now: int) returns (entry: PoolEntry)
      requires Valid()
      modifies this`created, this`state
      ensures Valid() && fresh(entry) && entry.id == |old(created)| && created == old(created) + [entry]
      ensures state == old(state).(entries := old(state).entries + [PC.NewEntry(config, snapshot, now)])
    {
      entry := new PoolEntry(|created|, config, snapshot, now);
      created := created + [entry];
      state := state.(entries := state.entries + [PC.NewEntry(config, snapshot, now)]);
    }

    method Touch(entry: PoolEntry, now: int)
      requires Valid() && Known(entry)
      modifies this`state, entry`lastUsed
      ensures Valid()
      ensures entry.id < |old(state).entries|
      ensures state == PC.Update(old(state), entry.id, old(state).entries[entry.id].(lastUsed := now))
    {
      entry.lastUsed := now;
      state := PC.Update(state, entry.id, state.entries[entry.id].(lastUsed := now));
    }

    lemma CacheIds()
      requires Valid()
      ensures forall s :: s in cache ==> Known(s.value) && Slot(s.key, s.value.id) in state.cache
    {
      forall s | s in cache ensures Slot(s.key, s.value.id) in state.cache {
        var i :| 0 <= i < |cache| && cache[i] == s;
        AbsAt(cache, i);
      }
    }

    // evictTenantPool for the entry the key maps to.
    method EvictCurrent(key: Key, entry: PoolEntry)
      requires Valid() && Known(entry) && Lookup(state.cache, key) == Some(entry.id)
      modifies this`cache, this`state, entry
      ensures Valid() && PC.IdsInRange(old(state)) && state == PC.DropStale(old(state), key)
      ensures forall s :: s in cache ==> s.key != key && s in old(cache)
    {
      EvictTenantPool(key, entry);
      CacheIds();
    }

    // Delete the key's slot, ready for re-insertion at the young end.
    method Detach(key: Key, entry: PoolEntry)
      requires Valid() && Known(entry) && Lookup(state.cache, key) == Some(entry.id)
      modifies this`cache, this`state
      ensures Valid() && state == old(state).(cache := Without(old(state).cache, key))
      ensures forall s :: s in cache ==> s.key != key && s.value != entry
    {
      WithoutDropsValue(state.cache, key);
      Unlink(key, entry);
      CacheIds();
    }

    method PickPool(key: Key, snapshot: PC.Snapshot, now: int) returns (entry: PoolEntry)
      requires Valid() && snapshot.value.Some?
      modifies this`cache, this`state, this`created, created
      ensures Valid() && Known(entry) && (entry in old(created) || fresh(entry))
      ensures forall e :: e in created ==> e in old(created) || fresh(e)
      ensures PC.IdsInRange(old(state)) && (state, entry.id) == PC.Pick(old(state), key, snapshot, now)
      ensures forall s :: s in cache ==> s.key != key && s.value != entry
    {
      AbsLookup(cache, key);
      var found := Lookup(cache, key);
      if found.Some? && found.value.generation == snapshot.generation
         && found.value.fingerprint == snapshot.fingerprint
      {
        entry := found.value;
        assert created[entry.id] == entry;
        Detach(key, entry);
      } else {
        if found.Some? { EvictCurrent(key, found.value); }
        entry := Register(snapshot.value.value, snapshot, now);
      }
    }

    method ServePool(key: Key, snapshot: PC.Snapshot, now: int) returns (entry: PoolEntry)
      requires Valid() && snapshot.value.Some?
      modifies this`cache, this`state, this`created, created
      ensures Valid() && Known(entry)
      ensures forall e :: e in created ==> e in old(created) || fresh(e)
      ensures PC.IdsInRange(old(state)) && (state, entry.id) == PC.Serve(old(state), key, snapshot, now)
    {
      entry := PickPool(key, snapshot, now);
      Touch(entry, now);
      Insert(key, entry);
    }

    method EnforceCap(key: Key)
      requires Valid() && maxPools >= 1
      requires state.cache != [] && state.cache[|state.cache| - 1].key == key
      modifies this`cache, this`state, created
      ensures Valid() && PC.IdsInRange(old(state)) && state == PC.Trim(old(state), maxPools)
    {
      hide *;
      SizeFacts();
      while |cache| > maxPools
        invariant Valid() && created == old(created) && |state.cache| == |cache| && PC.IdsInRange(state)
        invariant state.cache != [] && state.cache[|state.cache| - 1].key == key
        invariant PC.Trim(state, maxPools) == PC.Trim(old(state), maxPools)
        decreases |cache|
      {
        var oldest := cache[0];
        SlotFacts(0);
        PC.TrimStep(state, maxPools);
        assert oldest.key != key;
        if oldest.key == key { break; }
        EvictTenantPool(oldest.key, oldest.value);
        SizeFacts();
      }
      PC.TrimDone(state, maxPools);
    }

    method DropStale(key: Key)
      requires Valid()
      modifies this`cache, this`state, created
      ensures Valid() && PC.IdsInRange(old(state)) && state == PC.DropStale(old(state), key)
    {
      AbsLookup(cache, key);
      var stale := Lookup(cache, key);
      if stale.Some? { EvictCurrent(key, stale.value); }
    }

    method CheckoutPool(key: Key, snapshot: PC.Snapshot, now: int) returns (entry: PoolEntry)
      requires Valid() && maxPools >= 1 && snapshot.value.Some?
      modifies this`cache, this`state, this`created, created
      ensures Valid() && Known(entry)
      ensures forall e :: e in created ==> e in old(created) || fresh(e)
      ensures PC.IdsInRange(old(state))
      ensures (state, entry.id) == PC.Checkout(old(state), key, snapshot, idleMs, maxPools, now)
    {
      EvictIdleTenantPools(now);
      entry := ServePool(key, snapshot, now);
      assert forall i :: 0 <= i < |created| ==> created[i] in old(created) || fresh(created[i]);
      assert state.cache[|state.cache| - 1].key == key;
      EnforceCap(key);
    }

    // getTenantPool, from the resolved snapshot to its next return or retry.
    method GetTenantPoolTail(key: Key, snapshot: Option<PC.Snapshot>, now: int) returns (r: TailResult)
      requires Valid() && maxPools >= 1
      modifies this`cache, this`state, this`created, created
      ensures Valid() && PC.IdsInRange(old(state)) && (r.Serving? ==> Known(r.entry))
      ensures (state, r.Abs()) == PC.Tail(old(state), key, snapshot, idleMs, maxPools, now)
    {
      if snapshot.None? || snapshot.value.value.None? {
        DropStale(key);
        return NoPool;
      }
      var g := Generation(key);
      if g != snapshot.value.generation {
        return ResolveAgain;
      }
      var entry := CheckoutPool(key, snapshot.value, now);
      return Serving(entry);
    }

    method BumpGeneration(key: Key)
      requires Valid()
      modifies this`generations, this`state
      ensures Valid() && state == PC.Bump(old(state), key)
    {
      var g := Generation(key);
      generations := generations[key := g + 1];
      state := state.(generations := generations);
    }

    method InvalidateTenantDbConfig(key: Key)
      requires Valid()
      modifies this`generations, this`cache, this`state, created
      ensures Valid() && PC.IdsInRange(old(state)) && state == PC.Invalidate(old(state), key)
    {
      BumpGeneration(key);
      DropStale(key);
    }

    // The pool library reports a borrowed, then a returned, connection.
    method ConnectionAcquired(entry: PoolEntry, now: int)
      requires Valid() && Known(entry)
      modifies this`state, entry
      ensures Valid() && entry.id < |old(state).entries|
      ensures state == PC.Update(old(state), entry.id, PC.AcquireEntry(old(state).entries[entry.id], now))
    {
      entry.OnAcquire(now);
      state := PC.Update(state, entry.id, PC.AcquireEntry(state.entries[entry.id], now));
    }

    method ConnectionReleased(entry: PoolEntry, now: int)
      requires Valid() && Known(entry)
      modifies this`state, entry
      ensures Valid() && entry.id < |old(state).entries|
      ensures state == PC.Update(old(state), entry.id, PC.ReleaseEntry(old(state).entries[entry.id], now))
    {
      entry.OnRelease(now);
      state := PC.Update(state, entry.id, PC.ReleaseEntry(state.entries[entry.id], now));
    }
  }
}
