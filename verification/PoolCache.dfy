/**
 The tenant pool cache on values: what each synchronous stretch of the code
 does to the generations, to the ordered cache and to every pool ever created.
 */
module PoolCache {
  import opened Wrappers
  import opened OrderedMap
  import opened TenantConfig

  /**
   One pool. `endsQueued` counts the shutdown callbacks waiting in the
   microtask queue and `endsRun` the shutdowns that have run.
   */
  datatype Entry = Entry(config: Config, generation: nat, fingerprint: Fingerprint, lastUsed: int,
                         borrowed: nat, retired: bool, ended: bool, endsQueued: nat, endsRun: nat)

  type PoolSlot = Slot<Key, nat>

  /** `cache` is the Map in insertion order; a pool's id is its index in `entries`. */
  datatype Pools = Pools(generations: map<Key, nat>, cache: seq<PoolSlot>, entries: seq<Entry>)

  function Generation(p: Pools, key: Key): nat {
    if key in p.generations then p.generations[key] else 0
  }

  // ---------------------------------------------------------------- one pool

  function EndEntry(e: Entry): Entry {
    if e.ended then e else e.(ended := true, endsQueued := e.endsQueued + 1)
  }

  function AcquireEntry(e: Entry, now: int): Entry {
    e.(borrowed := e.borrowed + 1, lastUsed := now)
  }

  function ReleaseEntry(e: Entry, now: int): Entry {
    var e1 := e.(borrowed := if e.borrowed == 0 then 0 else e.borrowed - 1, lastUsed := now);
    if e1.retired && e1.borrowed == 0 then EndEntry(e1) else e1
  }

  /** The queued callback runs the pool's own shutdown. */
  function RunEndEntry(e: Entry): Entry
    requires e.endsQueued > 0
  {
    e.(endsQueued := e.endsQueued - 1, endsRun := e.endsRun + 1)
  }

  function EvictEntry(e: Entry): Entry {
    if e.borrowed > 0 then e.(retired := true) else EndEntry(e)
  }

  // ---------------------------------------------------------------- the cache

  ghost predicate IdsInRange(p: Pools) {
    forall s :: s in p.cache ==> s.value < |p.entries|
  }

  function Update(p: Pools, id: nat, e: Entry): Pools
    requires id < |p.entries|
  {
    p.(entries := p.entries[id := e])
  }

  function Unlinked(c: seq<PoolSlot>, s: PoolSlot): (r: seq<PoolSlot>)
    ensures forall t :: t in r ==> t in c
  {
    if Lookup(c, s.key) == Some(s.value) then Without(c, s.key) else c
  }

  function Unlink(p: Pools, s: PoolSlot): (q: Pools)
    ensures IdsInRange(p) ==> IdsInRange(q)
  {
    p.(cache := Unlinked(p.cache, s))
  }

  function Evict(p: Pools, s: PoolSlot): (q: Pools)
    requires s.value < |p.entries|
    ensures IdsInRange(p) ==> IdsInRange(q)
    ensures |q.entries| == |p.entries| && q.generations == p.generations
  {
    Update(Unlink(p, s), s.value, EvictEntry(p.entries[s.value]))
  }

  function EvictAll(p: Pools, ss: seq<PoolSlot>): (q: Pools)
    requires forall s :: s in ss ==> s.value < |p.entries|
    ensures IdsInRange(p) ==> IdsInRange(q)
    ensures |q.entries| == |p.entries| && q.generations == p.generations
    decreases |ss|
  {
    if ss == [] then p else EvictAll(Evict(p, ss[0]), ss[1..])
  }

  predicate Idle(e: Entry, idleMs: int, now: int) {
    e.borrowed == 0 && now - e.lastUsed > idleMs
  }

  /** The slots an idle sweep closes, in cache order. */
  function IdleSlots(c: seq<PoolSlot>, entries: seq<Entry>, idleMs: int, now: int): (r: seq<PoolSlot>)
    requires forall s :: s in c ==> s.value < |entries|
    ensures forall s :: s in r <==> s in c && Idle(entries[s.value], idleMs, now)
  {
    if c == [] then []
    else
      var rest := IdleSlots(c[1..], entries, idleMs, now);
      if Idle(entries[c[0].value], idleMs, now) then [c[0]] + rest else rest
  }

  function EvictIdle(p: Pools, idleMs: int, now: int): (q: Pools)
    requires IdsInRange(p)
    ensures IdsInRange(q) && |q.entries| == |p.entries| && q.generations == p.generations
  {
    if idleMs <= 0 then p else EvictAll(p, IdleSlots(p.cache, p.entries, idleMs, now))
  }

  /** Evict from the old end of the order until at most `max` slots are left. */
  function Trim(p: Pools, max: nat): (q: Pools)
    requires IdsInRange(p)
    ensures IdsInRange(q) && |q.entries| == |p.entries| && q.generations == p.generations
  {
    if |p.cache| <= max then p else EvictAll(p, p.cache[..|p.cache| - max])
  }

  datatype Snapshot = Snapshot(value: Option<Config>, generation: nat, fingerprint: Fingerprint)

  function NewEntry(config: Config, snapshot: Snapshot, now: int): Entry {
    Entry(config, snapshot.generation, snapshot.fingerprint, now, 0, false, false, 0, 0)
  }

  predicate Reusable(p: Pools, key: Key, snapshot: Snapshot)
    requires IdsInRange(p)
  {
    var found := Lookup(p.cache, key);
    found.Some?
    && p.entries[found.value].generation == snapshot.generation
    && p.entries[found.value].fingerprint == snapshot.fingerprint
  }

  /** The key's reusable pool, or a new one; the key's slot is taken out either way. */
  function Pick(p: Pools, key: Key, snapshot: Snapshot, now: int): (r: (Pools, nat))
    requires IdsInRange(p) && snapshot.value.Some?
    ensures IdsInRange(r.0) && |p.entries| <= |r.0.entries| && r.1 < |r.0.entries| && r.0.generations == p.generations
  {
    var found := Lookup(p.cache, key);
    if Reusable(p, key, snapshot) then
      (p.(cache := Without(p.cache, key)), found.value)
    else
      var q := DropStale(p, key);
      (q.(entries := q.entries + [NewEntry(snapshot.value.value, snapshot, now)]), |q.entries|)
  }

  /** The picked pool, marked used now and re-inserted at the young end of the order. */
  function Serve(p: Pools, key: Key, snapshot: Snapshot, now: int): (r: (Pools, nat))
    requires IdsInRange(p) && snapshot.value.Some?
    ensures IdsInRange(r.0) && |p.entries| <= |r.0.entries| && r.1 < |r.0.entries| && r.0.generations == p.generations
  {
    var (q, id) := Pick(p, key, snapshot, now);
    (Pools(q.generations, q.cache + [Slot(key, id)], q.entries[id := q.entries[id].(lastUsed := now)]), id)
  }

  /** Lines 331-370: idle sweep, reuse or create, then the cap. */
  function Checkout(p: Pools, key: Key, snapshot: Snapshot, idleMs: int, max: nat, now: int): (r: (Pools, nat))
    requires IdsInRange(p) && snapshot.value.Some?
    ensures IdsInRange(r.0) && |p.entries| <= |r.0.entries| && r.1 < |r.0.entries| && r.0.generations == p.generations
  {
    var (q, id) := Serve(EvictIdle(p, idleMs, now), key, snapshot, now);
    (Trim(q, max), id)
  }

  function DropStale(p: Pools, key: Key): (q: Pools)
    requires IdsInRange(p)
    ensures IdsInRange(q) && |q.entries| == |p.entries| && q.generations == p.generations
  {
    var stale := Lookup(p.cache, key);
    if stale.Some? then Evict(p, Slot(key, stale.value)) else p
  }

  datatype TailOutcome = Shared | Again | Pool(id: nat)

  /** What getTenantPool does with a resolved snapshot. */
  function Tail(p: Pools, key: Key, snapshot: Option<Snapshot>, idleMs: int, max: nat, now: int)
    : (r: (Pools, TailOutcome))
    requires IdsInRange(p)
    ensures IdsInRange(r.0) && |p.entries| <= |r.0.entries| && r.0.generations == p.generations
    ensures r.1.Pool? ==> r.1.id < |r.0.entries|
  {
    if snapshot.None? || snapshot.value.value.None? then (DropStale(p, key), Shared)
    else if Generation(p, key) != snapshot.value.generation then (p, Again)
    else
      var (q, id) := Checkout(p, key, snapshot.value, idleMs, max, now);
      (q, Pool(id))
  }

  function Bump(p: Pools, key: Key): (q: Pools)
    ensures IdsInRange(p) ==> IdsInRange(q)
  {
    p.(generations := p.generations[key := Generation(p, key) + 1])
  }

  function Invalidate(p: Pools, key: Key): (q: Pools)
    requires IdsInRange(p)
    ensures IdsInRange(q) && |q.entries| == |p.entries|
  {
    DropStale(Bump(p, key), key)
  }

  // ---------------------------------------------------------------- loop steps

  ghost predicate WellFormed(p: Pools) {
    IdsInRange(p) && UniqueKeys(p.cache) && UniqueValues(p.cache)
  }

  /** Evicting a cached slot removes exactly that slot and touches exactly that pool. */
  lemma EvictCached(p: Pools, i: nat)
    requires WellFormed(p) && i < |p.cache|
    ensures Evict(p, p.cache[i])
         == p.(cache := p.cache[..i] + p.cache[i + 1..],
               entries := p.entries[p.cache[i].value := EvictEntry(p.entries[p.cache[i].value])])
    ensures WellFormed(Evict(p, p.cache[i]))
  {
    LookupUnique(p.cache, p.cache[i]);
    WithoutAt(p.cache, i);
    WithoutKeepsUnique(p.cache, p.cache[i].key);
    RemoveAtUniqueValues(p.cache, i);
  }

  lemma {:induction false} IdleSlotsAgree(c: seq<PoolSlot>, es: seq<Entry>, es': seq<Entry>, idleMs: int, now: int)
    requires forall s :: s in c ==> s.value < |es| && s.value < |es'| && es[s.value] == es'[s.value]
    ensures IdleSlots(c, es, idleMs, now) == IdleSlots(c, es', idleMs, now)
  {
    if c != [] {
      assert c[0] in c;
      IdleSlotsAgree(c[1..], es, es', idleMs, now);
    }
  }

  /** One turn of the idle sweep at position `i`, when the pool there is not idle. */
  lemma {:induction false} SweepKeeps(p: Pools, i: nat, idleMs: int, now: int)
    requires WellFormed(p) && i < |p.cache|
    requires !Idle(p.entries[p.cache[i].value], idleMs, now)
    ensures IdleSlots(p.cache[i..], p.entries, idleMs, now) == IdleSlots(p.cache[i + 1..], p.entries, idleMs, now)
  {
    assert p.cache[i..][0] == p.cache[i] && p.cache[i..][1..] == p.cache[i + 1..];
  }

  /** The same turn, when it closes the pool: the later slots move up by one. */
  lemma {:induction false} SweepEvicts(p: Pools, i: nat, idleMs: int, now: int)
    requires WellFormed(p) && i < |p.cache|
    requires Idle(p.entries[p.cache[i].value], idleMs, now)
    ensures var q := Evict(p, p.cache[i]);
            WellFormed(q) && |q.cache| == |p.cache| - 1
            && EvictAll(p, IdleSlots(p.cache[i..], p.entries, idleMs, now))
            == EvictAll(q, IdleSlots(q.cache[i..], q.entries, idleMs, now))
  {
    EvictCached(p, i);
    hide Evict, EvictAll, EvictEntry;
    var q := Evict(p, p.cache[i]);
    var rest := p.cache[i + 1..];
    assert q.cache[i..] == rest;
    forall s | s in rest ensures q.entries[s.value] == p.entries[s.value] {
      var j :| 0 <= j < |rest| && rest[j] == s;
      assert p.cache[i + 1 + j] == s;
    }
    assert p.cache[i..][1..] == rest;
    assert forall s :: s in rest ==> s in p.cache;
    hide Evict, EvictAll, IdleSlots, EvictEntry, UniqueKeys, UniqueValues;
    IdleSlotsAgree(rest, p.entries, q.entries, idleMs, now);
    EvictFirstIdle(p, p.cache[i..], idleMs, now);
  }

  /** Both cases of one turn. */
  lemma {:induction false} SweepTurn(p: Pools, i: nat, idleMs: int, now: int)
    requires WellFormed(p) && i < |p.cache|
    ensures var target := EvictAll(p, IdleSlots(p.cache[i..], p.entries, idleMs, now));
            var e := p.entries[p.cache[i].value];
            if e.borrowed == 0 && now - e.lastUsed > idleMs then
              var q := Evict(p, p.cache[i]);
              WellFormed(q) && |q.cache| == |p.cache| - 1
              && target == EvictAll(q, IdleSlots(q.cache[i..], q.entries, idleMs, now))
            else
              target == EvictAll(p, IdleSlots(p.cache[i + 1..], p.entries, idleMs, now))
  {
    if Idle(p.entries[p.cache[i].value], idleMs, now) {
      SweepEvicts(p, i, idleMs, now);
    } else {
      SweepKeeps(p, i, idleMs, now);
    }
  }

  lemma {:induction false} EvictFirstIdle(p: Pools, c: seq<PoolSlot>, idleMs: int, now: int)
    requires IdsInRange(p) && c != [] && forall s :: s in c ==> s.value < |p.entries|
    requires Idle(p.entries[c[0].value], idleMs, now)
    ensures EvictAll(p, IdleSlots(c, p.entries, idleMs, now))
         == EvictAll(Evict(p, c[0]), IdleSlots(c[1..], p.entries, idleMs, now))
  {
    var r := IdleSlots(c[1..], p.entries, idleMs, now);
    assert ([c[0]] + r)[1..] == r;
  }

  lemma {:induction false} IdleSlotsUnique(c: seq<PoolSlot>, entries: seq<Entry>, idleMs: int, now: int)
    requires UniqueKeys(c) && forall s :: s in c ==> s.value < |entries|
    ensures UniqueKeys(IdleSlots(c, entries, idleMs, now))
  {
    if c != [] {
      UniqueTail(c);
      IdleSlotsUnique(c[1..], entries, idleMs, now);
      ConsUnique(c[0], IdleSlots(c[1..], entries, idleMs, now));
    }
  }

  lemma WithoutOne(c: seq<PoolSlot>, i: nat)
    requires UniqueKeys(c) && UniqueValues(c) && i < |c|
    ensures var rest := c[..i] + c[i + 1..];
            && (forall t :: t in rest <==> t in c && t != c[i])
            && (forall t :: t in c && t != c[i] ==> t.key != c[i].key && t.value != c[i].value)
  {
    var rest := c[..i] + c[i + 1..];
    forall t | t in c && t != c[i] ensures t in rest && t.key != c[i].key && t.value != c[i].value {
      var j :| 0 <= j < |c| && c[j] == t;
      assert rest[if j < i then j else j - 1] == t;
    }
    assert forall j :: 0 <= j < |rest| ==> rest[j] == c[if j < i then j else j + 1];
  }

  lemma EvictSlot(p: Pools, s: PoolSlot)
    requires WellFormed(p) && s in p.cache
    ensures var q := Evict(p, s);
            && WellFormed(q) && q.entries == p.entries[s.value := EvictEntry(p.entries[s.value])]
            && (forall t :: t in q.cache <==> t in p.cache && t != s)
            && (forall t :: t in p.cache && t != s ==> t.key != s.key && t.value != s.value)
  {
    var i :| 0 <= i < |p.cache| && p.cache[i] == s;
    hide Evict, EvictEntry, UniqueKeys, UniqueValues;
    EvictCached(p, i);
    WithoutOne(p.cache, i);
  }

  /** Evicting some cached slots: they go, and of the pools only theirs are touched. */
  lemma {:induction false} EvictAllSlots(p: Pools, ss: seq<PoolSlot>)
    requires WellFormed(p) && UniqueKeys(ss) && forall s :: s in ss ==> s in p.cache
    ensures var q := EvictAll(p, ss);
            && WellFormed(q) && (forall s :: s in q.cache <==> s in p.cache && s !in ss)
            && (forall s :: s in ss ==> q.entries[s.value] == EvictEntry(p.entries[s.value]))
            && (forall id :: 0 <= id < |p.entries| && (forall s :: s in ss ==> s.value != id) ==>
                  q.entries[id] == p.entries[id])
    decreases |ss|
  {
    if ss != [] {
      hide Evict, EvictEntry, UniqueKeys, UniqueValues;
      EvictSlot(p, ss[0]);
      UniqueTail(ss);
      assert forall s :: s in ss <==> s == ss[0] || s in ss[1..];
      EvictAllSlots(Evict(p, ss[0]), ss[1..]);
    }
  }

  /**
   The idle sweep in numbers: a slot stays exactly when its pool has a connection out or was used within the
   limit; a pool that goes is ended, every other pool is as it was.
   */
  lemma SweepIsExact(p: Pools, idleMs: int, now: int)
    requires WellFormed(p)
    ensures var q := EvictIdle(p, idleMs, now);
            && WellFormed(q)
            && (forall s :: s in q.cache <==>
                  && s in p.cache
                  && (idleMs <= 0 || p.entries[s.value].borrowed > 0 || now - p.entries[s.value].lastUsed <= idleMs))
            && (forall s :: s in p.cache && s !in q.cache ==> q.entries[s.value].ended)
            && (forall id :: 0 <= id < |p.entries| && (forall s :: s in p.cache && s.value == id ==> s in q.cache) ==>
                  q.entries[id] == p.entries[id])
            && (forall id :: 0 <= id < |p.entries| ==> q.entries[id].lastUsed == p.entries[id].lastUsed)
  {
    if idleMs > 0 {
      var ss := IdleSlots(p.cache, p.entries, idleMs, now);
      IdleSlotsUnique(p.cache, p.entries, idleMs, now);
      EvictAllSlots(p, ss);
      hide WellFormed, UniqueKeys, EvictAll, IdleSlots;
    }
  }

  lemma TrimDone(p: Pools, max: nat)
    requires IdsInRange(p) && |p.cache| <= max
    ensures Trim(p, max) == p
  {
  }

  /** Evicting the oldest slots, one at a time. */
  lemma {:induction false} PrefixStep(p: Pools, n: nat)
    requires WellFormed(p) && 0 < n <= |p.cache|
    ensures var q := Evict(p, p.cache[0]);
            WellFormed(q) && q.cache == p.cache[1..] && EvictAll(p, p.cache[..n]) == EvictAll(q, q.cache[..n - 1])
  {
    EvictCached(p, 0);
    hide Evict, EvictEntry, UniqueKeys, UniqueValues;
    var (q, gone) := (Evict(p, p.cache[0]), p.cache[..n]);
    assert q.cache == p.cache[1..];
    assert gone[0] == p.cache[0] && gone[1..] == q.cache[..n - 1];
    assert EvictAll(p, gone) == EvictAll(q, gone[1..]);
  }

  /** One turn of the cap loop. */
  lemma TrimStep(p: Pools, max: nat)
    requires WellFormed(p) && |p.cache| > max
    ensures var q := Evict(p, p.cache[0]);
            WellFormed(q) && q.cache == p.cache[1..] && Trim(p, max) == Trim(q, max)
    ensures |p.cache| > 1 ==> p.cache[0].key != p.cache[|p.cache| - 1].key
  {
    PrefixStep(p, |p.cache| - max);
    hide Evict, EvictAll;
  }
}
