/** What a lookup may hand out, and how many registry reads it may cost. */
module TenantFreshness {
  import opened Wrappers
  import opened OrderedMap
  import opened TenantConfig
  import opened PoolCache
  import opened PoolLifecycle
  import opened TenantProtocol
  import opened TenantRuns
  import opened TenantTheorems

  // ---------------------------------------------------------------- generations

  lemma GenStep(env: Env, s: State, step: Step, key: Key)
    requires InRange(s) && Enabled(s, step)
    ensures Gen(Apply(env, s, step), key) == Gen(s, key) + (if step == InvalidateOrg(key) then 1 else 0)
  {
    hide Start, Resume, Remember;
  }

  /** The invalidations of `key` among the steps from `m` up to `n`. */
  ghost function Invalidations(run: Run, m: nat, n: nat, key: Key): nat
    requires m <= n <= |run.steps|
    decreases n
  {
    if m == n then 0
    else Invalidations(run, m, n - 1, key) + (if run.steps[n - 1] == InvalidateOrg(key) then 1 else 0)
  }

  lemma {:induction false} GenCounts(env: Env, run: Run, m: nat, n: nat, key: Key)
    requires IsRun(env, run) && m <= n <= |run.steps|
    ensures Gen(run.states[n], key) == Gen(run.states[m], key) + Invalidations(run, m, n, key)
    decreases n
  {
    hide Apply, Enabled;
    if m < n {
      GenCounts(env, run, m, n - 1, key);
      GenStep(env, run.states[n - 1], run.steps[n - 1], key);
    }
  }

  lemma {:induction false} NoInvalidations(run: Run, m: nat, n: nat, key: Key)
    requires m <= n <= |run.steps| && Invalidations(run, m, n, key) == 0
    ensures forall j :: m <= j < n ==> run.steps[j] != InvalidateOrg(key)
    decreases n
  {
    if m < n { NoInvalidations(run, m, n - 1, key); }
  }

  /** Between two states of a run the organization was not invalidated exactly when its generation is the same. */
  lemma SameGenerationIff(env: Env, run: Run, m: nat, n: nat, key: Key)
    requires IsRun(env, run) && m <= n <= |run.steps|
    ensures Gen(run.states[m], key) == Gen(run.states[n], key) <==>
              forall j :: m <= j < n ==> run.steps[j] != InvalidateOrg(key)
  {
    GenCounts(env, run, m, n, key);
    hide Apply, Enabled;
    if Invalidations(run, m, n, key) == 0 {
      NoInvalidations(run, m, n, key);
    } else {
      SomeInvalidation(run, m, n, key);
    }
  }

  lemma {:induction false} SomeInvalidation(run: Run, m: nat, n: nat, key: Key)
    requires m <= n <= |run.steps| && Invalidations(run, m, n, key) > 0
    ensures exists j :: m <= j < n && run.steps[j] == InvalidateOrg(key)
    decreases n
  {
    if run.steps[n - 1] != InvalidateOrg(key) { SomeInvalidation(run, m, n - 1, key); }
  }

  // ---------------------------------------------------------------- freshness

  /** Some state up to `n` held this row, at a generation not older than `g`. */
  ghost predicate SeenRow(run: Run, n: nat, key: Key, g: nat, row: Option<Row>) {
    exists m :: 0 <= m <= n && m < |run.states| && Gen(run.states[m], key) >= g && RowOf(run.states[m], key) == row
  }

  /** At state `m` the registry gave the snapshot's configuration, at the snapshot's generation. */
  ghost predicate SnapshotAt(env: Env, run: Run, m: nat, n: nat, key: Key, snap: Snapshot) {
    && m <= n && m < |run.states|
    && Gen(run.states[m], key) == snap.generation && Normalize(RowOf(run.states[m], key), env.decrypt) == Ok(snap.value)
  }

  ghost predicate SeenSnapshot(env: Env, run: Run, n: nat, key: Key, snap: Snapshot) {
    exists m :: SnapshotAt(env, run, m, n, key, snap)
  }

  ghost predicate SearchSeen(env: Env, run: Run, n: nat, q: Search) {
    match q.phase
    case Fetched(_, g, row) => SeenRow(run, n, q.key, g, row)
    case Resolved(Some(snap)) => SeenSnapshot(env, run, n, q.key, snap)
    case _ => true
  }

  ghost predicate ContextSeen(env: Env, run: Run, n: nat, c: Context) {
    c.memo.Some? ==> SeenSnapshot(env, run, n, c.memo.value.key, c.memo.value.snapshot)
  }

  ghost predicate AllSeen(env: Env, run: Run, n: nat)
    requires n < |run.states|
  {
    && (forall l :: 0 <= l < |run.states[n].searches| ==> SearchSeen(env, run, n, run.states[n].searches[l]))
    && (forall c :: 0 <= c < |run.states[n].contexts| ==> ContextSeen(env, run, n, run.states[n].contexts[c]))
  }

  lemma StillSeen(env: Env, run: Run, n: nat, q: Search, c: Context)
    ensures SearchSeen(env, run, n, q) ==> SearchSeen(env, run, n + 1, q)
    ensures ContextSeen(env, run, n, c) ==> ContextSeen(env, run, n + 1, c)
  {
    assert forall key, g, row :: SeenRow(run, n, key, g, row) ==> SeenRow(run, n + 1, key, g, row);
    assert forall m, key, snap :: SnapshotAt(env, run, m, n, key, snap) ==> SnapshotAt(env, run, m, n + 1, key, snap);
  }

  /** What a step leaves in the lookup it moved. */
  lemma StartSeen(env: Env, run: Run, n: nat, q: Search, now: int)
    requires n < |run.states| && AllSeen(env, run, n)
    ensures SearchSeen(env, run, n, Start(env, run.states[n], q, now))
  {
    var memo := MemoFor(env, run.states[n], q.key, q.ctx, now);
    if memo.Some? {
      assert ContextSeen(env, run, n, run.states[n].contexts[q.ctx.value]);
    }
  }

  lemma ResumeSeen(env: Env, run: Run, n: nat, q: Search)
    requires IsRun(env, run) && q.phase.Fetched? && n <= |run.steps| && SearchSeen(env, run, n, q)
    ensures SearchSeen(env, run, n, Resume(env, run.states[n], q))
  {
    hide Apply, Enabled;
    var (g, row) := (q.phase.generation, q.phase.row);
    var m :| 0 <= m <= n && Gen(run.states[m], q.key) >= g && RowOf(run.states[m], q.key) == row;
    GenCounts(env, run, m, n, q.key);
    var value := Normalize(row, env.decrypt);
    if value.Ok? && Gen(run.states[n], q.key) == g {
      assert SnapshotAt(env, run, m, n, q.key, SnapshotOf(q.key, value.value, g, row));
    }
  }

  lemma MovedSearchSeen(env: Env, run: Run, n: nat, l: nat)
    requires IsRun(env, run) && n < |run.steps| && AllSeen(env, run, n) && l < |run.states[n + 1].searches|
    requires LookupsOk(env, run.states[n])
    ensures SearchSeen(env, run, n, run.states[n + 1].searches[l])
  {
    var s, step := run.states[n], run.steps[n];
    if l < |s.searches| { assert SearchSeen(env, run, n, s.searches[l]) && SearchOk(env, s, s.searches[l]); }
    hide Start, Resume, Tail, MemoFor, SeenSnapshot, AllSeen, LookupsOk;
    match step
    case BeginLookup(key, ctx, now) => StartSeen(env, run, n, Search(key, ctx, Failed, 0, Gen(s, key)), now);
    case ReadRow(k) =>
      if k == l {
        var search := s.searches[l];
        assert SeenRow(run, n, search.key, search.phase.generation, RowOf(s, search.key));
      }
    case ResumeRead(k, now) => if k == l { ResumeSeen(env, run, n, s.searches[l]); }
    case ResumeTail(k, now) => if k == l { StartSeen(env, run, n, s.searches[l], now); }
    case _ =>
  }

  lemma MovedContextSeen(env: Env, run: Run, n: nat, c: nat)
    requires IsRun(env, run) && n < |run.steps| && AllSeen(env, run, n) && c < |run.states[n + 1].contexts|
    ensures ContextSeen(env, run, n, run.states[n + 1].contexts[c])
  {
    var s, step := run.states[n], run.steps[n];
    if c < |s.contexts| { assert ContextSeen(env, run, n, s.contexts[c]); }
    if step.ResumeRead? {
      assert SearchSeen(env, run, n, s.searches[step.l]);
      ResumeSeen(env, run, n, s.searches[step.l]);
    }
  }

  lemma {:induction false} RunSeen(env: Env, run: Run, n: nat)
    requires IsRun(env, run) && n <= |run.steps|
    ensures AllSeen(env, run, n)
  {
    hide SearchSeen, ContextSeen, Apply, StateOk, OrderedBy, Enabled;
    if n > 0 {
      RunSeen(env, run, n - 1);
      RunOk(env, run, n - 1);
      var s' := run.states[n];
      var noContext := Context(0, None);
      var noSearch := Search(0, None, Failed, 0, 0);
      forall l | 0 <= l < |s'.searches| ensures SearchSeen(env, run, n, s'.searches[l]) {
        LookupsOfState(env, run.states[n - 1]);
        MovedSearchSeen(env, run, n - 1, l);
        StillSeen(env, run, n - 1, s'.searches[l], noContext);
      }
      forall c | 0 <= c < |s'.contexts| ensures ContextSeen(env, run, n, s'.contexts[c]) {
        MovedContextSeen(env, run, n - 1, c);
        StillSeen(env, run, n - 1, noSearch, s'.contexts[c]);
      }
    }
  }

  lemma LookupsOfState(env: Env, s: State)
    requires StateOk(env, s)
    ensures LookupsOk(env, s)
  {
  }

  /** At state `m` the registry gave this configuration, and the organization was not invalidated from then to `n`. */
  ghost predicate FreshFrom(env: Env, run: Run, m: nat, n: nat, key: Key, value: Option<Config>)
    requires n < |run.steps| < |run.states|
  {
    && m <= n
    && Normalize(RowOf(run.states[m], key), env.decrypt) == Ok(value)
    && (forall j :: m <= j < n ==> run.steps[j] != InvalidateOrg(key))
  }

  lemma SnapshotIsFresh(env: Env, run: Run, n: nat, key: Key, snap: Snapshot)
    requires IsRun(env, run) && n < |run.steps| && SeenSnapshot(env, run, n, key, snap)
    requires snap.generation == Gen(run.states[n], key)
    ensures exists m :: FreshFrom(env, run, m, n, key, snap.value)
  {
    hide Apply, Enabled;
    var m :| SnapshotAt(env, run, m, n, key, snap);
    SameGenerationIff(env, run, m, n, key);
    assert FreshFrom(env, run, m, n, key, snap.value);
  }

  /**
   The exact condition, shared mode included. Every answer goes back to a registry row at the snapshot's
   generation; the organization was not invalidated since then, whichever such moment is taken, if and only
   if that generation is still current. For a null answer the code leaves this comparison out.
   */
  lemma AnswerIsFreshIff(env: Env, run: Run, n: nat, l: nat, now: int)
    requires IsRun(env, run) && n < |run.steps| && run.steps[n] == ResumeTail(l, now)
    requires run.states[n].searches[l].phase.snapshot.Some?
    ensures var s, q := run.states[n], run.states[n].searches[l];
            var snap := q.phase.snapshot.value;
            && (exists m :: SnapshotAt(env, run, m, n, q.key, snap))
            && (forall m: nat :: SnapshotAt(env, run, m, n, q.key, snap) ==>
                  ((forall j :: m <= j < n ==> run.steps[j] != InvalidateOrg(q.key)) <==>
                   snap.generation == Gen(s, q.key)))
            && (snap.value.None? ==> run.states[n + 1].searches[l].phase == Returned(None))
            && (snap.value.Some? && snap.generation != Gen(s, q.key) ==> !run.states[n + 1].searches[l].phase.Returned?)
  {
    RunSeen(env, run, n);
    var q := run.states[n].searches[l];
    var snap := q.phase.snapshot.value;
    assert SearchSeen(env, run, n, q);
    assert run.states[n + 1] == TailStep(env, run.states[n], l, now);
    forall m: nat | SnapshotAt(env, run, m, n, q.key, snap)
      ensures (forall j :: m <= j < n ==> run.steps[j] != InvalidateOrg(q.key)) <==>
                snap.generation == Gen(run.states[n], q.key)
    {
      SameGenerationIff(env, run, m, n, q.key);
    }
    hide Checkout, DropStale, MemoFor, SnapshotAt, IsRun;
  }

  /** A row that cannot be used fails its lookup, whatever happens in between; nothing is remembered of it. */
  lemma UnusableRowFails(env: Env, s: State, l: nat, now: int)
    requires InRange(s) && Enabled(s, ResumeRead(l, now)) && s.searches[l].phase.row.Some?
    requires var row := s.searches[l].phase.row.value;
             && row.isolated
             && (row.host == "" || row.name == "" || row.user == "" || env.decrypt(row.passwordEncrypted) == None)
    ensures var s' := Apply(env, s, ResumeRead(l, now)); s'.searches[l].phase == Failed && s'.contexts == s.contexts
  {
  }

  predicate KeepsItsKey(q: Search) {
    q.phase == Resolved(None) ==> q.key == 0
  }

  lemma NoSnapshotStep(env: Env, s: State, step: Step, l: nat)
    requires InRange(s) && Enabled(s, step) && l < |Apply(env, s, step).searches|
    requires l < |s.searches| ==> KeepsItsKey(s.searches[l])
    ensures KeepsItsKey(Apply(env, s, step).searches[l])
  {
    hide Tail, Invalidate, Normalize, MemoFor, Remember;
  }

  /** A lookup goes without an organization only when it has none. */
  lemma {:induction false} NoSnapshotNoKey(env: Env, run: Run, n: nat, l: nat)
    requires IsRun(env, run) && n <= |run.steps| && l < |run.states[n].searches|
    ensures KeepsItsKey(run.states[n].searches[l])
    decreases n
  {
    assert n > 0;
    var (s, step) := (run.states[n - 1], run.steps[n - 1]);
    assert Enabled(s, step) && run.states[n] == Apply(env, s, step);
    hide Apply, Enabled, KeepsItsKey;
    if l < |s.searches| { NoSnapshotNoKey(env, run, n - 1, l); }
    NoSnapshotStep(env, s, step, l);
  }

  /** A null answer means that there is no organization, or that its row was shared or absent when it was current. */
  lemma NullMeansShared(env: Env, run: Run, n: nat, l: nat, now: int)
    requires IsRun(env, run) && n < |run.steps| && run.steps[n] == ResumeTail(l, now)
    requires run.states[n + 1].searches[l].phase == Returned(None)
    ensures var q := run.states[n].searches[l];
            && q.phase.Resolved?
            && (q.key == 0 || (q.phase.snapshot.Some? && exists m: nat ::
                  && m <= n && Gen(run.states[m], q.key) == q.phase.snapshot.value.generation
                  && (RowOf(run.states[m], q.key).None? || !RowOf(run.states[m], q.key).value.isolated)))
  {
    NoSnapshotNoKey(env, run, n, l);
    RunSeen(env, run, n);
    var (s, q) := (run.states[n], run.states[n].searches[l]);
    assert Enabled(s, run.steps[n]) && run.states[n + 1] == TailStep(env, s, l, now);
    assert SearchSeen(env, run, n, q);
    if q.phase.snapshot.Some? {
      var m: nat :| SnapshotAt(env, run, m, n, q.key, q.phase.snapshot.value);
      hide Checkout, DropStale, MemoFor, IsRun, AllSeen;
    }
  }

  /** After a null answer the organization has no cached pool; the others keep theirs, in their order. */
  lemma SharedAnswerDropsThePool(env: Env, run: Run, n: nat, l: nat, now: int)
    requires IsRun(env, run) && n < |run.steps| && run.steps[n] == ResumeTail(l, now)
    requires run.states[n + 1].searches[l].phase == Returned(None)
    ensures var (s, s') := (run.states[n], run.states[n + 1]);
            && (forall x :: x in s'.pools.cache <==> x in s.pools.cache && x.key != s.searches[l].key)
            && |s'.pools.entries| == |s.pools.entries| && s'.pools.generations == s.pools.generations
  {
    RunOk(env, run, n);
    var s := run.states[n];
    assert Enabled(s, run.steps[n]) && run.states[n + 1] == TailStep(env, s, l, now);
    hide TailStep, TailOf, OrderedBy, DropStale, IsRun, Apply, Enabled, Lifecycle;
    TailCases(env, s, l, now);
    DropStaleKeeps(s.pools, s.searches[l].key, env.decrypt);
  }

  /** Line 370 returns the pool just put at the young end of the cache. */
  lemma HandedOutPool(env: Env, run: Run, n: nat, l: nat, now: int)
    requires IsRun(env, run) && n < |run.steps| && run.steps[n] == ResumeTail(l, now)
    requires TailOf(env, run.states[n], l, now).1.Pool?
    ensures var s, s' := run.states[n], run.states[n + 1];
            HandsOut(s, l, s'.pools, TailOf(env, s, l, now).1.id)
            && s'.searches[l].phase == Returned(Some(TailOf(env, s, l, now).1.id))
  {
    RunOk(env, run, n);
    RecencyStep(env, run, n);
    hide OrderedBy, Frame, Lifecycle, HandsOut, Recency, Tail;
    TailServes(env, run.states[n], l, now, Recency(env, run, n), Recency(env, run, n + 1));
  }

  /**
   Every pool a lookup hands out connects with exactly the configuration some
   registry row gave, and the organization was not invalidated between the
   moment the registry held that row and the hand-out.
   */
  lemma HandedOutPoolIsFresh(env: Env, run: Run, n: nat, l: nat, now: int)
    requires IsRun(env, run) && n < |run.steps| && run.steps[n] == ResumeTail(l, now)
    requires TailOf(env, run.states[n], l, now).1.Pool?
    ensures var s, s' := run.states[n], run.states[n + 1];
            var key := s.searches[l].key;
            && s'.searches[l].phase.Returned? && s'.searches[l].phase.pool.Some?
            && var id := s'.searches[l].phase.pool.value;
               && id < |s'.pools.entries|
               && (exists m :: FreshFrom(env, run, m, n, key, Some(s'.pools.entries[id].config)))
               && s'.pools.entries[id].generation == Gen(s', key) && !s'.pools.entries[id].ended
  {
    HandedOutPool(env, run, n, l, now);
    RunSeen(env, run, n);
    hide Apply, Enabled, Tail, FreshFrom;
    var q := run.states[n].searches[l];
    assert SearchSeen(env, run, n, q);
    SnapshotIsFresh(env, run, n, q.key, q.phase.snapshot.value);
  }

  // ---------------------------------------------------------------- registry reads

  lemma SearchStays(env: Env, s: State, step: Step, l: nat)
    requires InRange(s) && Enabled(s, step) && l < |s.searches|
    ensures var s' := Apply(env, s, step);
            l < |s'.searches| && s'.searches[l].key == s.searches[l].key
            && s'.searches[l].startGen == s.searches[l].startGen
  {
    hide Tail;
  }

  lemma {:induction false} SearchOrigin(env: Env, run: Run, b: nat, n: nat)
    requires IsRun(env, run) && b < n <= |run.steps| && run.steps[b].BeginLookup?
    ensures var l := |run.states[b].searches|;
            && l < |run.states[n].searches|
            && run.states[n].searches[l].key == run.steps[b].key
            && run.states[n].searches[l].startGen == Gen(run.states[b], run.steps[b].key)
    decreases n
  {
    if b < n - 1 {
      SearchOrigin(env, run, b, n - 1);
      SearchStays(env, run.states[n - 1], run.steps[n - 1], |run.states[b].searches|);
    }
  }

  /** A lookup that overlaps k invalidations of its organization reads the registry at most k + 1 times. */
  lemma {:induction false} ReadsAreBounded(env: Env, run: Run, b: nat, n: nat)
    requires IsRun(env, run) && b < n <= |run.steps| && run.steps[b].BeginLookup?
    ensures var l := |run.states[b].searches|;
            && l < |run.states[n].searches|
            && run.states[n].searches[l].readCount <= Invalidations(run, b, n, run.steps[b].key) + 1
  {
    SearchOrigin(env, run, b, n);
    RunOk(env, run, n);
    GenCounts(env, run, b, n, run.steps[b].key);
    assert SearchOk(env, run.states[n], run.states[n].searches[|run.states[b].searches|]);
  }

  // ---------------------------------------------------------------- giving up

  /** The attempts of a search never outnumber the invalidations it has seen. */
  predicate AttemptOk(q: Search) {
    match q.phase
    case Reading(attempt, g) => attempt + q.startGen <= g && attempt < 3
    case Fetched(attempt, g, _) => attempt + q.startGen <= g && attempt < 3
    case _ => true
  }

  lemma AttemptStep(env: Env, s: State, step: Step, l: nat)
    requires InRange(s) && Enabled(s, step) && LookupsOk(env, s) && l < |s.searches| && AttemptOk(s.searches[l])
    ensures l < |Apply(env, s, step).searches| && AttemptOk(Apply(env, s, step).searches[l])
  {
    assert SearchOk(env, s, s.searches[l]);
    hide Tail, Normalize, MemoFor, GoodSnapshot;
  }

  lemma AttemptBegins(env: Env, s: State, step: Step)
    requires InRange(s) && Enabled(s, step) && step.BeginLookup?
    ensures var s' := Apply(env, s, step); |s.searches| < |s'.searches| && AttemptOk(s'.searches[|s.searches|])
  {
    hide MemoFor;
  }

  lemma LookupsOfRun(env: Env, run: Run, n: nat)
    requires IsRun(env, run) && n <= |run.steps|
    ensures LookupsOk(env, run.states[n])
  {
    RunOk(env, run, n);
    hide OrderedBy, LookupsOk, IsRun;
  }

  lemma {:induction false} AttemptRun(env: Env, run: Run, b: nat, n: nat)
    requires IsRun(env, run) && b < n <= |run.steps| && run.steps[b].BeginLookup?
    ensures |run.states[b].searches| < |run.states[n].searches|
    ensures AttemptOk(run.states[n].searches[|run.states[b].searches|])
    decreases n
  {
    var l := |run.states[b].searches|;
    var (s, step) := (run.states[n - 1], run.steps[n - 1]);
    assert Enabled(s, step) && run.states[n] == Apply(env, s, step);
    hide Apply, LookupsOk, Enabled, AttemptOk, IsRun;
    if b < n - 1 {
      AttemptRun(env, run, b, n - 1);
      LookupsOfRun(env, run, n - 1);
      AttemptStep(env, s, step, l);
    } else {
      AttemptBegins(env, s, step);
    }
  }

  /** A lookup whose row is usable gives up only after three invalidations of its organization since it began. */
  lemma GivingUpTakesThree(env: Env, run: Run, b: nat, n: nat, now: int)
    requires IsRun(env, run) && b < n < |run.steps| && run.steps[b].BeginLookup?
    requires var l := |run.states[b].searches|; run.steps[n] == ResumeRead(l, now)
    requires Normalize(run.states[n].searches[|run.states[b].searches|].phase.row, env.decrypt).Ok?
    requires run.states[n + 1].searches[|run.states[b].searches|].phase.Failed?
    ensures Invalidations(run, b, n, run.steps[b].key) >= 3
  {
    var (s, l) := (run.states[n], |run.states[b].searches|);
    SearchOrigin(env, run, b, n);
    AttemptRun(env, run, b, n);
    RunOk(env, run, n);
    LookupsOfState(env, s);
    GenCounts(env, run, b, n, run.steps[b].key);
    assert SearchOk(env, s, s.searches[l]);
    hide StateOk, LookupsOk, Normalize;
  }
}
