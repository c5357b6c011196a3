/** Concrete runs that show where the protocol's promises stop. */
module TenantWitnesses {
  import opened Wrappers
  import opened OrderedMap
  import opened TenantConfig
  import opened PoolCache
  import opened TenantProtocol
  import opened TenantTheorems

  ghost function Last(run: Run): GoodState
    requires run.states != []
  {
    run.states[|run.states| - 1]
  }

  lemma ThenRuns(env: Env, run: Run, step: Step)
    requires IsRun(env, run) && Enabled(Last(run), step)
    ensures IsRun(env, Run(run.states + [Apply(env, Last(run), step)], run.steps + [step]))
  {
    hide Apply, Enabled;
  }

  ghost function Then(env: Env, run: Run, step: Step): (r: Run)
    requires IsRun(env, run) && Enabled(Last(run), step)
    ensures IsRun(env, r) && Last(r) == Apply(env, Last(run), step)
    ensures |r.steps| == |run.steps| + 1 && r.steps[|run.steps|] == step && r.states[|run.steps|] == Last(run)
  {
    ThenRuns(env, run, step);
    hide Apply, Enabled, IsRun;
    Run(run.states + [Apply(env, Last(run), step)], run.steps + [step])
  }

  ghost function Empty(env: Env): (r: Run)
    requires GoodEnv(env)
    ensures IsRun(env, r) && Last(r) == INIT && r.steps == []
  {
    Run([INIT], [])
  }

  /** A lookup of organization 1 that has just read `row`. */
  lemma ResolvedOnce(env: Env, row: Option<Row>, value: Option<Config>) returns (run: Run)
    requires GoodEnv(env) && Normalize(row, env.decrypt) == Ok(value)
    ensures IsRun(env, run)
    ensures Last(run) == State(if row.Some? then map[1 := row.value] else map[], INIT.pools, [],
                               [Search(1, None, Resolved(Some(SnapshotOf(1, value, 0, row))), 1, 0)], [])
  {
    run := Then(env, Empty(env), SetRegistry(1, row));
    assert Last(run).registry == if row.Some? then map[1 := row.value] else map[];
    run := Then(env, run, BeginLookup(1, None, 0));
    assert Last(run).searches == [Search(1, None, Reading(0, 0), 1, 0)];
    run := Then(env, run, ReadRow(0));
    assert Last(run).searches == [Search(1, None, Fetched(0, 0, row), 1, 0)];
    run := Then(env, run, ResumeRead(0, 0));
    assert Last(run).searches == [Search(1, None, Resolved(Some(SnapshotOf(1, value, 0, row))), 1, 0)];
  }

  /**
   A shared-mode answer skips the generation check: a lookup can answer null
   although the organization was made isolated, and invalidated, before.
   */
  lemma SharedAnswerMayBeStale(env: Env, row: Row) returns (run: Run)
    requires GoodEnv(env) && Normalize(Some(row), env.decrypt).Ok? && row.isolated
    ensures IsRun(env, run)
    ensures Last(run).searches == [Search(1, None, Returned(None), 1, 0)]
    ensures RowOf(Last(run), 1) == Some(row) && Gen(Last(run), 1) == 1
  {
    run := ResolvedOnce(env, None, None);
    run := Then(env, run, SetRegistry(1, Some(row)));
    run := Then(env, run, InvalidateOrg(1));
    assert Last(run).searches[0].phase.Resolved?;
    run := Then(env, run, ResumeTail(0, 0));
  }

  lemma ServeFirst(env: Env, snap: Snapshot)
    requires GoodEnv(env) && snap.value.Some? && snap.generation == 0
    ensures Tail(INIT.pools, 1, Some(snap), env.idleMs, env.maxPools, 0)
         == (Pools(map[], [Slot(1, 0)], [NewEntry(snap.value.value, snap, 0)]), Pool(0))
  {
    var e := NewEntry(snap.value.value, snap, 0);
    assert EvictIdle(INIT.pools, env.idleMs, 0) == INIT.pools;
    assert Pick(INIT.pools, 1, snap, 0) == (Pools(map[], [], [e]), 0) by {
      assert INIT.pools.entries + [e] == [e];
    }
    assert [e][0 := e.(lastUsed := 0)] == [e];
    assert INIT.pools.cache + [Slot(1, 0)] == [Slot(1, 0)];
  }

  /** A lookup that created organization 1's pool, and a caller about to use it. */
  lemma FirstCaller(env: Env, row: Row, config: Config) returns (run: Run)
    requires GoodEnv(env) && Normalize(Some(row), env.decrypt) == Ok(Some(config))
    ensures IsRun(env, run)
    ensures Last(run).pools ==
            Pools(map[], [Slot(1, 0)], [NewEntry(config, SnapshotOf(1, Some(config), 0, Some(row)), 0)])
    ensures Last(run).requests == [Request(0, true, false, Waiting, [], false, 0, 0)]
  {
    run := ResolvedOnce(env, Some(row), Some(config));
    ServeFirst(env, SnapshotOf(1, Some(config), 0, Some(row)));
    run := Then(env, run, ResumeTail(0, 0));
    run := Then(env, run, BeginRequest(0, true));
  }

  /**
   The gap between marking a pool ended and its queued shutdown: a caller that
   already holds the pool can be granted a connection in it, and the shutdown
   then runs with that connection borrowed.
   */
  lemma ShutdownMayOvertakeACaller(env: Env, row: Row, config: Config) returns (run: Run)
    requires GoodEnv(env) && Normalize(Some(row), env.decrypt) == Ok(Some(config))
    ensures IsRun(env, run) && |run.steps| > 0 && run.steps[|run.steps| - 1] == RunEnd(0)
    ensures |Last(run).pools.entries| == 1 && Last(run).pools.entries[0].endsRun == 1
    ensures Last(run).pools.entries[0].borrowed == 1
  {
    var e := NewEntry(config, SnapshotOf(1, Some(config), 0, Some(row)), 0);
    run := FirstCaller(env, row, config);
    run := Then(env, run, InvalidateOrg(1));
    assert Last(run).pools.entries == [EndEntry(e)];
    run := Then(env, run, Grant(0, 0));
    assert Last(run).pools.entries == [AcquireEntry(EndEntry(e), 0)];
    run := Then(env, run, RunEnd(0));
  }
}
