/** The promises of the tenant connection protocol, over every run. */
module TenantTheorems {
  import opened Wrappers
  import opened OrderedMap
  import opened TenantConfig
  import opened PoolCache
  import opened PoolLifecycle
  import opened TenantProtocol
  import opened TenantRuns

  // ---------------------------------------------------------------- every state of a run

  /** The last step before state `n` that handed a pool to `key`, or -1. */
  ghost function LastServed(env: Env, run: Run, n: nat, key: Key): (at: int)
    requires IsRun(env, run) && n <= |run.steps|
    ensures -1 <= at < n
  {
    if n == 0 then -1
    else if ServedKey(env, run.states[n - 1], run.steps[n - 1]) == Some(key) then n - 1
    else LastServed(env, run, n - 1, key)
  }

  ghost function Recency(env: Env, run: Run, n: nat): Key -> int
    requires IsRun(env, run) && n <= |run.steps|
  {
    (key: Key) => LastServed(env, run, n, key)
  }

  lemma RecencyStep(env: Env, run: Run, n: nat)
    requires IsRun(env, run) && n < |run.steps|
    ensures Reranks(env, run.states[n], run.steps[n], Recency(env, run, n), Recency(env, run, n + 1))
  {
    hide Tail, Apply;
  }

  lemma InitOk(env: Env)
    ensures StateOk(env, INIT) && forall rank: Key -> int :: OrderedBy(INIT.pools.cache, rank)
  {
  }

  lemma {:induction false} RunOk(env: Env, run: Run, n: nat)
    requires IsRun(env, run) && n <= |run.steps|
    ensures StateOk(env, run.states[n]) && OrderedBy(run.states[n].pools.cache, Recency(env, run, n))
  {
    hide StateOk, Apply, OrderedBy, Enabled, Reranks, Recency, LastServed;
    if n == 0 {
      InitOk(env);
    } else {
      RunOk(env, run, n - 1);
      RecencyStep(env, run, n - 1);
      StateStep(env, run.states[n - 1], run.steps[n - 1], Recency(env, run, n - 1), Recency(env, run, n));
    }
  }

  /** The cache refines an LRU map: insertion order is the order of the last successful lookups, within the cap. */
  lemma {:induction false} LruOrder(env: Env, run: Run, n: nat)
    requires IsRun(env, run) && n <= |run.steps|
    ensures var cache := run.states[n].pools.cache;
            && |cache| <= env.maxPools
            && (forall i, j :: 0 <= i < j < |cache| ==>
                LastServed(env, run, n, cache[i].key) < LastServed(env, run, n, cache[j].key))
  {
    RunOk(env, run, n);
    var cache, rank := run.states[n].pools.cache, Recency(env, run, n);
    forall i, j | 0 <= i < j < |cache|
      ensures LastServed(env, run, n, cache[i].key) < LastServed(env, run, n, cache[j].key)
    {
      assert rank(cache[i].key) < rank(cache[j].key);
    }
  }

  /** No cached pool predates its organization's last invalidation, and no two belong to one organization. */
  lemma CachedPoolsAreCurrent(env: Env, run: Run, n: nat)
    requires IsRun(env, run) && n <= |run.steps|
    ensures var p := run.states[n].pools;
            && UniqueKeys(p.cache)
            && forall s :: s in p.cache ==> p.entries[s.value].generation == Gen(run.states[n], s.key)
  {
    RunOk(env, run, n);
  }

  /** Every pool ever created is cached, draining or ended, and its shutdown is queued or run at most once. */
  lemma OneLifeStage(env: Env, run: Run, n: nat, id: nat)
    requires IsRun(env, run) && n <= |run.steps| && id < |run.states[n].pools.entries|
    ensures var p := run.states[n].pools;
            var e := p.entries[id];
            var stages := multiset([Cached(p, id), Draining(e), e.ended]);
            && stages[true] == 1
            && (Cached(p, id) ==> !e.retired)
            && e.endsQueued + e.endsRun == (if e.ended then 1 else 0)
  {
    RunOk(env, run, n);
    Trichotomy(run.states[n].pools, env.decrypt, id);
  }

  // ---------------------------------------------------------------- shutdown

  /** A grant delivered to a pool that is already marked ended, in the gap before its queued shutdown runs. */
  predicate LateGrant(s: State, step: Step, id: nat) {
    && step.Grant? && Enabled(s, step)
    && s.requests[step.r].pool == id && s.pools.entries[id].ended
  }

  predicate IdleOnceEnded(s: State, id: nat) {
    id < |s.pools.entries| && s.pools.entries[id].ended ==> s.pools.entries[id].borrowed == 0
  }

  /** Only a late grant can lend a connection from a pool that is marked ended. */
  lemma IdleOnceEndedStep(env: Env, s: State, step: Step, id: nat, rank: Key -> int, rank': Key -> int)
    requires GoodEnv(env) && InRange(s) && Enabled(s, step) && StateOk(env, s)
    requires OrderedBy(s.pools.cache, rank) && Reranks(env, s, step, rank, rank')
    requires IdleOnceEnded(s, id)
    ensures IdleOnceEnded(Apply(env, s, step), id) <==> !LateGrant(s, step, id)
  {
    var s' := Apply(env, s, step);
    if step.ResumeTail? || step.InvalidateOrg? {
      StateStep(env, s, step, rank, rank');
      hide StateOk, Apply, OrderedBy, Reranks;
      if id < |s.pools.entries| { assert Agree(s.pools.entries[id], s'.pools.entries[id]); }
    } else if step.Finish? || step.DeliverGrant? {
      IdleReturn(env, s, step, id);
    } else {
      hide StateOk, OrderedBy, Reranks, GoodEnv;
    }
  }

  /** A connection that comes back, or reaches its caller, lends nothing. */
  lemma IdleReturn(env: Env, s: State, step: Step, id: nat)
    requires InRange(s) && Enabled(s, step) && StateOk(env, s) && (step.Finish? || step.DeliverGrant?)
    requires IdleOnceEnded(s, id)
    ensures IdleOnceEnded(Apply(env, s, step), id)
  {
    assert RequestOk(s.requests[step.r]);
    if Out(s.requests[step.r]) > 0 { OutIsBorrowed(s, step.r); }
    hide StateOk;
  }

  lemma EndsRunStep(env: Env, s: State, step: Step, id: nat, rank: Key -> int, rank': Key -> int)
    requires GoodEnv(env) && InRange(s) && Enabled(s, step) && StateOk(env, s)
    requires OrderedBy(s.pools.cache, rank) && Reranks(env, s, step, rank, rank')
    requires id < |s.pools.entries|
    ensures var s' := Apply(env, s, step);
            id < |s'.pools.entries| && s.pools.entries[id].endsRun <= s'.pools.entries[id].endsRun
    ensures step == RunEnd(id) ==> Apply(env, s, step).pools.entries[id].endsRun > 0
  {
    if step.ResumeTail? || step.InvalidateOrg? {
      StateStep(env, s, step, rank, rank');
      hide StateOk, Apply, OrderedBy, Reranks;
      assert Agree(s.pools.entries[id], Apply(env, s, step).pools.entries[id]);
    } else {
      hide StateOk, OrderedBy, Reranks;
    }
  }

  lemma {:induction false} ShutdownIsRemembered(env: Env, run: Run, j: nat, n: nat, id: nat)
    requires IsRun(env, run) && j < n <= |run.steps| && run.steps[j] == RunEnd(id)
    ensures id < |run.states[n].pools.entries| && run.states[n].pools.entries[id].endsRun > 0
    decreases n
  {
    hide Apply, StateOk, Reranks, OrderedBy, Recency;
    if j < n - 1 { ShutdownIsRemembered(env, run, j, n - 1, id); }
    RunOk(env, run, n - 1);
    RecencyStep(env, run, n - 1);
    EndsRunStep(env, run.states[n - 1], run.steps[n - 1], id, Recency(env, run, n - 1), Recency(env, run, n));
  }

  /** Conversely a late grant is always in danger: the queued shutdown can run next, with the connection out. */
  lemma LateGrantIsExposed(env: Env, run: Run, n: nat, id: nat)
    requires IsRun(env, run) && n < |run.steps| && LateGrant(run.states[n], run.steps[n], id)
    ensures Enabled(run.states[n + 1], RunEnd(id)) && run.states[n + 1].pools.entries[id].borrowed > 0
  {
    RunOk(env, run, n);
    assert EntryOk(run.states[n].pools.entries[id], env.decrypt);
    hide StateOk;
  }

  // ---------------------------------------------------------------- callers and their connections

  predicate Holds(q: Request) {
    q.wire.GrantInFlight? || q.holding
  }

  /** The callers that have, or are about to receive, a connection of pool `id`. */
  function Holders(rs: seq<Request>, id: nat): nat {
    if rs == [] then 0
    else (if rs[0].pool == id && Holds(rs[0]) then 1 else 0) + Holders(rs[1..], id)
  }

  lemma {:induction false} HoldersAreOut(rs: seq<Request>, id: nat)
    requires forall k :: 0 <= k < |rs| ==> RequestOk(rs[k])
    ensures Holders(rs, id) == TotalOut(rs, id)
  {
    if rs != [] {
      HoldersAreOut(rs[1..], id);
    }
  }

  /** A pool's borrowed count is the number of callers with one of its connections. */
  lemma {:induction false} BorrowedIsHeld(env: Env, run: Run, n: nat, id: nat)
    requires IsRun(env, run) && n <= |run.steps| && id < |run.states[n].pools.entries|
    ensures run.states[n].pools.entries[id].borrowed == Holders(run.states[n].requests, id)
  {
    RunOk(env, run, n);
    HoldersAreOut(run.states[n].requests, id);
  }

  lemma {:induction false} HoldersPositive(rs: seq<Request>, r: nat, id: nat)
    requires r < |rs| && rs[r].pool == id && Holds(rs[r])
    ensures Holders(rs, id) > 0
  {
    if r > 0 { HoldersPositive(rs[1..], r - 1, id); }
  }

  lemma {:induction false} SomeHolder(rs: seq<Request>, id: nat)
    requires Holders(rs, id) > 0
    ensures exists r :: 0 <= r < |rs| && rs[r].pool == id && Holds(rs[r])
  {
    if !(rs[0].pool == id && Holds(rs[0])) {
      SomeHolder(rs[1..], id);
      var r :| 0 <= r < |rs[1..]| && rs[1..][r].pool == id && Holds(rs[1..][r]);
      assert rs[r + 1] == rs[1..][r];
    }
  }

  predicate EndedAt(s: State, id: nat) {
    id < |s.pools.entries| && s.pools.entries[id].ended
  }

  predicate HoldsOf(s: State, r: nat, id: nat) {
    r < |s.requests| && s.requests[r].pool == id && Holds(s.requests[r])
  }

  /** The grant of request `r`, delivered while its pool was marked ended. */
  predicate LateGrantTo(s: State, step: Step, r: nat, id: nat) {
    LateGrant(s, step, id) && step.r == r
  }

  lemma HoldsByGrant(env: Env, s: State, step: Step, r: nat, id: nat)
    requires InRange(s) && Enabled(s, step) && HoldsOf(Apply(env, s, step), r, id) && !HoldsOf(s, r, id)
    ensures step.Grant? && step.r == r && s.requests[r].pool == id
  {
    hide Tail, Invalidate;
  }

  lemma EndingIsIdle(env: Env, run: Run, n: nat, id: nat)
    requires IsRun(env, run) && n < |run.steps|
    ensures EndedAt(run.states[n + 1], id) && !EndedAt(run.states[n], id) ==>
              run.states[n + 1].pools.entries[id].borrowed == 0
  {
    RunOk(env, run, n);
    RecencyStep(env, run, n);
    hide StateOk, Apply, OrderedBy, Reranks, Recency;
    if !EndedAt(run.states[n], id) {
      IdleOnceEndedStep(env, run.states[n], run.steps[n], id, Recency(env, run, n), Recency(env, run, n + 1));
    }
  }

  /** Whoever holds a connection of an ended pool was granted it late. */
  lemma {:induction false} HolderWasLate(env: Env, run: Run, n: nat, id: nat, r: nat)
    requires IsRun(env, run) && n <= |run.steps| && EndedAt(run.states[n], id) && HoldsOf(run.states[n], r, id)
    ensures exists j :: 0 <= j < n && LateGrantTo(run.states[j], run.steps[j], r, id)
    decreases n
  {
    BorrowedIsHeld(env, run, n, id);
    HoldersPositive(run.states[n].requests, r, id);
    EndingIsIdle(env, run, n - 1, id);
    var (s, step) := (run.states[n - 1], run.steps[n - 1]);
    hide Apply, Holders;
    assert EndedAt(s, id);
    if HoldsOf(s, r, id) {
      HolderWasLate(env, run, n - 1, id, r);
    } else {
      HoldsByGrant(env, s, step, r, id);
      assert LateGrantTo(run.states[n - 1], run.steps[n - 1], r, id);
    }
  }

  /**
   When the pool library's own shutdown runs, a connection is borrowed from the pool if and only if some
   request that was granted late still has it; and the shutdown runs at most once.
   */
  lemma ShutdownIsSafe(env: Env, run: Run, n: nat, id: nat)
    requires IsRun(env, run) && n < |run.steps| && run.steps[n] == RunEnd(id)
    ensures run.states[n].pools.entries[id].borrowed > 0 <==>
              exists r, j ::
                HoldsOf(run.states[n], r, id) && 0 <= j < n && LateGrantTo(run.states[j], run.steps[j], r, id)
    ensures forall j :: 0 <= j < n ==> run.steps[j] != RunEnd(id)
  {
    RunOk(env, run, n);
    assert EntryOk(run.states[n].pools.entries[id], env.decrypt);
    BorrowedIsHeld(env, run, n, id);
    var s := run.states[n];
    hide StateOk, Apply, OrderedBy, Holders;
    if Holders(s.requests, id) > 0 {
      SomeHolder(s.requests, id);
      var r :| 0 <= r < |s.requests| && s.requests[r].pool == id && Holds(s.requests[r]);
      HolderWasLate(env, run, n, id, r);
    }
    if r, j :| HoldsOf(s, r, id) && 0 <= j < n && LateGrantTo(run.states[j], run.steps[j], r, id) {
      HoldersPositive(s.requests, r, id);
    }
    forall j | 0 <= j < n ensures run.steps[j] != RunEnd(id) {
      if run.steps[j] == RunEnd(id) { ShutdownIsRemembered(env, run, j, n, id); }
    }
  }

  /** A pool that left the cache ends as soon as its callers have given everything back. */
  lemma {:induction false} RetiredPoolEnds(env: Env, run: Run, n: nat, id: nat)
    requires IsRun(env, run) && n <= |run.steps| && id < |run.states[n].pools.entries|
    ensures !Cached(run.states[n].pools, id) && Holders(run.states[n].requests, id) == 0 ==>
              run.states[n].pools.entries[id].ended
  {
    BorrowedIsHeld(env, run, n, id);
    OneLifeStage(env, run, n, id);
  }

  /**
   Each caller is answered at most once, exactly once when its pool has
   responded; a granted connection reached its caller or went back, not both.
   */
  lemma AnsweredOnce(env: Env, run: Run, n: nat, r: nat)
    requires IsRun(env, run) && n <= |run.steps| && r < |run.states[n].requests|
    ensures var q := run.states[n].requests[r];
            && |q.answers| <= 1
            && (q.wire.Consumed? || q.settled ==> |q.answers| == 1)
            && q.granted <= 1
            && (q.wire.Consumed? && q.granted == 1 ==>
                  if q.answers == [Delivered] then q.holding == (q.returned == 0) && q.returned <= 1
                  else q.answers == [Rejected] && !q.holding && q.returned == 1)
            && (q.wire.Consumed? && q.granted == 0 ==> q.answers == [Rejected] && !q.holding && q.returned == 0)
  {
    RunOk(env, run, n);
    var q := run.states[n].requests[r];
    assert RequestOk(q);
    hide StateOk;
    if q.settled {
      assert q.answers == [q.answers[0]];
      assert q.answers[0].Delivered? <==> q.answers == [Delivered];
    }
  }

  /** The one answer is final. */
  lemma {:induction false} AnswersAreFinal(env: Env, run: Run, m: nat, n: nat, r: nat)
    requires IsRun(env, run) && m <= n <= |run.steps| && r < |run.states[m].requests|
    ensures r < |run.states[n].requests|
    ensures run.states[m].requests[r].settled ==>
              run.states[n].requests[r].settled
              && run.states[n].requests[r].answers == run.states[m].requests[r].answers
    decreases n
  {
    if m < n {
      AnswersAreFinal(env, run, m, n - 1, r);
      AnsweredOnce(env, run, n - 1, r);
      AnsweredOnce(env, run, n, r);
      AnswersGrow(env, run.states[n - 1], run.steps[n - 1], r);
      if run.states[m].requests[r].settled {
        assert |run.states[n - 1].requests[r].answers| == 1 == |run.states[n].requests[r].answers|;
      }
    }
  }

  lemma AnswersGrow(env: Env, s: State, step: Step, r: nat)
    requires InRange(s) && Enabled(s, step) && r < |s.requests|
    ensures r < |Apply(env, s, step).requests|
    ensures s.requests[r].answers <= Apply(env, s, step).requests[r].answers
    ensures s.requests[r].settled ==> Apply(env, s, step).requests[r].settled
  {
  }
}
