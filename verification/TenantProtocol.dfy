/**
 The tenant connection protocol as a state machine. One JavaScript thread runs
 the code between two awaits without interruption; at every await, and in the
 microtask gap after it, any other step may run.
 */
module TenantProtocol {
  import opened Wrappers
  import opened OrderedMap
  import opened TenantConfig
  import opened PoolCache
  import opened PoolLifecycle

  /** Settings read once from the environment. */
  datatype Env = Env(decrypt: Decrypt, idleMs: int, maxPools: nat, maxAgeMs: int)

  /** TENANT_POOL_MAX is clamped to at least one. */
  predicate GoodEnv(env: Env) {
    env.maxPools >= 1
  }

  // ---------------------------------------------------------------- lookups

  datatype Memo = Memo(key: Key, generation: nat, at: int, snapshot: Snapshot)

  /** One AsyncLocalStorage store: the organization it routes to, and the memo left in it. */
  datatype Context = Context(orgId: Key, memo: Option<Memo>)

  datatype Phase =
    | Reading(attempt: nat, generation: nat)                     // the registry SELECT is on its way
    | Fetched(attempt: nat, generation: nat, row: Option<Row>)   // its row is on the way back
    | Resolved(snapshot: Option<Snapshot>)                       // getTenantPool will resume with it
    | Returned(pool: Option<nat>)
    | Failed

  /** `readCount` counts the registry reads; `startGen` is the generation when the lookup began. */
  datatype Search = Search(key: Key, ctx: Option<nat>, phase: Phase, readCount: nat, startGen: nat)

  // ---------------------------------------------------------------- connection requests

  datatype Wire = Waiting | GrantInFlight | FailureInFlight | Consumed
  datatype Answer = Delivered | Rejected

  /**
   One call that waits for a connection: acquireConnection, or a statement the
   pool runs itself (`timed` false). `granted` and `returned` count the pool's
   own acquire and release events for it.
   */
  datatype Request = Request(pool: nat, timed: bool, settled: bool, wire: Wire, answers: seq<Answer>,
                             holding: bool, granted: nat, returned: nat)

  datatype State = State(registry: map<Key, Row>, pools: Pools, contexts: seq<Context>,
                         searches: seq<Search>, requests: seq<Request>)

  const INIT := State(map[], Pools(map[], [], []), [], [], [])

  function RowOf(s: State, key: Key): Option<Row> {
    if key in s.registry then Some(s.registry[key]) else None
  }

  function Gen(s: State, key: Key): nat {
    Generation(s.pools, key)
  }

  // ---------------------------------------------------------------- resolving a snapshot

  function MemoFor(env: Env, s: State, key: Key, ctx: Option<nat>, now: int): Option<Snapshot> {
    if ctx.None? || ctx.value >= |s.contexts| || s.contexts[ctx.value].memo.None? then None
    else
      var memo := s.contexts[ctx.value].memo.value;
      if memo.key != key || memo.generation != Gen(s, key) || now - memo.at > env.maxAgeMs then None
      else Some(memo.snapshot)
  }

  /** getTenantPool up to its first await. */
  function Start(env: Env, s: State, q: Search, now: int): Search {
    if q.key == 0 then q.(phase := Resolved(None))
    else
      var memo := MemoFor(env, s, q.key, q.ctx, now);
      if memo.Some? then q.(phase := Resolved(memo))
      else q.(phase := Reading(0, Gen(s, q.key)), readCount := q.readCount + 1)
  }

  function SnapshotOf(key: Key, value: Option<Config>, generation: nat, row: Option<Row>): Snapshot {
    Snapshot(value, generation, FingerprintOf(key, row))
  }

  /** The attempt loop, from the row's arrival to the next await. */
  function Resume(env: Env, s: State, q: Search): Search
    requires q.phase.Fetched?
  {
    match Normalize(q.phase.row, env.decrypt)
    case Err(_) => q.(phase := Failed)
    case Ok(value) =>
      if Gen(s, q.key) != q.phase.generation then
        if q.phase.attempt + 1 < 3 then
          q.(phase := Reading(q.phase.attempt + 1, Gen(s, q.key)), readCount := q.readCount + 1)
        else q.(phase := Failed)
      else q.(phase := Resolved(Some(SnapshotOf(q.key, value, q.phase.generation, q.phase.row))))
  }

  /** rememberSnapshot: only into a store of the same organization. */
  function Remember(s: State, q: Search, now: int): seq<Context> {
    if q.phase.Resolved? && q.phase.snapshot.Some? && q.ctx.Some? && q.ctx.value < |s.contexts|
       && s.contexts[q.ctx.value].orgId == q.key
    then
      var snap := q.phase.snapshot.value;
      s.contexts[q.ctx.value := s.contexts[q.ctx.value].(memo := Some(Memo(q.key, snap.generation, now, snap)))]
    else s.contexts
  }

  // ---------------------------------------------------------------- steps

  datatype Step =
    | SetRegistry(key: Key, row: Option<Row>)      // this or another replica, or an operator
    | InvalidateOrg(key: Key)
    | OpenContext(orgId: Key)
    | BeginLookup(key: Key, ctx: Option<nat>, now: int)
    | ReadRow(l: nat)
    | FailRead(l: nat)
    | ResumeRead(l: nat, now: int)
    | ResumeTail(l: nat, now: int)
    | RunEnd(id: nat)
    | BeginRequest(id: nat, timed: bool)
    | Grant(r: nat, now: int)
    | Refuse(r: nat)
    | Timeout(r: nat)
    | DeliverGrant(r: nat, now: int)
    | DeliverFailure(r: nat)
    | Finish(r: nat, now: int)

  predicate Enabled(s: State, step: Step) {
    match step
    case SetRegistry(_, _) => true
    case InvalidateOrg(_) => true
    case OpenContext(_) => true
    case BeginLookup(_, ctx, _) => ctx.Some? ==> ctx.value < |s.contexts|
    case ReadRow(l) => l < |s.searches| && s.searches[l].phase.Reading?
    case FailRead(l) => l < |s.searches| && s.searches[l].phase.Reading?
    case ResumeRead(l, _) => l < |s.searches| && s.searches[l].phase.Fetched?
    case ResumeTail(l, _) => l < |s.searches| && s.searches[l].phase.Resolved?
    case RunEnd(id) => id < |s.pools.entries| && s.pools.entries[id].endsQueued > 0
    case BeginRequest(id, _) => id < |s.pools.entries|
    // The pool library grants nothing once it is shut down.
    case Grant(r, _) => r < |s.requests| && s.requests[r].wire.Waiting?
                        && s.requests[r].pool < |s.pools.entries|
                        && s.pools.entries[s.requests[r].pool].endsRun == 0
    case Refuse(r) => r < |s.requests| && s.requests[r].wire.Waiting?
    case Timeout(r) => r < |s.requests| && s.requests[r].timed && !s.requests[r].settled
    case DeliverGrant(r, _) => r < |s.requests| && s.requests[r].wire.GrantInFlight?
    case DeliverFailure(r) => r < |s.requests| && s.requests[r].wire.FailureInFlight?
    case Finish(r, _) => r < |s.requests| && s.requests[r].holding
  }

  function SetSearch(s: State, l: nat, q: Search): State
    requires l < |s.searches|
  {
    s.(searches := s.searches[l := q])
  }

  function SetRequest(s: State, r: nat, q: Request): State
    requires r < |s.requests|
  {
    s.(requests := s.requests[r := q])
  }

  function PoolEvent(s: State, id: nat, e: Entry): State
    requires id < |s.pools.entries|
  {
    s.(pools := Update(s.pools, id, e))
  }

  /** The indices a state holds refer to something. */
  ghost predicate InRange(s: State) {
    && IdsInRange(s.pools)
    && (forall r :: 0 <= r < |s.requests| ==> s.requests[r].pool < |s.pools.entries|)
  }

  function TailStep(env: Env, s: State, l: nat, now: int): State
    requires l < |s.searches| && s.searches[l].phase.Resolved? && IdsInRange(s.pools)
  {
    var q := s.searches[l];
    var (pools, outcome) := Tail(s.pools, q.key, q.phase.snapshot, env.idleMs, env.maxPools, now);
    match outcome
    case Shared => SetSearch(s.(pools := pools), l, q.(phase := Returned(None)))
    case Again => SetSearch(s, l, Start(env, s, q, now))
    case Pool(id) => SetSearch(s.(pools := pools), l, q.(phase := Returned(Some(id))))
  }

  predicate GaveUp(q: Request) {
    q.timed && q.settled
  }

  /** The caller gets its connection, unless it gave up: then the connection goes straight back. */
  function OnGrant(q: Request): Request {
    if GaveUp(q) then q.(wire := Consumed, returned := q.returned + 1)
    else q.(wire := Consumed, settled := true, answers := q.answers + [Delivered], holding := true)
  }

  function OnFailure(q: Request): Request {
    if q.settled then q.(wire := Consumed)
    else q.(wire := Consumed, settled := true, answers := q.answers + [Rejected])
  }

  function OnTimer(q: Request): Request {
    q.(settled := true, answers := q.answers + [Rejected])
  }

  function GiveBack(q: Request): Request {
    q.(holding := false, returned := q.returned + 1)
  }

  function Apply(env: Env, s: State, step: Step): (s': State)
    requires Enabled(s, step) && InRange(s)
    ensures InRange(s')
  {
    match step
    case SetRegistry(key, row) =>
      s.(registry := if row.Some? then s.registry[key := row.value] else s.registry - {key})
    case InvalidateOrg(key) => s.(pools := Invalidate(s.pools, key))
    case OpenContext(orgId) => s.(contexts := s.contexts + [Context(orgId, None)])
    case BeginLookup(key, ctx, now) =>
      s.(searches := s.searches + [Start(env, s, Search(key, ctx, Failed, 0, Gen(s, key)), now)])
    case ReadRow(l) =>
      var q := s.searches[l];
      SetSearch(s, l, q.(phase := Fetched(q.phase.attempt, q.phase.generation, RowOf(s, q.key))))
    case FailRead(l) => SetSearch(s, l, s.searches[l].(phase := Failed))
    case ResumeRead(l, now) =>
      var q := Resume(env, s, s.searches[l]);
      SetSearch(s.(contexts := Remember(s, q, now)), l, q)
    case ResumeTail(l, now) => TailStep(env, s, l, now)
    case RunEnd(id) => PoolEvent(s, id, RunEndEntry(s.pools.entries[id]))
    case BeginRequest(id, timed) =>
      s.(requests := s.requests + [Request(id, timed, false, Waiting, [], false, 0, 0)])
    case Grant(r, now) =>
      var q := s.requests[r];
      PoolEvent(SetRequest(s, r, q.(wire := GrantInFlight, granted := q.granted + 1)),
                q.pool, AcquireEntry(s.pools.entries[q.pool], now))
    case Refuse(r) => SetRequest(s, r, s.requests[r].(wire := FailureInFlight))
    case Timeout(r) => SetRequest(s, r, OnTimer(s.requests[r]))
    case DeliverGrant(r, now) =>
      var q := s.requests[r];
      var s1 := SetRequest(s, r, OnGrant(q));
      if GaveUp(q) then PoolEvent(s1, q.pool, ReleaseEntry(s.pools.entries[q.pool], now)) else s1
    case DeliverFailure(r) => SetRequest(s, r, OnFailure(s.requests[r]))
    case Finish(r, now) =>
      var q := s.requests[r];
      PoolEvent(SetRequest(s, r, GiveBack(q)), q.pool, ReleaseEntry(s.pools.entries[q.pool], now))
  }

  // ---------------------------------------------------------------- runs

  type GoodState = s: State | InRange(s) ghost witness INIT

  datatype Run = Run(states: seq<GoodState>, steps: seq<Step>)

  /** Every interleaving from process start. */
  ghost predicate IsRun(env: Env, run: Run) {
    && GoodEnv(env)
    && |run.states| == |run.steps| + 1
    && run.states[0] == INIT
    && forall i :: 0 <= i < |run.steps| ==>
         Enabled(run.states[i], run.steps[i]) && run.states[i + 1] == Apply(env, run.states[i], run.steps[i])
  }
}
