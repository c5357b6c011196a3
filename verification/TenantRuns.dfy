/** What holds in every state of every run of the tenant connection protocol. */
module TenantRuns {
  import opened Wrappers
  import opened OrderedMap
  import opened TenantConfig
  import opened PoolCache
  import opened PoolLifecycle
  import opened TenantProtocol

  // ---------------------------------------------------------------- lookups

  /** The generation a lookup's registry reads are charged up to. */
  function Charged(s: State, q: Search): nat {
    match q.phase
    case Reading(_, g) => g
    case Fetched(_, g, _) => g
    case Resolved(Some(n)) => n.generation
    case _ => Gen(s, q.key)
  }

  ghost predicate SearchOk(env: Env, s: State, q: Search) {
    && q.startGen <= Charged(s, q) <= Gen(s, q.key)
    && q.readCount <= Charged(s, q) - q.startGen + 1
    && (q.phase.Resolved? && q.phase.snapshot.Some? ==> GoodSnapshot(q.phase.snapshot.value, env.decrypt))
  }

  ghost predicate ContextOk(env: Env, s: State, c: Context) {
    c.memo.Some? ==>
      var m := c.memo.value;
      m.snapshot.generation == m.generation <= Gen(s, m.key) && GoodSnapshot(m.snapshot, env.decrypt)
  }

  ghost predicate LookupsOk(env: Env, s: State) {
    && (forall l :: 0 <= l < |s.searches| ==> SearchOk(env, s, s.searches[l]))
    && (forall c :: 0 <= c < |s.contexts| ==> ContextOk(env, s, s.contexts[c]))
  }

  ghost predicate GensGrow(s: State, s': State) {
    forall key :: Gen(s, key) <= Gen(s', key)
  }

  lemma LookupsCarryOver(env: Env, s: State, s': State)
    requires LookupsOk(env, s) && GensGrow(s, s') && s'.searches == s.searches && s'.contexts == s.contexts
    ensures LookupsOk(env, s')
  {
    forall l | 0 <= l < |s'.searches| ensures SearchOk(env, s', s'.searches[l]) {
      assert SearchOk(env, s, s.searches[l]);
    }
    forall c | 0 <= c < |s'.contexts| ensures ContextOk(env, s', s'.contexts[c]) {
      assert ContextOk(env, s, s.contexts[c]);
    }
  }

  /** A lookup that starts, or starts again with a bump it has not been charged for. */
  lemma StartOk(env: Env, s: State, q: Search, now: int)
    requires LookupsOk(env, s) && q.startGen <= Gen(s, q.key) && q.readCount <= Gen(s, q.key) - q.startGen
    ensures SearchOk(env, s, Start(env, s, q, now))
  {
    var memo := MemoFor(env, s, q.key, q.ctx, now);
    if q.key != 0 && memo.Some? {
      assert ContextOk(env, s, s.contexts[q.ctx.value]);
    }
  }

  lemma ResumeOk(env: Env, s: State, q: Search)
    requires SearchOk(env, s, q) && q.phase.Fetched?
    ensures SearchOk(env, s, Resume(env, s, q))
  {
    if Normalize(q.phase.row, env.decrypt).Ok? {
      NormalizeIsConfigOf(q.key, q.phase.row, env.decrypt);
    }
  }

  lemma LookupsStep(env: Env, s: State, step: Step)
    requires InRange(s) && Enabled(s, step) && LookupsOk(env, s)
    ensures LookupsOk(env, Apply(env, s, step)) && GensGrow(s, Apply(env, s, step))
  {
    var s' := Apply(env, s, step);
    match step
    case OpenContext(_) =>
    case BeginLookup(key, ctx, now) => StartOk(env, s, Search(key, ctx, Failed, 0, Gen(s, key)), now);
    case ReadRow(l) => assert SearchOk(env, s, s.searches[l]);
    case FailRead(l) => assert SearchOk(env, s, s.searches[l]);
    case ResumeRead(l, now) =>
      ResumeOk(env, s, s.searches[l]);
      assert SearchOk(env, s', s'.searches[l]);
      forall c | 0 <= c < |s'.contexts| ensures ContextOk(env, s', s'.contexts[c]) {
        assert ContextOk(env, s, s.contexts[c]);
      }
    case ResumeTail(l, now) => TailLookups(env, s, l, now);
    case _ => LookupsCarryOver(env, s, s');
  }

  lemma TailLookups(env: Env, s: State, l: nat, now: int)
    requires InRange(s) && Enabled(s, ResumeTail(l, now)) && LookupsOk(env, s)
    ensures LookupsOk(env, TailStep(env, s, l, now)) && GensGrow(s, TailStep(env, s, l, now))
  {
    var q, s' := s.searches[l], TailStep(env, s, l, now);
    assert SearchOk(env, s, q);
    if Tail(s.pools, q.key, q.phase.snapshot, env.idleMs, env.maxPools, now).1.Again? {
      StartOk(env, s, q, now);
    }
    forall k | 0 <= k < |s'.searches| ensures SearchOk(env, s', s'.searches[k]) {
      assert SearchOk(env, s, s.searches[k]);
    }
    forall c | 0 <= c < |s'.contexts| ensures ContextOk(env, s', s'.contexts[c]) {
      assert ContextOk(env, s, s.contexts[c]);
    }
  }

  // ---------------------------------------------------------------- requests

  /** The connections a request has out: granted by the pool and not yet given back. */
  function Out(q: Request): int {
    q.granted - q.returned
  }

  function TotalOut(rs: seq<Request>, id: nat): int {
    if rs == [] then 0
    else (if rs[0].pool == id then Out(rs[0]) else 0) + TotalOut(rs[1..], id)
  }

  /** Answered at most once; a granted connection is delivered or given back, and never both kept and lost. */
  ghost predicate RequestOk(q: Request) {
    && |q.answers| == (if q.settled then 1 else 0)
    && q.granted <= 1
    && (q.wire.Waiting? || q.wire.FailureInFlight? ==> q.granted == 0)
    && (q.wire.GrantInFlight? ==> q.granted == 1)
    && (if q.wire.Consumed? then
          && q.settled
          && (q.answers[0].Delivered? ==> q.granted == 1)
          && (q.holding ==> q.answers[0].Delivered? && q.returned == 0)
          && (!q.holding ==> q.returned == q.granted)
        else
          && !q.holding && q.returned == 0
          && (q.settled ==> q.timed && q.answers[0].Rejected?))
  }

  ghost predicate RequestsOk(s: State) {
    && (forall r :: 0 <= r < |s.requests| ==> RequestOk(s.requests[r]))
    && (forall id :: 0 <= id < |s.pools.entries| ==> s.pools.entries[id].borrowed == TotalOut(s.requests, id))
  }

  lemma {:induction false} TotalOutUpdate(rs: seq<Request>, r: nat, q: Request, id: nat)
    requires r < |rs| && q.pool == rs[r].pool
    ensures TotalOut(rs[r := q], id) == TotalOut(rs, id) + (if q.pool == id then Out(q) - Out(rs[r]) else 0)
  {
    if r == 0 {
      assert rs[0 := q][1..] == rs[1..];
    } else {
      assert rs[r := q][1..] == rs[1..][r - 1 := q];
      TotalOutUpdate(rs[1..], r - 1, q, id);
    }
  }

  lemma {:induction false} TotalOutSnoc(rs: seq<Request>, q: Request, id: nat)
    ensures TotalOut(rs + [q], id) == TotalOut(rs, id) + (if q.pool == id then Out(q) else 0)
  {
    if rs == [] {
      assert [q][1..] == [];
      assert rs + [q] == [q];
    } else {
      assert (rs + [q])[1..] == rs[1..] + [q];
      TotalOutSnoc(rs[1..], q, id);
    }
  }

  lemma {:induction false} TotalOutAbsent(rs: seq<Request>, id: nat)
    requires forall r :: 0 <= r < |rs| ==> rs[r].pool != id
    ensures TotalOut(rs, id) == 0
  {
    if rs != [] {
      TotalOutAbsent(rs[1..], id);
    }
  }

  lemma {:induction false} TotalOutPositive(rs: seq<Request>, r: nat)
    requires forall k :: 0 <= k < |rs| ==> RequestOk(rs[k])
    requires r < |rs| && Out(rs[r]) > 0
    ensures TotalOut(rs, rs[r].pool) > 0
  {
    TotalOutNonNegative(rs[1..], rs[r].pool);
    if r > 0 {
      TotalOutPositive(rs[1..], r - 1);
    }
  }

  lemma {:induction false} TotalOutNonNegative(rs: seq<Request>, id: nat)
    requires forall k :: 0 <= k < |rs| ==> RequestOk(rs[k])
    ensures TotalOut(rs, id) >= 0
  {
    if rs != [] {
      TotalOutNonNegative(rs[1..], id);
    }
  }

  /** One request and its pool's count move together. */
  lemma RequestStep(s: State, s': State, r: nat, q: Request, e: Entry)
    requires InRange(s) && RequestsOk(s) && r < |s.requests| && RequestOk(q) && q.pool == s.requests[r].pool
    requires s'.requests == s.requests[r := q] && s'.pools == Update(s.pools, q.pool, e)
    requires e.borrowed == s.pools.entries[q.pool].borrowed + Out(q) - Out(s.requests[r])
    ensures RequestsOk(s')
  {
    forall id | 0 <= id < |s'.pools.entries| ensures s'.pools.entries[id].borrowed == TotalOut(s'.requests, id) {
      TotalOutUpdate(s.requests, r, q, id);
    }
  }

  lemma RequestsFrame(s: State, s': State)
    requires InRange(s) && RequestsOk(s) && s'.requests == s.requests && Frame(s.pools, s'.pools)
    ensures RequestsOk(s')
  {
    forall id | 0 <= id < |s'.pools.entries| ensures s'.pools.entries[id].borrowed == TotalOut(s'.requests, id) {
      if id >= |s.pools.entries| {
        TotalOutAbsent(s.requests, id);
      } else {
        assert Agree(s.pools.entries[id], s'.pools.entries[id]);
      }
    }
  }

  /** A connection that is out is counted by its pool. */
  lemma OutIsBorrowed(s: State, r: nat)
    requires InRange(s) && RequestsOk(s) && r < |s.requests| && Out(s.requests[r]) > 0
    ensures s.pools.entries[s.requests[r].pool].borrowed > 0
  {
    TotalOutPositive(s.requests, r);
  }

  // ---------------------------------------------------------------- pools

  ghost predicate PoolsOk(env: Env, s: State) {
    Lifecycle(s.pools, env.decrypt) && |s.pools.cache| <= env.maxPools
  }

  function TailOf(env: Env, s: State, l: nat, now: int): (Pools, TailOutcome)
    requires InRange(s) && Enabled(s, ResumeTail(l, now))
  {
    var q := s.searches[l];
    Tail(s.pools, q.key, q.phase.snapshot, env.idleMs, env.maxPools, now)
  }

  /** The organization a step hands a pool to, if it does. */
  function ServedKey(env: Env, s: State, step: Step): Option<Key>
    requires InRange(s) && Enabled(s, step)
  {
    match step
    case ResumeTail(l, now) => if TailOf(env, s, l, now).1.Pool? then Some(s.searches[l].key) else None
    case _ => None
  }

  ghost predicate Reranks(env: Env, s: State, step: Step, rank: Key -> int, rank': Key -> int)
    requires InRange(s) && Enabled(s, step)
  {
    var served := ServedKey(env, s, step);
    if served.Some? then Promotes(s.pools.cache, rank, rank', served.value)
    else forall key :: rank'(key) == rank(key)
  }

  /** A pool that is handed out is current and stands for the snapshot the lookup resolved. */
  ghost predicate HandsOut(s: State, l: nat, pools: Pools, id: nat)
    requires l < |s.searches|
  {
    var q := s.searches[l];
    && q.phase.Resolved? && q.phase.snapshot.Some? && q.phase.snapshot.value.value.Some?
    && q.phase.snapshot.value.generation == Gen(s, q.key)
    && pools.generations == s.pools.generations
    && id < |pools.entries| && Serves(pools.entries[id], q.phase.snapshot.value)
    && pools.cache != [] && pools.cache[|pools.cache| - 1] == Slot(q.key, id)
  }

  lemma TailChecksOut(env: Env, s: State, l: nat, now: int)
    requires InRange(s) && Enabled(s, ResumeTail(l, now)) && TailOf(env, s, l, now).1.Pool?
    ensures var q := s.searches[l];
            && q.phase.Resolved? && q.phase.snapshot.Some? && q.phase.snapshot.value.value.Some?
            && q.phase.snapshot.value.generation == Gen(s, q.key)
            && var (pools, id) := Checkout(s.pools, q.key, q.phase.snapshot.value, env.idleMs, env.maxPools, now);
               TailOf(env, s, l, now) == (pools, Pool(id))
  {
    hide Checkout, DropStale;
  }

  /** The three ways in which getTenantPool resumes. */
  lemma TailCases(env: Env, s: State, l: nat, now: int)
    requires InRange(s) && Enabled(s, ResumeTail(l, now))
    ensures var ((pools, outcome), s') := (TailOf(env, s, l, now), TailStep(env, s, l, now));
            match outcome
            case Shared => s'.searches[l].phase == Returned(None) && s'.pools == DropStale(s.pools, s.searches[l].key)
            case Again => !s'.searches[l].phase.Returned? && s'.pools == s.pools
            case Pool(id) => s'.searches[l].phase == Returned(Some(id)) && s'.pools == pools
  {
    hide Checkout, DropStale, MemoFor;
  }

  lemma TailServes(env: Env, s: State, l: nat, now: int, rank: Key -> int, rank': Key -> int)
    requires GoodEnv(env) && InRange(s) && Enabled(s, ResumeTail(l, now))
    requires LookupsOk(env, s) && PoolsOk(env, s) && OrderedBy(s.pools.cache, rank)
    requires TailOf(env, s, l, now).1.Pool? && Promotes(s.pools.cache, rank, rank', s.searches[l].key)
    ensures var (pools, outcome) := TailOf(env, s, l, now);
            && Lifecycle(pools, env.decrypt) && |pools.cache| <= env.maxPools
            && Frame(s.pools, pools) && OrderedBy(pools.cache, rank')
            && HandsOut(s, l, pools, outcome.id)
  {
    var q := s.searches[l];
    TailChecksOut(env, s, l, now);
    assert SearchOk(env, s, q);
    hide TailOf, Lifecycle, Frame, Checkout, OrderedBy, Promotes, Serves, GoodSnapshot, LookupsOk, InRange;
    CheckoutKeeps(s.pools, q.key, q.phase.snapshot.value, env.idleMs, env.maxPools, now, env.decrypt, rank, rank');
  }

  lemma TailDrops(env: Env, s: State, l: nat, now: int, rank: Key -> int)
    requires InRange(s) && Enabled(s, ResumeTail(l, now)) && PoolsOk(env, s) && OrderedBy(s.pools.cache, rank)
    requires TailOf(env, s, l, now).1.Shared?
    ensures var pools := TailOf(env, s, l, now).0;
            && Lifecycle(pools, env.decrypt) && |pools.cache| <= env.maxPools
            && Frame(s.pools, pools) && OrderedBy(pools.cache, rank)
  {
    var key := s.searches[l].key;
    DropStaleKeeps(s.pools, key, env.decrypt);
    EvictionsFrame(s.pools, DropStale(s.pools, key));
    WithoutKeepsOrder(s.pools.cache, key, rank);
    hide Lifecycle, Frame, OrderedBy;
  }

  lemma TailPools(env: Env, s: State, l: nat, now: int, rank: Key -> int, rank': Key -> int)
    requires GoodEnv(env) && InRange(s) && Enabled(s, ResumeTail(l, now))
    requires LookupsOk(env, s) && PoolsOk(env, s) && OrderedBy(s.pools.cache, rank)
    requires Reranks(env, s, ResumeTail(l, now), rank, rank')
    ensures var s' := TailStep(env, s, l, now);
            PoolsOk(env, s') && Frame(s.pools, s'.pools) && OrderedBy(s'.pools.cache, rank')
  {
    var outcome := TailOf(env, s, l, now).1;
    hide Tail, Lifecycle, Start;
    if outcome.Pool? {
      TailServes(env, s, l, now, rank, rank');
    } else if outcome.Shared? {
      TailDrops(env, s, l, now, rank);
    }
  }

  lemma InvalidatePools(env: Env, s: State, key: Key, rank: Key -> int)
    requires InRange(s) && PoolsOk(env, s) && OrderedBy(s.pools.cache, rank)
    ensures var s' := Apply(env, s, InvalidateOrg(key));
            PoolsOk(env, s') && Frame(s.pools, s'.pools) && OrderedBy(s'.pools.cache, rank)
  {
    InvalidateKeeps(s.pools, key, env.decrypt);
    EvictionsFrame(Bump(s.pools, key), Invalidate(s.pools, key));
    WithoutKeepsOrder(s.pools.cache, key, rank);
  }

  ghost predicate StateOk(env: Env, s: State) {
    LookupsOk(env, s) && RequestsOk(s) && PoolsOk(env, s)
  }

  lemma GrantEvent(env: Env, s: State, r: nat, now: int)
    requires InRange(s) && Enabled(s, Grant(r, now)) && RequestsOk(s) && PoolsOk(env, s)
    ensures var s' := Apply(env, s, Grant(r, now));
            PoolsOk(env, s') && RequestsOk(s') && s'.pools.cache == s.pools.cache
  {
    var s' := Apply(env, s, Grant(r, now));
    var q := s'.requests[r];
    assert RequestOk(s.requests[r]);
    AcquireKeeps(s.pools, q.pool, now, env.decrypt);
    hide Lifecycle;
    RequestStep(s, s', r, q, AcquireEntry(s.pools.entries[q.pool], now));
  }

  /** A connection goes back: the caller is done with it, or had given up before it came. */
  lemma ReturnEvent(env: Env, s: State, step: Step)
    requires InRange(s) && Enabled(s, step) && RequestsOk(s) && PoolsOk(env, s)
    requires step.Finish? || (step.DeliverGrant? && s.requests[step.r].settled)
    ensures var s' := Apply(env, s, step);
            PoolsOk(env, s') && RequestsOk(s') && s'.pools.cache == s.pools.cache
  {
    var s', r := Apply(env, s, step), step.r;
    var q := s'.requests[r];
    assert RequestOk(s.requests[r]);
    OutIsBorrowed(s, r);
    ReleaseKeeps(s.pools, q.pool, step.now, env.decrypt);
    hide Lifecycle, TotalOut;
    RequestStep(s, s', r, q, ReleaseEntry(s.pools.entries[q.pool], step.now));
  }

  /** Only the request changes. */
  lemma AnswerEvent(env: Env, s: State, step: Step)
    requires InRange(s) && Enabled(s, step) && RequestsOk(s) && PoolsOk(env, s)
    requires step.Refuse? || step.Timeout? || step.DeliverFailure? ||
             (step.DeliverGrant? && !s.requests[step.r].settled)
    ensures var s' := Apply(env, s, step);
            PoolsOk(env, s') && RequestsOk(s') && s'.pools.cache == s.pools.cache
  {
    var s', r := Apply(env, s, step), step.r;
    var q := s'.requests[r];
    assert RequestOk(s.requests[r]);
    assert Update(s.pools, q.pool, s.pools.entries[q.pool]) == s.pools;
    hide Lifecycle, TotalOut;
    RequestStep(s, s', r, q, s.pools.entries[q.pool]);
  }

  lemma StateStep(env: Env, s: State, step: Step, rank: Key -> int, rank': Key -> int)
    requires GoodEnv(env) && InRange(s) && Enabled(s, step) && StateOk(env, s)
    requires OrderedBy(s.pools.cache, rank) && Reranks(env, s, step, rank, rank')
    ensures StateOk(env, Apply(env, s, step)) && OrderedBy(Apply(env, s, step).pools.cache, rank')
    ensures step.ResumeTail? || step.InvalidateOrg? ==> Frame(s.pools, Apply(env, s, step).pools)
  {
    var s' := Apply(env, s, step);
    LookupsStep(env, s, step);
    match step
    case ResumeTail(l, now) =>
      TailPools(env, s, l, now, rank, rank');
      RequestsFrame(s, s');
    case InvalidateOrg(key) =>
      InvalidatePools(env, s, key, rank);
      RequestsFrame(s, s');
    case RunEnd(id) =>
      RunEndKeeps(s.pools, id, env.decrypt);
    case BeginRequest(id, timed) =>
      var q := Request(id, timed, false, Waiting, [], false, 0, 0);
      forall k | 0 <= k < |s'.pools.entries| ensures s'.pools.entries[k].borrowed == TotalOut(s'.requests, k) {
        TotalOutSnoc(s.requests, q, k);
      }
    case Grant(r, now) => GrantEvent(env, s, r, now);
    case Finish(_, _) => ReturnEvent(env, s, step);
    case DeliverGrant(r, _) =>
      if s.requests[r].settled { ReturnEvent(env, s, step); } else { AnswerEvent(env, s, step); }
    case Refuse(_) => AnswerEvent(env, s, step);
    case Timeout(_) => AnswerEvent(env, s, step);
    case DeliverFailure(_) => AnswerEvent(env, s, step);
    case _ =>
  }
}
