/**
 The version-tagged response cache as a state machine: readers, slow stores and
 mutations interleave at every await of the middleware and of bustCache.
 */
module HttpCache {
  import opened Wrappers
  import opened QueryKey
  import Decimal

  // Organization ids are numbers or "anon" and resources are literals: no colon.
  type Name = s: string | ':' !in s

  datatype Pair = Pair(org: Name, resource: Name)

  function VersionKey(p: Pair): string {
    "cache:ver:" + p.org + ":" + p.resource
  }

  function ResponseKey(p: Pair, version: nat, q: Query): string {
    "cache:GET:" + p.org + ":" + p.resource + ":v" + Decimal.ToString(version) + ":" + QueryString(q)
  }

  predicate IsVersionKey(k: string) {
    |k| >= 10 && k[..10] == "cache:ver:"
  }

  /** Where a response came from: `stamp` is the number of commits its handler saw. */
  datatype Body = Body(pair: Pair, query: Query, version: nat, stamp: nat)

  datatype Value = Version(n: nat) | Response(body: Body)

  datatype BustPhase = Committed | Got(version: nat) | Done(wrote: nat) | Abandoned

  /** One mutation, the `commit`-th overall, and its bustCache call. */
  datatype Bust = Bust(pair: Pair, commit: nat, phase: BustPhase)

  datatype ReadPhase =
    | Begun
    | Keyed(version: nat)      // the version is read and the key built
    | Missed(version: nat)
    | Computed(body: Body)     // the handler has answered; the store has not been reached yet
    | Served(answer: Body, hit: bool)
    | Bypassed

  datatype Read = Read(pair: Pair, query: Query, phase: ReadPhase)

  datatype State = State(commits: nat, store: map<string, Value>, busts: seq<Bust>, readers: seq<Read>)

  const INIT := State(0, map[], [], [])

  /** getVersion. */
  function CurrentVersion(store: map<string, Value>, p: Pair): nat {
    var k := VersionKey(p);
    if k in store && store[k].Version? then store[k].n else 0
  }

  function Cached(store: map<string, Value>, k: string): Option<Body> {
    if k in store && store[k].Response? then Some(store[k].body) else None
  }

  datatype Step =
    | Mutate(pair: Pair)
    | BustRead(b: nat)
    | BustWrite(b: nat)
    | LoseBustRead(b: nat)                   // the store answers a failed get with null: version 0
    | BustFail(b: nat)                       // an error, or a set that the store dropped
    | BeginRead(pair: Pair, query: Query)
    | ReadVersion(r: nat)
    | LoseVersion(r: nat)                    // the same for a reader: version 0
    | CacheGet(r: nat)
    | LoseEntry(r: nat)                      // the same for an entry: a miss
    | Bypass(r: nat)                         // a failed cache call, or a response outside 200-299
    | Handle(r: nat)
    | Store(r: nat)
    | StoreFail(r: nat)
    | Drop(key: string)                      // expiry or eviction

  predicate Enabled(s: State, step: Step) {
    match step
    case Mutate(_) => true
    case BustRead(b) => b < |s.busts| && s.busts[b].phase.Committed?
    case LoseBustRead(b) => b < |s.busts| && s.busts[b].phase.Committed?
    case BustWrite(b) => b < |s.busts| && s.busts[b].phase.Got?
    case BustFail(b) => b < |s.busts| && (s.busts[b].phase.Committed? || s.busts[b].phase.Got?)
    case BeginRead(_, q) => DistinctKeys(q)
    case ReadVersion(r) => r < |s.readers| && s.readers[r].phase.Begun?
    case LoseVersion(r) => r < |s.readers| && s.readers[r].phase.Begun?
    case CacheGet(r) => r < |s.readers| && s.readers[r].phase.Keyed?
    case LoseEntry(r) => r < |s.readers| && s.readers[r].phase.Keyed?
    case Bypass(r) =>
      r < |s.readers| && (s.readers[r].phase.Begun? || s.readers[r].phase.Keyed? || s.readers[r].phase.Missed?)
    case Handle(r) => r < |s.readers| && s.readers[r].phase.Missed?
    case Store(r) => r < |s.readers| && s.readers[r].phase.Computed?
    case StoreFail(r) => r < |s.readers| && s.readers[r].phase.Computed?
    case Drop(_) => true
  }

  function SetBust(s: State, b: nat, phase: BustPhase): State
    requires b < |s.busts|
  {
    s.(busts := s.busts[b := s.busts[b].(phase := phase)])
  }

  function SetRead(s: State, r: nat, phase: ReadPhase): State
    requires r < |s.readers|
  {
    s.(readers := s.readers[r := s.readers[r].(phase := phase)])
  }

  function Apply(s: State, step: Step): State
    requires Enabled(s, step)
  {
    match step
    case Mutate(p) => s.(commits := s.commits + 1, busts := s.busts + [Bust(p, s.commits + 1, Committed)])
    case BustRead(b) => SetBust(s, b, Got(CurrentVersion(s.store, s.busts[b].pair)))
    case LoseBustRead(b) => SetBust(s, b, Got(0))
    case BustWrite(b) =>
      var bust := s.busts[b];
      var wrote := bust.phase.version + 1;
      SetBust(s, b, Done(wrote)).(store := s.store[VersionKey(bust.pair) := Version(wrote)])
    case BustFail(b) => SetBust(s, b, Abandoned)
    case BeginRead(p, q) => s.(readers := s.readers + [Read(p, q, Begun)])
    case ReadVersion(r) => SetRead(s, r, Keyed(CurrentVersion(s.store, s.readers[r].pair)))
    case LoseVersion(r) => SetRead(s, r, Keyed(0))
    case LoseEntry(r) => SetRead(s, r, Missed(s.readers[r].phase.version))
    case CacheGet(r) =>
      var read := s.readers[r];
      var found := Cached(s.store, ResponseKey(read.pair, read.phase.version, read.query));
      SetRead(s, r, if found.Some? then Served(found.value, true) else Missed(read.phase.version))
    case Bypass(r) => SetRead(s, r, Bypassed)
    case Handle(r) =>
      var read := s.readers[r];
      SetRead(s, r, Computed(Body(read.pair, read.query, read.phase.version, s.commits)))
    case Store(r) =>
      var read := s.readers[r];
      var body := read.phase.body;
      var key := ResponseKey(read.pair, body.version, read.query);
      SetRead(s, r, Served(body, false)).(store := s.store[key := Response(body)])
    case StoreFail(r) => SetRead(s, r, Served(s.readers[r].phase.body, false))
    case Drop(k) => s.(store := s.store - {k})
  }

  datatype Run = Run(states: seq<State>, steps: seq<Step>)

  ghost predicate IsRun(run: Run) {
    && |run.states| == |run.steps| + 1
    && run.states[0] == INIT
    && forall i :: 0 <= i < |run.steps| ==>
         Enabled(run.states[i], run.steps[i]) && run.states[i + 1] == Apply(run.states[i], run.steps[i])
  }

  /**
   What coherence asks of one step, for one pair: its counter is never set back, neither by an expiry nor by a
   delayed bust, and no bust loses its read of it. Other pairs may do as they like.
   */
  predicate CalmFor(p: Pair, s: State, step: Step) {
    && (step == Drop(VersionKey(p)) ==> CurrentVersion(s.store, p) == 0)
    && (step.BustWrite? && Enabled(s, step) && s.busts[step.b].pair == p ==>
          s.busts[step.b].phase.version + 1 >= CurrentVersion(s.store, p))
    && (step.LoseBustRead? && Enabled(s, step) && s.busts[step.b].pair == p ==> CurrentVersion(s.store, p) == 0)
  }

  ghost predicate CalmUpTo(p: Pair, run: Run, n: nat)
    requires |run.states| == |run.steps| + 1 && n <= |run.steps|
  {
    forall i :: 0 <= i < n ==> CalmFor(p, run.states[i], run.steps[i])
  }
}
