/** What a served response is guaranteed to contain, and why each assumption is needed. */
module HttpCacheTheorems {
  import opened Wrappers
  import opened QueryKey
  import opened HttpCache
  import opened HttpCacheCoherence

  /** The version a read has worked with since it read one. */
  function VersionSeen(phase: ReadPhase): Option<nat> {
    match phase
    case Keyed(v) => Some(v)
    case Missed(v) => Some(v)
    case Computed(b) => Some(b.version)
    case Served(b, _) => Some(b.version)
    case _ => None
  }

  /** A read keeps its pair, its parameters and, once it has read one, its version. */
  lemma ReaderStep(s: State, step: Step, r: nat)
    requires Enabled(s, step) && Matched(s) && r < |s.readers|
    ensures var s' := Apply(s, step);
            && r < |s'.readers| && s'.readers[r].pair == s.readers[r].pair && s'.readers[r].query == s.readers[r].query
            && (s.readers[r].phase.Bypassed? ==> s'.readers[r].phase.Bypassed?)
            && (VersionSeen(s.readers[r].phase).Some? ==>
                  s'.readers[r].phase.Bypassed? || VersionSeen(s'.readers[r].phase) == VersionSeen(s.readers[r].phase))
  {
    if step == CacheGet(r) { HitMatches(s, r); }
    hide ResponseKey, Matched, CurrentVersion, VersionKey;
  }

  /** Everything of the pair at this version was computed no earlier than `commit`. */
  ghost predicate NoneOlder(s: State, p: Pair, version: nat, commit: nat) {
    && commit <= s.commits
    && (forall k :: k in s.store && s.store[k].Response? && s.store[k].body.pair == p
                    && s.store[k].body.version == version ==>
          commit <= s.store[k].body.stamp)
    && (forall r :: 0 <= r < |s.readers| ==> ReadNotOlder(s.readers[r], p, version, commit))
  }

  ghost predicate ReadNotOlder(r: Read, p: Pair, version: nat, commit: nat) {
    match r.phase
    case Computed(b) => b.pair == p && b.version == version ==> commit <= b.stamp
    case Served(b, _) => b.pair == p && b.version == version ==> commit <= b.stamp
    case _ => true
  }

  /** Once that holds it holds for good, calm or not. */
  lemma NoneOlderStep(s: State, step: Step, p: Pair, version: nat, commit: nat)
    requires Enabled(s, step) && NoneOlder(s, p, version, commit)
    ensures NoneOlder(Apply(s, step), p, version, commit)
  {
    hide ResponseKey, VersionKey;
    var s' := Apply(s, step);
    forall r | 0 <= r < |s'.readers| ensures ReadNotOlder(s'.readers[r], p, version, commit) {
      if r < |s.readers| { assert ReadNotOlder(s.readers[r], p, version, commit); }
    }
    if step.Store? { assert ReadNotOlder(s.readers[step.r], p, version, commit); }
  }

  /** In a coherent state nothing at the current version is older than a finished bust. */
  lemma NoneOlderNow(p: Pair, s: State, b: nat)
    requires Coherent(p, s) && b < |s.busts| && s.busts[b].pair == p && s.busts[b].phase.Done?
    ensures NoneOlder(s, p, CurrentVersion(s.store, p), s.busts[b].commit)
  {
    var bust := s.busts[b];
    assert BustOk(s, bust);
    forall r | 0 <= r < |s.readers| ensures ReadNotOlder(s.readers[r], p, CurrentVersion(s.store, p), bust.commit) {
      assert ReadMatches(s, s.readers[r]) && (s.readers[r].pair == p ==> ReadOk(s, s.readers[r]));
    }
    hide Matched, CurrentVersion;
  }

  /** From a read's version to its answer: the version it works with, and nothing older at that version. */
  ghost predicate Follows(s: State, s': State, r: nat, commit: nat) {
    && r < |s.readers| && r < |s'.readers|
    && s'.readers[r].pair == s.readers[r].pair && s'.readers[r].query == s.readers[r].query
    && (s'.readers[r].phase.Bypassed? ||
        VersionSeen(s'.readers[r].phase) == Some(CurrentVersion(s.store, s.readers[r].pair)))
    && NoneOlder(s', s.readers[r].pair, CurrentVersion(s.store, s.readers[r].pair), commit)
  }

  lemma {:induction false} FollowsOn(run: Run, a: nat, n: nat, r: nat, b: nat)
    requires IsRun(run) && a < n <= |run.steps| && run.steps[a] == ReadVersion(r)
    requires var p := run.states[a].readers[r].pair;
             && CalmUpTo(p, run, a)
             && b < |run.states[a].busts| && run.states[a].busts[b].pair == p && run.states[a].busts[b].phase.Done?
    ensures Follows(run.states[a], run.states[n], r, run.states[a].busts[b].commit)
    decreases n
  {
    var (s, p) := (run.states[a], run.states[a].readers[r].pair);
    if a == n - 1 {
      RunCoherent(p, run, a);
      NoneOlderNow(p, s, b);
      hide Coherent, CalmUpTo, NoneOlder, CurrentVersion;
      NoneOlderStep(s, run.steps[a], p, CurrentVersion(s.store, p), s.busts[b].commit);
    } else {
      FollowsOn(run, a, n - 1, r, b);
      RunMatched(run, n - 1);
      hide Matched, CalmUpTo, NoneOlder, CurrentVersion, Apply;
      ReaderStep(run.states[n - 1], run.steps[n - 1], r);
      NoneOlderStep(run.states[n - 1], run.steps[n - 1], p, CurrentVersion(s.store, p), s.busts[b].commit);
    }
  }

  /**
   Whatever a read serves, from the cache or from its handler, was computed from a database state with every
   mutation of its pair whose bust had finished when it read the version. Only its own pair has to be calm, and
   only until then: nothing that happens later, and nothing other pairs do, matters.
   */
  lemma ServedCoversBusts(run: Run, a: nat, n: nat, r: nat, b: nat)
    requires IsRun(run) && a < n <= |run.steps| && run.steps[a] == ReadVersion(r)
    requires CalmUpTo(run.states[a].readers[r].pair, run, a)
    requires r < |run.states[n].readers| && run.states[n].readers[r].phase.Served?
    requires b < |run.states[a].busts| && run.states[a].busts[b].pair == run.states[a].readers[r].pair
    requires run.states[a].busts[b].phase.Done?
    ensures run.states[a].busts[b].commit <= run.states[n].readers[r].phase.answer.stamp <= run.states[n].commits
  {
    FollowsOn(run, a, n, r, b);
    RunMatched(run, n);
    var s' := run.states[n];
    assert ReadMatches(s', s'.readers[r]);
    assert ReadNotOlder(s'.readers[r], run.states[a].readers[r].pair,
                        CurrentVersion(run.states[a].store, run.states[a].readers[r].pair),
                        run.states[a].busts[b].commit);
    hide Matched, CalmUpTo, CurrentVersion, IsRun;
  }

  /**
   In every run, calm or not, an answer is one to the read's own organization, resource and parameters: a stale
   response is never somebody else's.
   */
  lemma ServedParametersMatch(run: Run, n: nat, r: nat, x: (Text, Text))
    requires IsRun(run) && n <= |run.steps|
    requires r < |run.states[n].readers| && run.states[n].readers[r].phase.Served?
    ensures var read := run.states[n].readers[r];
            && read.phase.answer.pair == read.pair
            && (x in read.phase.answer.query <==> x in read.query)
  {
    RunMatched(run, n);
    var read := run.states[n].readers[r];
    assert ReadMatches(run.states[n], read);
    hide Matched, QueryString, DistinctKeys, IsRun;
    QueryStringIdentifies(read.phase.answer.query, read.query);
  }

  // ---------------------------------------------------------------- the cache is of use

  lemma {:induction false} StoredStays(run: Run, a: nat, n: nat, r: nat, key: string)
    requires IsRun(run) && a < n <= |run.steps| && run.steps[a] == Store(r)
    requires var read := run.states[a].readers[r]; key == ResponseKey(read.pair, read.phase.body.version, read.query)
    requires forall j :: a < j < n ==> run.steps[j] != Drop(key)
    ensures Cached(run.states[n].store, key).Some?
    decreases n
  {
    var read := run.states[a].readers[r];
    KeyKinds(read.pair, read.phase.body.version, read.query);
    hide ResponseKey, VersionKey, IsVersionKey;
    if a < n - 1 {
      StoredStays(run, a, n - 1, r, key);
      var (s, step) := (run.states[n - 1], run.steps[n - 1]);
      if step.BustWrite? { KeyKinds(s.busts[step.b].pair, 0, []); }
    }
  }

  /** A stored response answers every request of the same parameters that reads the same version. */
  lemma RepeatIsAHit(run: Run, a: nat, n: nat, r: nat, again: nat)
    requires IsRun(run) && a < n < |run.steps| && run.steps[a] == Store(r) && run.steps[n] == CacheGet(again)
    requires var (first, second) := (run.states[a].readers[r], run.states[n].readers[again]);
             && second.pair == first.pair && second.phase.version == first.phase.body.version
             && (forall x :: x in first.query <==> x in second.query)
    requires var read := run.states[a].readers[r];
             forall j :: a < j < n ==> run.steps[j] != Drop(ResponseKey(read.pair, read.phase.body.version, read.query))
    ensures run.states[n + 1].readers[again].phase.Served? && run.states[n + 1].readers[again].phase.hit
  {
    var (first, second) := (run.states[a].readers[r], run.states[n].readers[again]);
    RunMatched(run, a);
    RunMatched(run, n);
    assert ReadMatches(run.states[a], first) && ReadMatches(run.states[n], second);
    QueryStringIdentifies(first.query, second.query);
    StoredStays(run, a, n, r, ResponseKey(first.pair, first.phase.body.version, first.query));
  }

  /** A lost read of the counter or of an entry is a read of an empty store: version 0, and a miss. */
  lemma LostReadsAreMisses(s: State, r: nat, b: nat)
    ensures Enabled(s, CacheGet(r)) ==>
              Apply(s, LoseEntry(r)) == Apply(s.(store := map[]), CacheGet(r)).(store := s.store)
    ensures Enabled(s, ReadVersion(r)) ==>
              Apply(s, LoseVersion(r)) == Apply(s.(store := map[]), ReadVersion(r)).(store := s.store)
    ensures Enabled(s, BustRead(b)) ==>
              Apply(s, LoseBustRead(b)) == Apply(s.(store := map[]), BustRead(b)).(store := s.store)
  {
    hide ResponseKey, VersionKey;
  }

  // ---------------------------------------------------------------- where coherence ends

  ghost function Last(run: Run): State
    requires run.states != []
  {
    run.states[|run.states| - 1]
  }

  /** A pair to watch from one step of a run on, with the steps excused from being calm for it. */
  datatype Watch = Watch(pair: Pair, start: nat, first: nat, last: nat)

  predicate Excused(w: Watch, i: nat) {
    w.first <= i < w.last
  }

  ghost predicate Calm(run: Run, w: Watch)
    requires IsRun(run)
  {
    forall i: nat :: w.start <= i < |run.steps| && !Excused(w, i) ==> CalmFor(w.pair, run.states[i], run.steps[i])
  }

  ghost predicate Extends(r: Run, run: Run) {
    run.steps <= r.steps && run.states <= r.states
  }

  lemma NothingToExcuse(run: Run, w: Watch)
    requires IsRun(run) && w.start >= |run.steps|
    ensures Calm(run, w)
  {
  }

  lemma ExtendsOn(a: Run, b: Run, c: Run)
    requires Extends(b, a) && Extends(c, b)
    ensures Extends(c, a) && |b.steps| <= |c.steps|
  {
  }

  lemma SameStep(b: Run, c: Run, i: nat)
    requires Extends(c, b) && i < |b.steps|
    ensures i < |c.steps| && c.steps[i] == b.steps[i]
  {
  }

  lemma ThenRuns(run: Run, step: Step, w: Watch)
    requires IsRun(run) && Enabled(Last(run), step)
    ensures var r := Run(run.states + [Apply(Last(run), step)], run.steps + [step]);
            && IsRun(r)
            && (Calm(run, w) && (Excused(w, |run.steps|) || CalmFor(w.pair, Last(run), step)) ==> Calm(r, w))
  {
    hide CalmFor, Apply, Enabled, Excused;
  }

  ghost function Then(run: Run, step: Step, w: Watch): (r: Run)
    requires IsRun(run) && Enabled(Last(run), step)
    ensures IsRun(r) && Last(r) == Apply(Last(run), step)
    ensures r.steps == run.steps + [step] && r.states == run.states + [Last(r)] && Extends(r, run)
    ensures Calm(run, w) && (Excused(w, |run.steps|) || CalmFor(w.pair, Last(run), step)) ==> Calm(r, w)
  {
    ThenRuns(run, step, w);
    hide Calm, IsRun, Apply, Enabled, CalmFor;
    Run(run.states + [Apply(Last(run), step)], run.steps + [step])
  }

  /** Read `r` of the run serves, although a bust of its pair had finished when it read the version, an older state. */
  ghost predicate ServesStale(run: Run, r: nat)
    requires IsRun(run)
  {
    exists a, b ::
      && 0 <= a < |run.steps| && (run.steps[a] == ReadVersion(r) || run.steps[a] == LoseVersion(r))
      && 0 <= b < |run.states[a].busts| && run.states[a].busts[b].phase.Done?
      && run.states[a].busts[b].pair == run.states[a].readers[r].pair
      && r < |Last(run).readers| && Last(run).readers[r].phase.Served?
      && Last(run).readers[r].phase.answer.stamp < run.states[a].busts[b].commit
  }

  /** A new read that has read its version, or lost it. */
  lemma Begin(run: Run, p: Pair, q: Query, v: nat, lost: bool, w: Watch) returns (r: Run)
    requires IsRun(run) && DistinctKeys(q) && v == if lost then 0 else CurrentVersion(Last(run).store, p)
    ensures var (s, k, n) := (Last(run), |Last(run).readers|, |run.steps|);
            && IsRun(r) && Extends(r, run) && Last(r) == s.(readers := s.readers + [Read(p, q, Keyed(v))])
            && |r.steps| == n + 2 && r.steps[n + 1] == (if lost then LoseVersion(k) else ReadVersion(k))
            && r.states[n + 1] == s.(readers := s.readers + [Read(p, q, Begun)])
            && (Calm(run, w) ==> Calm(r, w))
  {
    var s := Last(run);
    hide CurrentVersion, Then, Calm, IsRun, DistinctKeys;
    r := Then(run, BeginRead(p, q), w);
    var before := Last(r);
    r := Then(r, if lost then LoseVersion(|s.readers|) else ReadVersion(|s.readers|), w);
    assert r.states[|run.steps| + 1] == before by { Lengths(run); }
    assert Last(r).readers == s.readers + [Read(p, q, Keyed(v))];
  }

  lemma Lengths(run: Run)
    requires IsRun(run)
    ensures |run.states| == |run.steps| + 1
  {
  }

  /** Any read that finds an entry older than a finished bust serves it. */
  lemma HitServesStale(run: Run, p: Pair, q: Query, body: Body, lost: bool, b: nat, w: Watch) returns (r: Run)
    requires IsRun(run) && DistinctKeys(q) && body.version == if lost then 0 else CurrentVersion(Last(run).store, p)
    requires Cached(Last(run).store, ResponseKey(p, body.version, q)) == Some(body)
    requires b < |Last(run).busts| && Last(run).busts[b].pair == p && Last(run).busts[b].phase.Done?
    requires body.stamp < Last(run).busts[b].commit
    ensures IsRun(r) && Extends(r, run) && ServesStale(r, |Last(run).readers|) && (Calm(run, w) ==> Calm(r, w))
  {
    var (s, k, n) := (Last(run), |Last(run).readers|, |run.steps|);
    var begun := Begin(run, p, q, body.version, lost, w);
    Lengths(run);
    Lengths(begun);
    hide ResponseKey, CurrentVersion, Then, Calm, IsRun, DistinctKeys;
    r := Then(begun, CacheGet(k), w);
    assert r.steps[n + 1] == begun.steps[n + 1] && r.states[n + 1] == begun.states[n + 1];
    assert r.states[n + 1].busts[b] == s.busts[b] && r.states[n + 1].readers[k] == Read(p, q, Begun);
    assert Last(r).readers[k].phase == Served(body, true);
  }

  /** A mutation whose bust has read the version, or lost it, and not yet written. */
  lemma SlowBust(run: Run, p: Pair, v: nat, lost: bool, w: Watch) returns (r: Run)
    requires IsRun(run) && v == if lost then 0 else CurrentVersion(Last(run).store, p)
    ensures var (s, n) := (Last(run), |run.steps|);
            && IsRun(r) && Extends(r, run) && |r.steps| == n + 2
            && (lost ==> r.steps[n + 1] == LoseBustRead(|s.busts|))
            && Last(r) == s.(commits := s.commits + 1, busts := s.busts + [Bust(p, s.commits + 1, Got(v))])
    ensures Calm(run, w) && (!lost || Excused(w, |run.steps| + 1)) ==> Calm(r, w)
  {
    var s := Last(run);
    var b := |s.busts|;
    hide CurrentVersion, Then, IsRun, Calm, Excused;
    r := Then(run, Mutate(p), w);
    r := Then(r, if lost then LoseBustRead(b) else BustRead(b), w);
    assert Last(r).busts == s.busts + [Bust(p, s.commits + 1, Got(v))];
  }

  /** What the youngest bust writes. */
  lemma YoungestWrites(s: State, bs: seq<Bust>, p: Pair, c: nat, v: nat)
    requires s.busts == bs + [Bust(p, c, Got(v))]
    ensures Enabled(s, BustWrite(|bs|)) && (CurrentVersion(s.store, p) <= v + 1 ==> CalmFor(p, s, BustWrite(|bs|)))
    ensures Apply(s, BustWrite(|bs|))
            == State(s.commits, s.store[VersionKey(p) := Version(v + 1)], bs + [Bust(p, c, Done(v + 1))], s.readers)
  {
    hide CurrentVersion, VersionKey;
    assert (bs + [Bust(p, c, Got(v))])[|bs| := Bust(p, c, Done(v + 1))] == bs + [Bust(p, c, Done(v + 1))];
  }

  /** One mutation whose bust runs at once; its version is read, or lost. */
  lemma MutateAndBust(run: Run, p: Pair, lost: bool, w: Watch) returns (r: Run)
    requires IsRun(run) && w.pair == p
    ensures var s := Last(run);
            var wrote := (if lost then 0 else CurrentVersion(s.store, p)) + 1;
            && IsRun(r) && Extends(r, run) && |r.steps| == |run.steps| + 3
            && (lost ==> r.steps[|run.steps| + 1] == LoseBustRead(|s.busts|))
            && r.steps[|run.steps| + 2] == BustWrite(|s.busts|)
            && Last(r) == State(s.commits + 1, s.store[VersionKey(p) := Version(wrote)],
                                s.busts + [Bust(p, s.commits + 1, Done(wrote))], s.readers)
    ensures Calm(run, w) && (!lost || (Excused(w, |run.steps| + 1) && Excused(w, |run.steps| + 2))) ==> Calm(r, w)
  {
    var s := Last(run);
    var v := if lost then 0 else CurrentVersion(s.store, p);
    hide CurrentVersion, VersionKey, Then, IsRun, Calm, Excused, Extends, Apply, Enabled, CalmFor;
    var slow := SlowBust(run, p, v, lost, w);
    YoungestWrites(Last(slow), s.busts, p, s.commits + 1, v);
    r := Then(slow, BustWrite(|s.busts|), w);
    ExtendsOn(run, slow, r);
    SameStep(slow, r, |run.steps| + 1);
  }

  /** Writing or dropping the counter leaves every entry, and storing an entry leaves the counter. */
  lemma CounterAndEntries(store: map<string, Value>, p: Pair, wrote: nat, v: nat, q: Query, body: Body)
    ensures var (bumped, key) := (store[VersionKey(p) := Version(wrote)], ResponseKey(p, v, q));
            && CurrentVersion(bumped, p) == CurrentVersion(bumped[key := Response(body)], p) == wrote
            && Cached(bumped, key) == Cached(store, key) && Cached(bumped[key := Response(body)], key) == Some(body)
            && CurrentVersion(bumped - {VersionKey(p)}, p) == 0
            && Cached(bumped - {VersionKey(p)}, key) == Cached(store, key)
  {
    KeyKinds(p, v, q);
    hide ResponseKey, VersionKey, IsVersionKey;
  }

  /** What busts of the pair in turn leave: the counter higher, everything else in place. */
  ghost predicate Busted(s: State, s': State, p: Pair, times: nat) {
    && CurrentVersion(s'.store, p) == CurrentVersion(s.store, p) + times
    && (forall k :: k != VersionKey(p) ==>
        (k in s'.store <==> k in s.store) && (k in s.store ==> s'.store[k] == s.store[k]))
    && s.busts <= s'.busts && s'.readers == s.readers && s.commits <= s'.commits
  }

  lemma {:induction false} BustTimes(run: Run, p: Pair, times: nat, w: Watch) returns (r: Run)
    requires IsRun(run) && w.pair == p
    ensures IsRun(r) && Extends(r, run) && Busted(Last(run), Last(r), p, times) && (Calm(run, w) ==> Calm(r, w))
  {
    if times == 0 {
      r := run;
    } else {
      r := BustTimes(run, p, times - 1, w);
      var s := Last(r);
      hide Then, Calm, IsRun, VersionKey;
      r := MutateAndBust(r, p, false, w);
    }
  }

  lemma EntryKept(s: State, s': State, p: Pair, times: nat, v: nat, q: Query)
    requires Busted(s, s', p, times)
    ensures Cached(s'.store, ResponseKey(p, v, q)) == Cached(s.store, ResponseKey(p, v, q))
  {
    KeyKinds(p, v, q);
    hide ResponseKey, VersionKey, CurrentVersion;
  }

  lemma StampIsPast(run: Run, k: string)
    requires IsRun(run) && Cached(Last(run).store, k).Some?
    ensures Cached(Last(run).store, k).value.stamp <= Last(run).commits
  {
    RunMatched(run, |run.steps|);
    assert EntryMatches(Last(run), k);
  }

  /** One read that finds nothing. */
  lemma Miss(run: Run, p: Pair, q: Query, v: nat, w: Watch) returns (r: Run)
    requires IsRun(run) && DistinctKeys(q) && v == CurrentVersion(Last(run).store, p)
    requires Cached(Last(run).store, ResponseKey(p, v, q)) == None
    ensures var s := Last(run);
            && IsRun(r) && Extends(r, run) && |r.steps| == |run.steps| + 3
            && Last(r) == s.(readers := s.readers + [Read(p, q, Missed(v))])
            && (Calm(run, w) ==> Calm(r, w))
  {
    var s := Last(run);
    hide CurrentVersion, ResponseKey, Then, Calm, IsRun, DistinctKeys;
    r := Begin(run, p, q, v, false, w);
    r := Then(r, CacheGet(|s.readers|), w);
    assert Last(r).readers == s.readers + [Read(p, q, Missed(v))];
  }

  /** And stores its answer. */
  lemma MissAndStore(run: Run, p: Pair, q: Query, v: nat, w: Watch) returns (r: Run)
    requires IsRun(run) && DistinctKeys(q) && v == CurrentVersion(Last(run).store, p)
    requires Cached(Last(run).store, ResponseKey(p, v, q)) == None
    ensures var s := Last(run);
            var body := Body(p, q, v, s.commits);
            && IsRun(r) && Extends(r, run) && |r.steps| == |run.steps| + 5
            && Last(r) == s.(store := s.store[ResponseKey(p, v, q) := Response(body)],
                             readers := s.readers + [Read(p, q, Served(body, false))])
            && (Calm(run, w) ==> Calm(r, w))
  {
    var s := Last(run);
    hide CurrentVersion, ResponseKey, Then, Calm, IsRun, DistinctKeys;
    r := Miss(run, p, q, v, w);
    r := Then(r, Handle(|s.readers|), w);
    assert Last(r).readers == s.readers + [Read(p, q, Computed(Body(p, q, v, s.commits)))];
    r := Then(r, Store(|s.readers|), w);
    assert Last(r).readers == s.readers + [Read(p, q, Served(Body(p, q, v, s.commits), false))];
  }

  /** A calm run can store an answer to any parameters under any version. */
  lemma StoredAt(p: Pair, q: Query, v: nat) returns (run: Run, body: Body)
    requires DistinctKeys(q)
    ensures IsRun(run) && CalmUpTo(p, run, |run.steps|)
    ensures body.version == v && Cached(Last(run).store, ResponseKey(p, v, q)) == Some(body)
  {
    var w := Watch(p, 0, 0, 0);
    run := Run([INIT], []);
    run := BustTimes(run, p, v, w);
    EntryKept(INIT, Last(run), p, v, v, q);
    run := MissAndStore(run, p, q, v, w);
    body := Cached(Last(run).store, ResponseKey(p, v, q)).value;
  }

  /** A counter back at an older entry's version, or below it, is brought there by busts in turn, for a read to hit. */
  lemma CatchesUp(run: Run, p: Pair, q: Query, body: Body, b: nat, w: Watch) returns (r: Run)
    requires IsRun(run) && DistinctKeys(q) && w.pair == p
    requires CurrentVersion(Last(run).store, p) <= body.version
    requires Cached(Last(run).store, ResponseKey(p, body.version, q)) == Some(body)
    requires b < |Last(run).busts| && Last(run).busts[b].pair == p && Last(run).busts[b].phase.Done?
    requires body.stamp < Last(run).busts[b].commit
    ensures IsRun(r) && Extends(r, run) && ServesStale(r, |Last(run).readers|) && (Calm(run, w) ==> Calm(r, w))
  {
    var (s, times) := (Last(run), body.version - CurrentVersion(Last(run).store, p));
    hide ResponseKey, CurrentVersion, Cached, Calm, IsRun, DistinctKeys, ServesStale;
    var r1 := BustTimes(run, p, times, w);
    EntryKept(s, Last(r1), p, times, body.version, q);
    assert Last(r1).busts[b] == s.busts[b];
    r := HitServesStale(r1, p, q, body, false, b, w);
  }

  /**
   An expired counter, from any state with an entry of the pair: it can be served stale, with every other step
   of the pair calm.
   */
  lemma ExpiryServesStale(run: Run, p: Pair, q: Query, body: Body) returns (r: Run, k: nat)
    requires IsRun(run) && DistinctKeys(q) && Cached(Last(run).store, ResponseKey(p, body.version, q)) == Some(body)
    ensures IsRun(r) && Extends(r, run) && |run.steps| <= k < |r.steps| && r.steps[k] == Drop(VersionKey(p))
    ensures Calm(r, Watch(p, |run.steps|, k, k + 1)) && ServesStale(r, |Last(run).readers|)
  {
    k := |run.steps| + 3;
    var w := Watch(p, |run.steps|, k, k + 1);
    var s := Last(run);
    hide ResponseKey, VersionKey, CurrentVersion, Cached, Calm, IsRun, Then, ServesStale, DistinctKeys;
    NothingToExcuse(run, w);
    StampIsPast(run, ResponseKey(p, body.version, q));
    CounterAndEntries(s.store, p, CurrentVersion(s.store, p) + 1, body.version, q, body);
    var r1 := MutateAndBust(run, p, false, w);
    var r2 := Then(r1, Drop(VersionKey(p)), w);
    assert Last(r2).busts[|s.busts|] == Last(r1).busts[|s.busts|];
    r := CatchesUp(r2, p, q, body, |s.busts|, w);
    assert r.steps[k] == r2.steps[k];
  }

  /** The same for a bust that loses its read of the counter. */
  lemma LostBustReadServesStale(run: Run, p: Pair, q: Query, body: Body) returns (r: Run)
    requires IsRun(run) && DistinctKeys(q) && Cached(Last(run).store, ResponseKey(p, body.version, q)) == Some(body)
    requires body.version > 0
    ensures var (n, b) := (|run.steps|, |Last(run).busts|);
            && IsRun(r) && Extends(r, run) && n + 3 <= |r.steps| && r.steps[n + 1] == LoseBustRead(b)
            && r.steps[n + 2] == BustWrite(b)
            && Calm(r, Watch(p, n, n + 1, n + 3)) && ServesStale(r, |Last(run).readers|)
  {
    var (s, n) := (Last(run), |run.steps|);
    var w := Watch(p, n, n + 1, n + 3);
    assert Excused(w, n + 1) && Excused(w, n + 2);
    hide *;
    NothingToExcuse(run, w);
    StampIsPast(run, ResponseKey(p, body.version, q));
    CounterAndEntries(s.store, p, 1, body.version, q, body);
    var r1 := MutateAndBust(run, p, true, w);
    r := CatchesUp(r1, p, q, body, |s.busts|, w);
    ExtendsOn(run, r1, r);
    SameStep(r1, r, n + 1);
    SameStep(r1, r, n + 2);
  }

  /** A reader that loses its own read of the counter gets what is stored under version 0, in a run that is calm. */
  lemma LostVersionServesStale(run: Run, p: Pair, q: Query, body: Body) returns (r: Run)
    requires IsRun(run) && DistinctKeys(q) && Cached(Last(run).store, ResponseKey(p, 0, q)) == Some(body)
    requires body.version == 0
    ensures IsRun(r) && Extends(r, run) && Calm(r, Watch(p, |run.steps|, 0, 0)) && ServesStale(r, |Last(run).readers|)
  {
    var w := Watch(p, |run.steps|, 0, 0);
    var (s, key) := (Last(run), ResponseKey(p, 0, q));
    KeyKinds(p, 0, q);
    hide ResponseKey, VersionKey, Calm, IsRun, ServesStale, DistinctKeys;
    NothingToExcuse(run, w);
    StampIsPast(run, key);
    var r1 := MutateAndBust(run, p, false, w);
    assert Cached(Last(r1).store, key) == Some(body);
    r := HitServesStale(r1, p, q, body, true, |s.busts|, w);
  }

  /** A bust that has read the counter, and an overtaking one. */
  lemma TwoBusts(run: Run, p: Pair, w: Watch) returns (r: Run)
    requires IsRun(run) && w.pair == p
    ensures var (s, c) := (Last(run), CurrentVersion(Last(run).store, p));
            && IsRun(r) && Extends(r, run) && |r.steps| == |run.steps| + 5 && (Calm(run, w) ==> Calm(r, w))
            && Last(r) == State(s.commits + 2, s.store[VersionKey(p) := Version(c + 1)],
                                s.busts + [Bust(p, s.commits + 1, Got(c)), Bust(p, s.commits + 2, Done(c + 1))],
                                s.readers)
  {
    var (s, c) := (Last(run), CurrentVersion(Last(run).store, p));
    hide VersionKey, CurrentVersion, Calm, IsRun, Then, Excused;
    var r1 := SlowBust(run, p, c, false, w);
    r := MutateAndBust(r1, p, false, w);
    assert Last(r).busts == s.busts + [Bust(p, s.commits + 1, Got(c)), Bust(p, s.commits + 2, Done(c + 1))];
  }

  /** A bust that has read the counter, an overtaking one, and an entry at the version that one wrote. */
  lemma Overtaken(run: Run, p: Pair, q: Query, w: Watch) returns (r: Run)
    requires IsRun(run) && DistinctKeys(q) && w.pair == p
    ensures IsRun(r) && Extends(r, run) && (Calm(run, w) ==> Calm(r, w))
    ensures var (s, s', c) := (Last(run), Last(r), CurrentVersion(Last(run).store, p));
            && |r.steps| == |run.steps| + 5 + (if Cached(s.store, ResponseKey(p, c + 1, q)).Some? then 0 else 5)
            && |s.readers| <= |s'.readers| && |s.busts| < |s'.busts|
            && s'.busts[|s.busts|] == Bust(p, s.commits + 1, Got(c))
            && CurrentVersion(s'.store, p) == c + 1 && Cached(s'.store, ResponseKey(p, c + 1, q)).Some?
  {
    var (s, c) := (Last(run), CurrentVersion(Last(run).store, p));
    var key := ResponseKey(p, c + 1, q);
    CounterAndEntries(s.store, p, c + 1, c + 1, q, Body(p, q, c + 1, s.commits + 2));
    hide ResponseKey, VersionKey, CurrentVersion, Cached, Calm, IsRun, DistinctKeys, Then, Excused;
    r := TwoBusts(run, p, w);
    if Cached(s.store, key) == None {
      r := MissAndStore(r, p, q, c + 1, w);
    }
  }

  /** From any state: a delayed bust that sets the counter back, once, and nothing else amiss. */
  lemma OverlapServesStale(run: Run, p: Pair, q: Query) returns (r: Run, k: nat)
    requires IsRun(run) && DistinctKeys(q)
    ensures IsRun(r) && Extends(r, run) && |run.steps| <= k < |r.steps| && r.steps[k] == BustWrite(|Last(run).busts|)
    ensures Calm(r, Watch(p, |run.steps|, k, k + 1))
    ensures exists again :: |Last(run).readers| <= again && ServesStale(r, again)
  {
    var (s, c) := (Last(run), CurrentVersion(Last(run).store, p));
    k := |run.steps| + 8 + (if Cached(s.store, ResponseKey(p, c + 1, q)).Some? then 0 else 5);
    var w := Watch(p, |run.steps|, k, k + 1);
    hide ResponseKey, VersionKey, Calm, IsRun, ServesStale, DistinctKeys, Cached, CurrentVersion;
    NothingToExcuse(run, w);
    var r1 := Overtaken(run, p, q, w);
    r := SetBack(r1, p, q, |s.busts|, c, w, k);
    assert |s.readers| <= |Last(r1).readers| && ServesStale(r, |Last(r1).readers|);
  }

  /** How such a run ends: an entry at the version the slow bust will write, one more bust, then the slow one. */
  lemma SetBack(run: Run, p: Pair, q: Query, slow: nat, c: nat, w: Watch, at: nat) returns (r: Run)
    requires IsRun(run) && DistinctKeys(q) && Calm(run, w) && w.pair == p && at == |run.steps| + 3 && Excused(w, at)
    requires slow < |Last(run).busts| && Last(run).busts[slow].pair == p && Last(run).busts[slow].phase == Got(c)
    requires CurrentVersion(Last(run).store, p) == c + 1 && Cached(Last(run).store, ResponseKey(p, c + 1, q)).Some?
    ensures IsRun(r) && Extends(r, run) && Calm(r, w) && at < |r.steps| && r.steps[at] == BustWrite(slow)
    ensures ServesStale(r, |Last(run).readers|)
  {
    var (s, key) := (Last(run), ResponseKey(p, c + 1, q));
    var body := Cached(s.store, key).value;
    StampIsPast(run, key);
    EntryVersion(run, p, c + 1, q);
    KeyKinds(p, c + 1, q);
    hide ResponseKey, VersionKey, Calm, IsRun, ServesStale, DistinctKeys, Then;
    var r1 := MutateAndBust(run, p, false, w);
    assert Last(r1).busts[slow] == s.busts[slow];
    var r2 := Then(r1, BustWrite(slow), w);
    assert Last(r2).busts[|s.busts|] == Bust(p, s.commits + 1, Done(c + 2));
    assert CurrentVersion(Last(r2).store, p) == c + 1 && Cached(Last(r2).store, key) == Some(body);
    r := HitServesStale(r2, p, q, body, false, |s.busts|, w);
    assert r.steps[at] == r2.steps[at];
  }

  lemma EntryVersion(run: Run, p: Pair, v: nat, q: Query)
    requires IsRun(run) && Cached(Last(run).store, ResponseKey(p, v, q)).Some?
    ensures Cached(Last(run).store, ResponseKey(p, v, q)).value.version == v
  {
    RunMatched(run, |run.steps|);
    var k := ResponseKey(p, v, q);
    assert EntryMatches(Last(run), k);
    var body := Last(run).store[k].body;
    ResponseKeyInjective(p, v, q, body.pair, body.version, body.query);
  }
}
