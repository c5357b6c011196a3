/** The cache agrees with the database it speeds up. */
module HttpCacheCoherence {
  import opened Wrappers
  import opened QueryKey
  import opened HttpCache
  import Decimal

  // ---------------------------------------------------------------- keys

  lemma {:induction false} DigitsHaveNoColon(n: nat)
    ensures ':' !in Decimal.ToString(n)
  {
    Decimal.ToStringRoundTrip(n);
  }

  /** One key, one organization, resource, version and query string. */
  lemma ResponseKeyInjective(p: Pair, v: nat, q: Query, p': Pair, v': nat, q': Query)
    requires ResponseKey(p, v, q) == ResponseKey(p', v', q')
    ensures p == p' && v == v' && QueryString(q) == QueryString(q')
  {
    hide QueryString, Decimal.ToString;
    var c, c' := QueryString(q), QueryString(q');
    var b, b' := Decimal.ToString(v) + [':'] + c, Decimal.ToString(v') + [':'] + c';
    var a, a' := p.resource + [':'] + (['v'] + b), p'.resource + [':'] + (['v'] + b');
    var k, k' := ResponseKey(p, v, q), ResponseKey(p', v', q');
    assert k == "cache:GET:" + (p.org + [':'] + a) && k' == "cache:GET:" + (p'.org + [':'] + a');
    assert k[10..] == p.org + [':'] + a && k'[10..] == p'.org + [':'] + a';
    SplitOnce(p.org, p'.org, ':', a, a');
    SplitOnce(p.resource, p'.resource, ':', ['v'] + b, ['v'] + b');
    assert b == (['v'] + b)[1..] && b' == (['v'] + b')[1..];
    DigitsHaveNoColon(v);
    DigitsHaveNoColon(v');
    SplitOnce(Decimal.ToString(v), Decimal.ToString(v'), ':', c, c');
    Decimal.ToStringInjective(v, v');
  }

  lemma VersionKeyInjective(p: Pair, p': Pair)
    requires VersionKey(p) == VersionKey(p')
    ensures p == p'
  {
    var k, k' := VersionKey(p), VersionKey(p');
    assert k == "cache:ver:" + (p.org + [':'] + p.resource) && k' == "cache:ver:" + (p'.org + [':'] + p'.resource);
    assert k[10..] == p.org + [':'] + p.resource && k'[10..] == p'.org + [':'] + p'.resource;
    SplitOnce(p.org, p'.org, ':', p.resource, p'.resource);
  }

  lemma KeyKinds(p: Pair, v: nat, q: Query)
    ensures IsVersionKey(VersionKey(p)) && !IsVersionKey(ResponseKey(p, v, q))
  {
    assert VersionKey(p)[..10] == "cache:ver:";
    assert ResponseKey(p, v, q)[..10] == "cache:GET:";
    assert "cache:GET:"[6] != "cache:ver:"[6];
  }

  // ---------------------------------------------------------------- every run

  /** A response sits under its own key, and a version under a version key. */
  ghost predicate EntryMatches(s: State, k: string)
    requires k in s.store
  {
    && s.store[k].Version? == IsVersionKey(k)
    && (s.store[k].Response? ==>
          var b := s.store[k].body;
          DistinctKeys(b.query) && b.stamp <= s.commits && k == ResponseKey(b.pair, b.version, b.query))
  }

  /** What a read has computed or been served answers its own pair and parameters. */
  ghost predicate ReadMatches(s: State, r: Read) {
    && DistinctKeys(r.query)
    && match r.phase
       case Computed(b) => b.pair == r.pair && b.query == r.query && b.stamp <= s.commits
       case Served(b, _) =>
         b.pair == r.pair && DistinctKeys(b.query) && QueryString(b.query) == QueryString(r.query)
         && b.stamp <= s.commits
       case _ => true
  }

  ghost predicate Matched(s: State) {
    && (forall k :: k in s.store ==> EntryMatches(s, k))
    && (forall r :: 0 <= r < |s.readers| ==> ReadMatches(s, s.readers[r]))
  }

  lemma EntriesStep(s: State, step: Step, k: string)
    requires Enabled(s, step) && Matched(s) && k in Apply(s, step).store
    ensures EntryMatches(Apply(s, step), k)
  {
    if k in s.store && Apply(s, step).store[k] == s.store[k] {
      assert EntryMatches(s, k);
    } else if step.BustWrite? {
      KeyKinds(s.busts[step.b].pair, 0, []);
    } else {
      assert ReadMatches(s, s.readers[step.r]);
      KeyKinds(s.readers[step.r].pair, s.readers[step.r].phase.body.version, s.readers[step.r].query);
    }
    hide ResponseKey, VersionKey, QueryString, IsVersionKey;
  }

  lemma HitMatches(s: State, r: nat)
    requires r < |s.readers| && Matched(s) && Enabled(s, CacheGet(r))
    ensures var (read, read') := (s.readers[r], Apply(s, CacheGet(r)).readers[r]);
            && ReadMatches(Apply(s, CacheGet(r)), read')
            && (read'.phase.Served? ==> read'.phase.answer.version == read.phase.version)
  {
    var read := s.readers[r];
    var k := ResponseKey(read.pair, read.phase.version, read.query);
    assert ReadMatches(s, read);
    if Cached(s.store, k).Some? {
      assert EntryMatches(s, k);
      var b := s.store[k].body;
      ResponseKeyInjective(read.pair, read.phase.version, read.query, b.pair, b.version, b.query);
    }
    hide ResponseKey, QueryString, DistinctKeys;
  }

  lemma ReadsStep(s: State, step: Step, r: nat)
    requires Enabled(s, step) && Matched(s) && r < |Apply(s, step).readers|
    ensures ReadMatches(Apply(s, step), Apply(s, step).readers[r])
  {
    if step == CacheGet(r) {
      HitMatches(s, r);
    } else {
      if r < |s.readers| { assert ReadMatches(s, s.readers[r]); }
      hide ResponseKey, QueryString, DistinctKeys;
    }
  }

  lemma {:induction false} RunMatched(run: Run, n: nat)
    requires IsRun(run) && n <= |run.steps|
    ensures Matched(run.states[n])
  {
    if n > 0 {
      RunMatched(run, n - 1);
      var (s, step, s') := (run.states[n - 1], run.steps[n - 1], run.states[n]);
      assert s' == Apply(s, step);
      hide Apply, EntryMatches, ReadMatches;
      forall k | k in s'.store ensures EntryMatches(s', k) {
        EntriesStep(s, step, k);
      }
      forall r | 0 <= r < |s'.readers| ensures ReadMatches(s', s'.readers[r]) {
        ReadsStep(s, step, r);
      }
    }
  }

  // ---------------------------------------------------------------- one pair, while it is calm

  /** The version a bust has written, or is about to write. */
  function Reach(bust: Bust): Option<nat> {
    match bust.phase
    case Got(v) => Some(v + 1)
    case Done(w) => Some(w)
    case _ => None
  }

  /** From the version a bust writes on, nothing of its pair is older than its mutation. */
  predicate NotOlder(body: Body, bust: Bust) {
    bust.pair == body.pair && Reach(bust).Some? && body.version >= Reach(bust).value ==> bust.commit <= body.stamp
  }

  ghost predicate BodyOk(s: State, body: Body) {
    && body.version <= CurrentVersion(s.store, body.pair)
    && forall b :: 0 <= b < |s.busts| ==> NotOlder(body, s.busts[b])
  }

  ghost predicate EntriesOk(p: Pair, s: State) {
    forall k :: k in s.store && s.store[k].Response? && s.store[k].body.pair == p ==> BodyOk(s, s.store[k].body)
  }

  /** No bust has read, or written, more than the counter stands at. */
  predicate BustOk(s: State, bust: Bust) {
    && bust.commit <= s.commits
    && (bust.phase.Got? ==> bust.phase.version <= CurrentVersion(s.store, bust.pair))
    && (bust.phase.Done? ==> bust.phase.wrote <= CurrentVersion(s.store, bust.pair))
  }

  ghost predicate BustsOk(p: Pair, s: State) {
    forall b :: 0 <= b < |s.busts| && s.busts[b].pair == p ==> BustOk(s, s.busts[b])
  }

  ghost predicate ReadOk(s: State, r: Read) {
    match r.phase
    case Keyed(v) => v <= CurrentVersion(s.store, r.pair)
    case Missed(v) => v <= CurrentVersion(s.store, r.pair)
    case Computed(body) => BodyOk(s, body)
    case Served(body, _) => BodyOk(s, body)
    case _ => true
  }

  ghost predicate ReadsOk(p: Pair, s: State) {
    forall r :: 0 <= r < |s.readers| && s.readers[r].pair == p ==> ReadOk(s, s.readers[r])
  }

  ghost predicate Coherent(p: Pair, s: State) {
    Matched(s) && EntriesOk(p, s) && BustsOk(p, s) && ReadsOk(p, s)
  }

  /** A calm step leaves the counter where it is or raises it. */
  lemma CounterRises(p: Pair, s: State, step: Step)
    requires Enabled(s, step) && CalmFor(p, s, step) && Matched(s)
    ensures CurrentVersion(Apply(s, step).store, p) >= CurrentVersion(s.store, p)
    ensures step.BustWrite? && s.busts[step.b].pair == p ==>
              CurrentVersion(Apply(s, step).store, p) == s.busts[step.b].phase.version + 1
  {
    KeyKinds(p, 0, []);
    if step.BustWrite? {
      var q := s.busts[step.b].pair;
      if q != p && VersionKey(q) == VersionKey(p) { VersionKeyInjective(q, p); }
    }
    if step.Store? {
      var read := s.readers[step.r];
      KeyKinds(read.pair, read.phase.body.version, read.query);
    }
    hide Matched, ResponseKey, VersionKey, IsVersionKey;
  }

  /** Busts move on, but only a bust that reads the counter reaches for something new. */
  lemma BodyStays(p: Pair, s: State, step: Step, body: Body)
    requires Enabled(s, step) && CalmFor(p, s, step) && Matched(s) && body.pair == p && BodyOk(s, body)
    ensures BodyOk(Apply(s, step), body)
  {
    CounterRises(p, s, step);
    var s' := Apply(s, step);
    forall b | 0 <= b < |s'.busts| ensures NotOlder(body, s'.busts[b]) {
      if b < |s.busts| { assert NotOlder(body, s.busts[b]); }
    }
    hide Matched, CalmFor, CurrentVersion, VersionKey, ResponseKey;
  }

  /** What is computed now is newer than every commit. */
  lemma NewBodyOk(p: Pair, s: State, r: nat)
    requires Enabled(s, Handle(r)) && Coherent(p, s) && s.readers[r].pair == p
    ensures var s' := Apply(s, Handle(r)); BodyOk(s', s'.readers[r].phase.body)
  {
    assert ReadOk(s, s.readers[r]);
    assert forall b :: 0 <= b < |s.busts| && s.busts[b].pair == p ==> BustOk(s, s.busts[b]);
    hide Matched, EntriesOk, ReadsOk, CurrentVersion;
  }

  lemma HitOk(p: Pair, s: State, r: nat)
    requires Enabled(s, CacheGet(r)) && Coherent(p, s) && s.readers[r].pair == p
    ensures ReadOk(Apply(s, CacheGet(r)), Apply(s, CacheGet(r)).readers[r])
  {
    var (s', read) := (Apply(s, CacheGet(r)), s.readers[r]);
    HitMatches(s, r);
    assert ReadOk(s, read) && ReadMatches(s', s'.readers[r]);
    var k := ResponseKey(p, read.phase.version, read.query);
    if s'.readers[r].phase.Served? {
      assert k in s.store && s.store[k].body == s'.readers[r].phase.answer;
      assert BodyOk(s, s.store[k].body);
    }
    hide Matched, ResponseKey, CurrentVersion, QueryString, DistinctKeys;
  }

  lemma ReadersStep(p: Pair, s: State, step: Step)
    requires Enabled(s, step) && Coherent(p, s) && CalmFor(p, s, step)
    ensures ReadsOk(p, Apply(s, step))
  {
    var s' := Apply(s, step);
    CounterRises(p, s, step);
    forall r | 0 <= r < |s'.readers| && s'.readers[r].pair == p ensures ReadOk(s', s'.readers[r]) {
      if step == CacheGet(r) {
        HitOk(p, s, r);
      } else if step == Handle(r) {
        NewBodyOk(p, s, r);
      } else if r < |s.readers| {
        OtherReadOk(p, s, step, r);
      }
    }
  }

  /** A read that the step leaves alone, or moves without touching the handler or a hit. */
  lemma OtherReadOk(p: Pair, s: State, step: Step, r: nat)
    requires Enabled(s, step) && Coherent(p, s) && CalmFor(p, s, step) && r < |s.readers| && s.readers[r].pair == p
    requires step != CacheGet(r) && step != Handle(r)
    ensures ReadOk(Apply(s, step), Apply(s, step).readers[r])
  {
    var phase := s.readers[r].phase;
    assert ReadOk(s, s.readers[r]) && ReadMatches(s, s.readers[r]);
    CounterRises(p, s, step);
    match phase
    case Computed(body) => BodyStays(p, s, step, body);
    case Served(body, _) => BodyStays(p, s, step, body);
    case _ =>
    hide Matched, CalmFor, BodyOk, ResponseKey, EntriesOk, BustsOk, ReadsOk, QueryString, DistinctKeys;
  }

  lemma BustsStep(p: Pair, s: State, step: Step)
    requires Enabled(s, step) && Coherent(p, s) && CalmFor(p, s, step)
    ensures BustsOk(p, Apply(s, step))
  {
    var s' := Apply(s, step);
    CounterRises(p, s, step);
    forall b | 0 <= b < |s'.busts| && s'.busts[b].pair == p ensures BustOk(s', s'.busts[b]) {
      if b < |s.busts| { assert BustOk(s, s.busts[b]); }
    }
    hide Matched, CurrentVersion;
  }

  lemma EntriesStay(p: Pair, s: State, step: Step)
    requires Enabled(s, step) && Coherent(p, s) && CalmFor(p, s, step)
    ensures EntriesOk(p, Apply(s, step))
  {
    var s' := Apply(s, step);
    forall k | k in s'.store && s'.store[k].Response? && s'.store[k].body.pair == p
      ensures BodyOk(s', s'.store[k].body)
    {
      if !(k in s.store && s'.store[k] == s.store[k]) {
        assert ReadMatches(s, s.readers[step.r]) && ReadOk(s, s.readers[step.r]);
      }
      BodyStays(p, s, step, s'.store[k].body);
    }
  }

  /** However other pairs behave, a calm pair's cache agrees with the database. */
  lemma {:induction false} RunCoherent(p: Pair, run: Run, n: nat)
    requires IsRun(run) && n <= |run.steps| && CalmUpTo(p, run, n)
    ensures Coherent(p, run.states[n])
  {
    RunMatched(run, n);
    if n > 0 {
      RunCoherent(p, run, n - 1);
      var (s, step) := (run.states[n - 1], run.steps[n - 1]);
      assert CalmFor(p, s, step) && run.states[n] == Apply(s, step);
      hide CalmFor, Apply, Enabled, Matched, EntriesOk, BustsOk, ReadsOk;
      EntriesStay(p, s, step);
      BustsStep(p, s, step);
      ReadersStep(p, s, step);
    }
  }

  // ---------------------------------------------------------------- busts in turn are calm

  /** No bust of the same pair is between its get and its set. */
  ghost predicate Alone(s: State, bust: nat)
    requires bust < |s.busts|
  {
    forall b :: 0 <= b < |s.busts| && s.busts[b].pair == s.busts[bust].pair ==> !s.busts[b].phase.Got?
  }

  /** Busts of the pair do not overlap, its version key is not dropped, and none of its busts loses its read. */
  ghost predicate InTurn(p: Pair, s: State, step: Step) {
    && (step.BustRead? && Enabled(s, step) && s.busts[step.b].pair == p ==> Alone(s, step.b))
    && step != Drop(VersionKey(p))
    && (step.LoseBustRead? && Enabled(s, step) ==> s.busts[step.b].pair != p)
  }

  /** The one bust under way, if there is one, has read what the counter still stands at. */
  ghost predicate OneUnderWay(p: Pair, s: State) {
    && (forall b :: 0 <= b < |s.busts| && s.busts[b].pair == p && s.busts[b].phase.Got? ==>
          s.busts[b].phase.version == CurrentVersion(s.store, p))
    && (forall a, b :: 0 <= a < b < |s.busts| && s.busts[a].pair == s.busts[b].pair == p ==>
          !(s.busts[a].phase.Got? && s.busts[b].phase.Got?))
  }

  /** How many busts of the pair have finished. */
  function Finished(p: Pair, busts: seq<Bust>): nat {
    if busts == [] then 0
    else Finished(p, busts[..|busts| - 1]) + FinishedOne(p, busts[|busts| - 1])
  }

  function FinishedOne(p: Pair, bust: Bust): nat {
    if bust.pair == p && bust.phase.Done? then 1 else 0
  }

  lemma {:induction false} FinishedUpdate(p: Pair, busts: seq<Bust>, b: nat, bust: Bust)
    requires b < |busts|
    ensures Finished(p, busts[b := bust]) == Finished(p, busts) - FinishedOne(p, busts[b]) + FinishedOne(p, bust)
  {
    var (earlier, n) := (busts[..|busts| - 1], |busts| - 1);
    if b < n {
      FinishedUpdate(p, earlier, b, bust);
      assert busts[b := bust][..n] == earlier[b := bust];
    } else {
      assert busts[b := bust][..n] == earlier;
    }
  }

  lemma {:induction false} FinishedAppend(p: Pair, busts: seq<Bust>, bust: Bust)
    ensures Finished(p, busts + [bust]) == Finished(p, busts) + FinishedOne(p, bust)
  {
    assert (busts + [bust])[..|busts|] == busts;
  }

  /** Only a bust that writes adds to the finished ones. */
  lemma BustsCount(p: Pair, s: State, step: Step)
    requires Enabled(s, step)
    ensures Finished(p, Apply(s, step).busts)
            == Finished(p, s.busts) + if step.BustWrite? && s.busts[step.b].pair == p then 1 else 0
  {
    var s' := Apply(s, step);
    hide CurrentVersion, VersionKey, ResponseKey, Finished;
    if step.Mutate? {
      FinishedAppend(p, s.busts, s'.busts[|s.busts|]);
    } else if s'.busts != s.busts {
      FinishedUpdate(p, s.busts, step.b, s'.busts[step.b]);
    }
  }

  lemma InTurnIsCalmNow(p: Pair, s: State, step: Step)
    requires Enabled(s, step) && OneUnderWay(p, s) && InTurn(p, s, step)
    ensures CalmFor(p, s, step)
    ensures step.BustWrite? && s.busts[step.b].pair == p ==>
              s.busts[step.b].phase.version == CurrentVersion(s.store, p)
  {
    hide CurrentVersion, VersionKey;
  }

  /** While busts are in turn, each that finishes raises the counter by one, and nothing else moves it. */
  lemma {:induction false} CounterCounts(p: Pair, s: State, step: Step)
    requires Enabled(s, step) && Matched(s) && OneUnderWay(p, s) && InTurn(p, s, step)
    ensures var s' := Apply(s, step);
            CurrentVersion(s'.store, p) + Finished(p, s.busts) == CurrentVersion(s.store, p) + Finished(p, s'.busts)
  {
    hide Matched, CurrentVersion, VersionKey, Finished;
    InTurnIsCalmNow(p, s, step);
    CounterRises(p, s, step);
    if !(step.BustWrite? && s.busts[step.b].pair == p) { CounterStands(p, s, step); }
    BustsCount(p, s, step);
  }

  lemma InTurnStep(p: Pair, s: State, step: Step)
    requires Enabled(s, step) && Matched(s) && OneUnderWay(p, s) && InTurn(p, s, step)
    ensures CalmFor(p, s, step) && OneUnderWay(p, Apply(s, step))
  {
    var s' := Apply(s, step);
    CounterRises(p, s, step);
    if !(step.BustWrite? && s.busts[step.b].pair == p) { CounterStands(p, s, step); }
    hide Matched, CurrentVersion, VersionKey;
  }

  lemma CounterStands(p: Pair, s: State, step: Step)
    requires Enabled(s, step) && step != Drop(VersionKey(p)) && !(step.BustWrite? && s.busts[step.b].pair == p)
    ensures CurrentVersion(Apply(s, step).store, p) == CurrentVersion(s.store, p)
  {
    KeyKinds(p, 0, []);
    if step.BustWrite? {
      var q := s.busts[step.b].pair;
      if VersionKey(q) == VersionKey(p) { VersionKeyInjective(q, p); }
    }
    if step.Store? {
      var read := s.readers[step.r];
      KeyKinds(read.pair, read.phase.body.version, read.query);
    }
    hide ResponseKey, VersionKey, IsVersionKey;
  }

  lemma {:induction false} InTurnMoves(p: Pair, run: Run, n: nat)
    requires IsRun(run) && n < |run.steps| && InTurn(p, run.states[n], run.steps[n])
    requires Matched(run.states[n]) && OneUnderWay(p, run.states[n]) && CalmUpTo(p, run, n)
    requires CurrentVersion(run.states[n].store, p) == Finished(p, run.states[n].busts)
    ensures CalmUpTo(p, run, n + 1) && OneUnderWay(p, run.states[n + 1])
    ensures CurrentVersion(run.states[n + 1].store, p) == Finished(p, run.states[n + 1].busts)
  {
    var (s, step) := (run.states[n], run.steps[n]);
    assert Enabled(s, step) && run.states[n + 1] == Apply(s, step);
    hide Matched, OneUnderWay, InTurn, CalmFor, Apply, Enabled, Finished, CurrentVersion, IsRun;
    InTurnStep(p, s, step);
    CounterCounts(p, s, step);
  }

  /**
   The plain form of the assumption: busts in turn, no dropped key and no lost read never set the counter back.
   The counter is then the number of finished busts.
   */
  lemma {:induction false} InTurnIsCalm(p: Pair, run: Run, n: nat)
    requires IsRun(run) && n <= |run.steps|
    requires forall i :: 0 <= i < n ==> InTurn(p, run.states[i], run.steps[i])
    ensures CalmUpTo(p, run, n) && OneUnderWay(p, run.states[n])
    ensures CurrentVersion(run.states[n].store, p) == Finished(p, run.states[n].busts)
  {
    if n == 0 {
      assert run.states[0] == INIT;
      hide VersionKey, IsRun, InTurn, CalmFor;
    } else {
      InTurnIsCalm(p, run, n - 1);
      RunMatched(run, n - 1);
      InTurnMoves(p, run, n - 1);
      hide *;
    }
  }
}
