/** The configured limiter of an API token: four fixed windows counted together, once a request. */
module TokenLimiter {
  import opened Wrappers
  import opened FixedWindow

  /** burst, minute, hour and day */
  const WINDOWS_MS: seq<nat> := [1_000, 60_000, 3_600_000, 86_400_000]

  datatype Counter = Counter(count: nat, resetAt: nat)

  /** The policy row's limits, window by window; None stands for a row that fails validation. */
  datatype Policy = NoPolicy | Inactive | Invalid | Active(limits: seq<nat>)

  datatype Outcome = Next | TooMany(window: nat) | Unavailable

  type Counters = seq<Option<Counter>>

  predicate AreCounters(cs: Counters) {
    |cs| == |WINDOWS_MS|
  }

  /** incrementFixedWindow: a window opens with its first hit and does not move. */
  function Increment(c: Option<Counter>, now: nat, width: nat): Counter {
    match c
    case None => Counter(1, now + width)
    case Some(kept) => if kept.resetAt <= now then Counter(1, now + width) else Counter(kept.count + 1, kept.resetAt)
  }

  /** The four increments of one request: their clock readings, which of them took effect, and whether one failed. */
  datatype Hit = Hit(times: seq<nat>, took: seq<bool>, fails: bool)

  predicate IsHit(h: Hit) {
    |h.times| == |h.took| == |WINDOWS_MS| && (!h.fails ==> forall w :: 0 <= w < |h.took| ==> h.took[w])
  }

  function IncrementAll(cs: Counters, h: Hit): (r: Counters)
    requires AreCounters(cs) && IsHit(h)
    ensures AreCounters(r)
  {
    seq(|cs|, w requires 0 <= w < |cs| =>
          if h.took[w] then Some(Increment(cs[w], h.times[w], WINDOWS_MS[w])) else cs[w])
  }

  predicate Exceeds(cs: Counters, limits: seq<nat>, w: nat)
    requires |cs| == |limits| && w < |cs|
  {
    cs[w].Some? && cs[w].value.count > limits[w]
  }

  class Request {
    const hasToken: bool
    const policy: Policy
    var counted: bool

    constructor (hasToken: bool, policy: Policy)
      ensures this.hasToken == hasToken && this.policy == policy && !counted
    {
      this.hasToken, this.policy, counted := hasToken, policy, false;
    }
  }

  class Limiter {
    var counters: Counters

    constructor ()
      ensures AreCounters(counters) && forall w :: 0 <= w < |counters| ==> counters[w] == None
    {
      counters := [None, None, None, None];
    }

    // One pass of a request through one mount.
    method Pass(req: Request, h: Hit) returns (o: Outcome)
      requires AreCounters(counters) && IsHit(h)
      requires req.policy.Active? ==> |req.policy.limits| == |counters|
      modifies this, req
      ensures AreCounters(counters)
      ensures req.counted == (old(req.counted) || req.hasToken)
      ensures !req.hasToken || old(req.counted) || !req.policy.Active? ==> counters == old(counters)
      ensures !req.hasToken || old(req.counted) ==> o == Next
      ensures req.hasToken && !old(req.counted) && !req.policy.Active? ==>
                o == if req.policy.Invalid? then Unavailable else Next
      ensures req.hasToken && !old(req.counted) && req.policy.Active? ==>
                && counters == IncrementAll(old(counters), h)
                && (h.fails ==> o == Unavailable)
                && (!h.fails ==>
                      && (o == Next <==> forall w :: 0 <= w < |counters| ==> !Exceeds(counters, req.policy.limits, w))
                      && (o.TooMany? ==>
                            && o.window < |counters| && Exceeds(counters, req.policy.limits, o.window)
                            && forall w :: 0 <= w < o.window ==> !Exceeds(counters, req.policy.limits, w))
                      && !o.Unavailable?)
    {
      if !req.hasToken || req.counted { return Next; }
      req.counted := true;
      match req.policy
      case NoPolicy => return Next;
      case Inactive => return Next;
      case Invalid => return Unavailable;
      case Active(limits) =>
        counters := IncrementAll(counters, h);
        if h.fails { return Unavailable; }
        for w := 0 to |counters|
          invariant forall v :: 0 <= v < w ==> !Exceeds(counters, limits, v)
        {
          if Exceeds(counters, limits, w) { return TooMany(w); }
        }
        return Next;
    }

    // A request that meets the limiter at several mounts, as long as each lets it on: it counts once.
    method PassMounts(req: Request, hits: seq<Hit>) returns (o: Outcome)
      requires AreCounters(counters) && forall i :: 0 <= i < |hits| ==> IsHit(hits[i])
      requires req.policy.Active? ==> |req.policy.limits| == |counters|
      modifies this, req
      ensures AreCounters(counters)
      ensures counters == if hits != [] && req.hasToken && !old(req.counted) && req.policy.Active?
                          then IncrementAll(old(counters), hits[0])
                          else old(counters)
    {
      o := Next;
      for i := 0 to |hits|
        invariant AreCounters(counters) && (req.hasToken && i > 0 ==> req.counted)
        invariant i == 0 ==> req.counted == old(req.counted)
        invariant counters == if i > 0 && req.hasToken && !old(req.counted) && req.policy.Active?
                              then IncrementAll(old(counters), hits[0])
                              else old(counters)
      {
        o := Pass(req, hits[i]);
        if o != Next { return; }
      }
    }
  }

  // ---------------------------------------------------------------- runs

  predicate AreHits(hits: seq<Hit>) {
    forall i :: 0 <= i < |hits| ==> IsHit(hits[i])
  }

  function CountersAfter(hits: seq<Hit>): (cs: Counters)
    requires AreHits(hits)
    ensures AreCounters(cs)
  {
    if hits == [] then [None, None, None, None]
    else IncrementAll(CountersAfter(hits[..|hits| - 1]), hits[|hits| - 1])
  }

  /** The request of the last hit goes on to its handler. */
  predicate LastAdmitted(hits: seq<Hit>, limits: seq<nat>)
    requires AreHits(hits) && |hits| > 0 && |limits| == |WINDOWS_MS|
  {
    !hits[|hits| - 1].fails && forall w :: 0 <= w < |WINDOWS_MS| ==> !Exceeds(CountersAfter(hits), limits, w)
  }

  /** A window's counter after a hit that took effect. */
  lemma {:induction false} CounterTook(hits: seq<Hit>, w: nat)
    requires AreHits(hits) && |hits| > 0 && w < |WINDOWS_MS|
    ensures CountersAfter(hits)[w] ==
            var (before, h) := (CountersAfter(hits[..|hits| - 1])[w], hits[|hits| - 1]);
            if h.took[w] then Some(Increment(before, h.times[w], WINDOWS_MS[w])) else before
  {
  }

  /** The policy each request was authenticated with; it may change from one request to the next. */
  predicate ArePolicies(hits: seq<Hit>, policies: seq<seq<nat>>) {
    |policies| == |hits| && forall i :: 0 <= i < |policies| ==> |policies[i]| == |WINDOWS_MS|
  }

  /** The admitted requests as one window's counter sees them. */
  function Admitted(hits: seq<Hit>, policies: seq<seq<nat>>, w: nat): seq<Grant>
    requires AreHits(hits) && ArePolicies(hits, policies) && w < |WINDOWS_MS|
  {
    if hits == [] then []
    else
      CounterTook(hits, w);
      Admitted(hits[..|hits| - 1], policies[..|hits| - 1], w)
      + if LastAdmitted(hits, policies[|hits| - 1]) then
          [Grant(hits[|hits| - 1].times[w], 1, CountersAfter(hits)[w].value.resetAt)]
        else []
  }

  lemma {:induction false} AdmittedUnfolds(hits: seq<Hit>, policies: seq<seq<nat>>, w: nat)
    requires AreHits(hits) && |hits| > 0 && ArePolicies(hits, policies) && w < |WINDOWS_MS|
    ensures var n := |hits| - 1;
            var (before, h, c) := (Admitted(hits[..n], policies[..n], w), hits[n], CountersAfter(hits)[w]);
            if LastAdmitted(hits, policies[n]) then
              && h.took[w] && c.Some? && c.value.count <= policies[n][w]
              && Admitted(hits, policies, w) == before + [Grant(h.times[w], 1, c.value.resetAt)]
            else Admitted(hits, policies, w) == before
  {
    CounterTook(hits, w);
    assert LastAdmitted(hits, policies[|hits| - 1]) ==> !Exceeds(CountersAfter(hits), policies[|hits| - 1], w);
  }

  /** The counter of one window never sees the clock go back. */
  predicate InOrder(hits: seq<Hit>, w: nat)
    requires AreHits(hits) && w < |WINDOWS_MS|
  {
    forall i, j :: 0 <= i < j < |hits| ==> hits[i].times[w] <= hits[j].times[w]
  }

  /** The counter holds at least what was admitted out of its window, and every older window is over. */
  ghost predicate IsGood(gs: seq<Grant>, c: Option<Counter>, width: nat, limit: nat, now: nat) {
    && IsBudget(gs, width, limit)
    && (c.None? ==> gs == [])
    && (c.Some? ==>
          && c.value.resetAt <= now + width && Spent(gs, c.value.resetAt) <= c.value.count
          && forall i :: 0 <= i < |gs| ==>
               gs[i].at <= now && (gs[i].resetAt == c.value.resetAt || gs[i].resetAt + width <= c.value.resetAt))
  }

  /** A hit that is not admitted only moves the counter. */
  lemma {:induction false} CountStaysGood(gs: seq<Grant>, c: Option<Counter>, width: nat, limit: nat, before: nat,
                                          now: nat)
    requires width > 0 && IsGood(gs, c, width, limit, before) && before <= now
    ensures IsGood(gs, c, width, limit, now)
    ensures var c' := Increment(c, now, width);
            && IsGood(gs, Some(c'), width, limit, now)
            && now < c'.resetAt && Spent(gs, c'.resetAt) + 1 <= c'.count
  {
    var c' := Increment(c, now, width);
    if c.None? || c.value.resetAt <= now {
      forall i | 0 <= i < |gs| ensures gs[i].resetAt + width <= c'.resetAt {
        assert gs[i].resetAt <= c.value.resetAt;
      }
      NothingSpentAfter(gs, c'.resetAt);
    }
  }

  lemma {:induction false} AdmitStaysGood(gs: seq<Grant>, c: Counter, width: nat, limit: nat, now: nat)
    requires IsGood(gs, Some(c), width, limit, now) && now < c.resetAt && Spent(gs, c.resetAt) + 1 <= c.count <= limit
    ensures IsGood(gs + [Grant(now, 1, c.resetAt)], Some(c), width, limit, now)
  {
    var g := Grant(now, 1, c.resetAt);
    SpentGrows(gs, g);
    hide Spent;
    BudgetGrows(gs, g, width, limit);
  }

  /** The clock reading of the last hit, or the start of time. */
  function LastTime(hits: seq<Hit>, w: nat): nat
    requires AreHits(hits) && w < |WINDOWS_MS|
  {
    if hits == [] then 0 else hits[|hits| - 1].times[w]
  }

  lemma EarlierHits(hits: seq<Hit>, policies: seq<seq<nat>>, w: nat, cap: nat)
    requires AreHits(hits) && hits != [] && ArePolicies(hits, policies) && w < |WINDOWS_MS| && InOrder(hits, w)
    requires Capped(policies, w, cap)
    ensures AreHits(hits[..|hits| - 1]) && InOrder(hits[..|hits| - 1], w)
    ensures ArePolicies(hits[..|hits| - 1], policies[..|hits| - 1]) && Capped(policies[..|hits| - 1], w, cap)
    ensures |policies[|hits| - 1]| == |WINDOWS_MS| && policies[|hits| - 1][w] <= cap
    ensures LastTime(hits[..|hits| - 1], w) <= hits[|hits| - 1].times[w] && WINDOWS_MS[w] > 0
  {
  }

  /** No policy allows more than `cap` in one window. */
  predicate Capped(policies: seq<seq<nat>>, w: nat, cap: nat) {
    forall i :: 0 <= i < |policies| && w < |policies[i]| ==> policies[i][w] <= cap
  }

  lemma {:induction false} NothingYet(w: nat, cap: nat)
    requires w < |WINDOWS_MS|
    ensures IsGood(Admitted([], [], w), CountersAfter([])[w], WINDOWS_MS[w], cap, 0)
  {
  }

  lemma {:induction false} RunIsGood(hits: seq<Hit>, policies: seq<seq<nat>>, w: nat, cap: nat)
    requires AreHits(hits) && ArePolicies(hits, policies) && w < |WINDOWS_MS| && InOrder(hits, w)
    requires Capped(policies, w, cap)
    ensures IsGood(Admitted(hits, policies, w), CountersAfter(hits)[w], WINDOWS_MS[w], cap, LastTime(hits, w))
  {
    if hits == [] {
      NothingYet(w, cap);
      assert policies == [];
    } else {
      var n := |hits| - 1;
      var (earlier, h, limits) := (hits[..n], hits[n], policies[n]);
      assert LastTime(hits, w) == h.times[w];
      hide *;
      EarlierHits(hits, policies, w, cap);
      RunIsGood(earlier, policies[..n], w, cap);
      CounterTook(hits, w);
      AdmittedUnfolds(hits, policies, w);
      var (gs, c) := (Admitted(earlier, policies[..n], w), CountersAfter(earlier)[w]);
      CountStaysGood(gs, c, WINDOWS_MS[w], cap, LastTime(earlier, w), h.times[w]);
      if LastAdmitted(hits, limits) {
        AdmitStaysGood(gs, CountersAfter(hits)[w].value, WINDOWS_MS[w], cap, h.times[w]);
      }
    }
  }

  /**
   For each of the four windows, the requests that reach their handlers never exceed the largest limit their
   policies give it within one window, nor twice that within any interval of its length.
   */
  lemma RequestsAreBounded(hits: seq<Hit>, policies: seq<seq<nat>>, w: nat, cap: nat, resetAt: nat, first: nat)
    requires AreHits(hits) && ArePolicies(hits, policies) && w < |WINDOWS_MS| && InOrder(hits, w)
    requires Capped(policies, w, cap)
    ensures Spent(Admitted(hits, policies, w), resetAt) <= cap
    ensures SpentBetween(Admitted(hits, policies, w), first, first + WINDOWS_MS[w]) <= 2 * cap
  {
    RunIsGood(hits, policies, w, cap);
    hide Admitted, CountersAfter, Spent, SpentBetween;
    AtMostTwice(Admitted(hits, policies, w), WINDOWS_MS[w], cap, first);
  }

  /** And a request is let through only while its window, itself included, stays within its own policy's limit. */
  lemma {:induction false} AdmittedWithinOwnLimit(hits: seq<Hit>, policies: seq<seq<nat>>, w: nat, cap: nat)
    requires AreHits(hits) && ArePolicies(hits, policies) && w < |WINDOWS_MS| && InOrder(hits, w)
    requires Capped(policies, w, cap)
    requires hits != [] && LastAdmitted(hits, policies[|hits| - 1])
    ensures CountersAfter(hits)[w].Some?
    ensures Spent(Admitted(hits, policies, w), CountersAfter(hits)[w].value.resetAt) <= policies[|hits| - 1][w]
  {
    RunIsGood(hits, policies, w, cap);
    AdmittedUnfolds(hits, policies, w);
    hide Admitted, CountersAfter, Spent;
  }

  /** The hits one window's counter took from a time on. */
  function HitsFrom(hits: seq<Hit>, w: nat, start: int): nat
    requires AreHits(hits) && w < |WINDOWS_MS|
  {
    if hits == [] then 0
    else
      var h := hits[|hits| - 1];
      HitsFrom(hits[..|hits| - 1], w, start) + if h.took[w] && h.times[w] >= start then 1 else 0
  }

  lemma {:induction false} NoHitsFrom(hits: seq<Hit>, w: nat, start: int)
    requires AreHits(hits) && w < |WINDOWS_MS|
    requires forall i :: 0 <= i < |hits| && hits[i].took[w] ==> hits[i].times[w] < start
    ensures HitsFrom(hits, w, start) == 0
  {
    if hits != [] {
      NoHitsFrom(hits[..|hits| - 1], w, start);
    }
  }

  /** A counter holds exactly the hits since its window opened, and every hit it took is older than its reset. */
  lemma {:induction false} CounterIsExact(hits: seq<Hit>, w: nat)
    requires AreHits(hits) && w < |WINDOWS_MS| && InOrder(hits, w)
    ensures var c := CountersAfter(hits)[w];
            && (c.None? ==> forall i :: 0 <= i < |hits| ==> !hits[i].took[w])
            && (c.Some? ==>
                  && c.value.count == HitsFrom(hits, w, c.value.resetAt - WINDOWS_MS[w])
                  && hits != [] && c.value.resetAt - WINDOWS_MS[w] <= hits[|hits| - 1].times[w]
                  && forall i :: 0 <= i < |hits| && hits[i].took[w] ==> hits[i].times[w] < c.value.resetAt)
  {
    if hits != [] {
      var (earlier, h) := (hits[..|hits| - 1], hits[|hits| - 1]);
      CounterIsExact(earlier, w);
      CounterTook(hits, w);
      assert WINDOWS_MS[w] > 0;
      hide CountersAfter;
      var before := CountersAfter(earlier)[w];
      if h.took[w] && (before.None? || before.value.resetAt <= h.times[w]) {
        NoHitsFrom(earlier, w, h.times[w]);
      }
    }
  }

  /** Every counter sees its clock in order. */
  predicate AllInOrder(hits: seq<Hit>)
    requires AreHits(hits)
  {
    forall w :: 0 <= w < |WINDOWS_MS| ==> InOrder(hits, w)
  }

  /**
   A request whose counters all answer is let through exactly when none of its windows holds more hits than its
   limit, the request's own included.
   */
  lemma {:induction false} AdmittedIff(hits: seq<Hit>, limits: seq<nat>)
    requires AreHits(hits) && AllInOrder(hits) && hits != [] && |limits| == |WINDOWS_MS|
    ensures forall w :: 0 <= w < |WINDOWS_MS| && !hits[|hits| - 1].fails ==> CountersAfter(hits)[w].Some?
    ensures LastAdmitted(hits, limits) <==>
              && !hits[|hits| - 1].fails
              && forall w :: 0 <= w < |WINDOWS_MS| ==>
                   HitsFrom(hits, w, CountersAfter(hits)[w].value.resetAt - WINDOWS_MS[w]) <= limits[w]
  {
    hide InOrder, HitsFrom, CountersAfter;
    forall w | 0 <= w < |WINDOWS_MS| && !hits[|hits| - 1].fails
      ensures CountersAfter(hits)[w].Some?
      ensures Exceeds(CountersAfter(hits), limits, w) <==>
                HitsFrom(hits, w, CountersAfter(hits)[w].value.resetAt - WINDOWS_MS[w]) > limits[w]
    {
      CounterIsExact(hits, w);
      CounterTook(hits, w);
    }
  }
}
