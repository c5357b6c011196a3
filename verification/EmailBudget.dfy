/** The daily recipient budget of the bulk e-mail route: a get and a set around one comparison. */
module EmailBudget {
  import opened Wrappers
  import opened FixedWindow

  const WINDOW_MS: nat := 86_400_000

  /** The stored record, and when the store drops it. */
  datatype Kept = Kept(count: nat, resetAt: nat, expiresAt: nat)

  /**
   One call: its clock reading, the times at which the store answers its get and its set, and whether a
   failing store answered the get with null or dropped the set.
   */
  datatype Call = Call(now: nat, readAt: nat, writeAt: nat, count: nat, lost: bool, dropped: bool)

  datatype Decision = Decision(allowed: bool, remaining: nat, resetAt: nat)

  // ---------------------------------------------------------------- one call

  /** What the get answers. */
  function Read(store: Option<Kept>, c: Call): Option<Kept> {
    if store.Some? && !c.lost && c.readAt <= store.value.expiresAt then store else None
  }

  /** The window the call counts into: what it has used, and its end. */
  function Window(store: Option<Kept>, c: Call): (nat, nat) {
    var existing := Read(store, c);
    if existing.Some? && existing.value.resetAt > c.now then (existing.value.count, existing.value.resetAt)
    else (0, c.now + WINDOW_MS)
  }

  /** max(1, ceil(ms / 1000)) */
  function TtlSeconds(ms: nat): nat {
    if ms == 0 then 1 else (ms + 999) / 1000
  }

  function Check(store: Option<Kept>, c: Call, limit: nat): (Option<Kept>, Decision) {
    var (used, resetAt) := Window(store, c);
    if used + c.count > limit then (store, Decision(false, if limit > used then limit - used else 0, resetAt))
    else
      var ttl := TtlSeconds(if resetAt > c.now then resetAt - c.now else 0);
      (if c.dropped then store else Some(Kept(used + c.count, resetAt, c.writeAt + ttl * 1000)),
       Decision(true, limit - used - c.count, resetAt))
  }

  class Budget {
    var store: Option<Kept>

    constructor ()
      ensures store == None
    {
      store := None;
    }

    method CheckDailyBudget(c: Call, limit: nat) returns (d: Decision)
      modifies this
      ensures (store, d) == Check(old(store), c, limit)
      ensures !d.allowed ==> store == old(store)
    {
      var existing := Read(store, c);
      var used, resetAt := 0, c.now + WINDOW_MS;
      if existing.Some? && existing.value.resetAt > c.now {
        used := existing.value.count;
        resetAt := existing.value.resetAt;
      }
      if used + c.count > limit {
        return Decision(false, if limit > used then limit - used else 0, resetAt);
      }
      if !c.dropped { store := Some(Kept(used + c.count, resetAt, c.writeAt + TtlSeconds(resetAt - c.now) * 1000)); }
      return Decision(true, limit - used - c.count, resetAt);
    }
  }

  // ---------------------------------------------------------------- runs of calls

  datatype State = State(store: Option<Kept>, grants: seq<Grant>)

  function After(s: State, c: Call, limit: nat): State {
    var (store, d) := Check(s.store, c, limit);
    State(store, if d.allowed then s.grants + [Grant(c.now, c.count, d.resetAt)] else s.grants)
  }

  function RunOf(calls: seq<Call>, limit: nat): State {
    if calls == [] then State(None, []) else After(RunOf(calls[..|calls| - 1], limit), calls[|calls| - 1], limit)
  }

  lemma {:induction false} RunGrows(calls: seq<Call>, c: Call, limit: nat)
    ensures RunOf(calls + [c], limit) == After(RunOf(calls, limit), c, limit)
  {
    assert (calls + [c])[..|calls|] == calls;
  }

  /** Each call is over before the next one reads the clock. */
  ghost predicate IsSequential(calls: seq<Call>) {
    && (forall i :: 0 <= i < |calls| ==> calls[i].now <= calls[i].readAt <= calls[i].writeAt)
    && (forall i, j :: 0 <= i < j < |calls| ==> calls[i].writeAt <= calls[j].now)
  }

  /** A record whose window is open at the call's clock reading reaches its get, and its set is kept. */
  predicate IsServed(store: Option<Kept>, c: Call) {
    (store.Some? && c.now < store.value.resetAt ==> !c.lost && c.readAt <= store.value.expiresAt) && !c.dropped
  }

  ghost predicate AllServed(calls: seq<Call>, limit: nat) {
    forall i :: 0 <= i < |calls| ==> IsServed(RunOf(calls[..i], limit).store, calls[i])
  }

  ghost predicate IsGood(s: State, limit: nat, now: nat) {
    && IsBudget(s.grants, WINDOW_MS, limit)
    && (s.store.None? ==> s.grants == [])
    && (s.store.Some? ==>
          && s.store.value.count == Spent(s.grants, s.store.value.resetAt) <= limit
          && s.store.value.expiresAt >= s.store.value.resetAt
          && |s.grants| > 0 && s.grants[|s.grants| - 1].resetAt == s.store.value.resetAt)
    && (forall i :: 0 <= i < |s.grants| ==> s.grants[i].at <= now)
  }

  lemma TtlCovers(ms: nat)
    ensures TtlSeconds(ms) * 1000 >= ms
  {
  }

  /** An allowed call counts into the last window, or opens one after it. */
  lemma AllowedContinues(s: State, c: Call, limit: nat, before: nat)
    requires IsGood(s, limit, before) && before <= c.now <= c.readAt <= c.writeAt && IsServed(s.store, c)
    requires Check(s.store, c, limit).1.allowed
    ensures var g := Grant(c.now, c.count, Window(s.store, c).1);
            && After(s, c, limit).grants == s.grants + [g]
            && Continues(s.grants, g, WINDOW_MS)
            && SpentBefore(s.grants, g) == Window(s.store, c).0
  {
    hide Spent;
    if s.grants != [] {
      var last := s.grants[|s.grants| - 1];
      assert last.at < last.resetAt <= last.at + WINDOW_MS && last.at <= before;
    }
  }

  lemma StaysGood(s: State, c: Call, limit: nat, before: nat)
    requires IsGood(s, limit, before) && before <= c.now <= c.readAt <= c.writeAt && IsServed(s.store, c)
    ensures IsGood(After(s, c, limit), limit, c.writeAt)
  {
    hide Spent, IsBudget, Continues, SpentBefore, TtlSeconds;
    if Check(s.store, c, limit).1.allowed {
      var (used, resetAt) := Window(s.store, c);
      AllowedContinues(s, c, limit, before);
      BudgetContinues(s.grants, Grant(c.now, c.count, resetAt), WINDOW_MS, limit);
      TtlCovers(if resetAt > c.now then resetAt - c.now else 0);
    }
  }

  lemma EarlierCalls(calls: seq<Call>, c: Call)
    requires IsSequential(calls + [c])
    ensures IsSequential(calls)
    ensures (calls != [] ==> calls[|calls| - 1].writeAt <= c.now) && c.now <= c.readAt <= c.writeAt
  {
    var all := calls + [c];
    assert all[|calls|] == c && forall i :: 0 <= i < |calls| ==> calls[i] == all[i];
  }

  lemma {:induction false} EarlierServed(calls: seq<Call>, c: Call, limit: nat)
    requires AllServed(calls + [c], limit)
    ensures AllServed(calls, limit) && IsServed(RunOf(calls, limit).store, c)
  {
    hide RunOf, IsServed;
    var all := calls + [c];
    assert all[..|calls|] == calls && all[|calls|] == c;
    forall i | 0 <= i < |calls| ensures IsServed(RunOf(calls[..i], limit).store, calls[i]) {
      assert calls[..i] == all[..i] && calls[i] == all[i];
    }
  }

  lemma {:induction false} NothingYetIsGood(limit: nat)
    ensures IsGood(RunOf([], limit), limit, 0)
  {
  }

  lemma {:induction false} RunIsGood(calls: seq<Call>, limit: nat)
    requires IsSequential(calls) && AllServed(calls, limit)
    ensures IsGood(RunOf(calls, limit), limit, if calls == [] then 0 else calls[|calls| - 1].writeAt)
  {
    hide *;
    if calls == [] {
      NothingYetIsGood(limit);
    } else {
      var (earlier, last) := (calls[..|calls| - 1], calls[|calls| - 1]);
      assert calls == earlier + [last];
      RunGrows(earlier, last, limit);
      EarlierCalls(earlier, last);
      EarlierServed(earlier, last, limit);
      RunIsGood(earlier, limit);
      StaysGood(RunOf(earlier, limit), last, limit, if earlier == [] then 0 else earlier[|earlier| - 1].writeAt);
    }
  }

  /** The recipients allowed never exceed the limit in one window, nor twice the limit in any 24 hours. */
  lemma RecipientsAreBounded(calls: seq<Call>, limit: nat, resetAt: nat, first: nat)
    requires IsSequential(calls) && AllServed(calls, limit)
    ensures Spent(RunOf(calls, limit).grants, resetAt) <= limit
    ensures SpentBetween(RunOf(calls, limit).grants, first, first + WINDOW_MS) <= 2 * limit
  {
    RunIsGood(calls, limit);
    hide RunOf, Spent, SpentBetween;
    AtMostTwice(RunOf(calls, limit).grants, WINDOW_MS, limit, first);
  }

  /**
   A call is allowed exactly when its recipients and those of the windows still open stay within the limit, and it
   is told what they leave of it.
   */
  lemma {:induction false} AllowedIff(calls: seq<Call>, c: Call, limit: nat)
    requires IsSequential(calls + [c]) && AllServed(calls + [c], limit)
    ensures var s := RunOf(calls, limit);
            && (Check(s.store, c, limit).1.allowed <==> SpentOpen(s.grants, c.now) + c.count <= limit)
            && Check(s.store, c, limit).1.remaining
               == limit - SpentOpen(s.grants, c.now) - if Check(s.store, c, limit).1.allowed then c.count else 0
  {
    EarlierCalls(calls, c);
    EarlierServed(calls, c, limit);
    hide *;
    RunIsGood(calls, limit);
    OpenMatches(RunOf(calls, limit), c, limit, if calls == [] then 0 else calls[|calls| - 1].writeAt);
  }

  lemma OpenMatches(s: State, c: Call, limit: nat, before: nat)
    requires IsGood(s, limit, before) && before <= c.now <= c.readAt && IsServed(s.store, c)
    ensures var d := Check(s.store, c, limit).1;
            && (d.allowed <==> SpentOpen(s.grants, c.now) + c.count <= limit)
            && d.remaining == limit - SpentOpen(s.grants, c.now) - if d.allowed then c.count else 0
  {
    OpenIsLast(s.grants, c.now, WINDOW_MS, limit);
    hide Spent, SpentOpen;
  }

  /** An interval in which no window is replaced by the next stays within the limit. */
  lemma {:induction false} OneWindowIsBounded(calls: seq<Call>, limit: nat, first: nat, last: nat)
    requires IsSequential(calls) && AllServed(calls, limit) && NoResetIn(RunOf(calls, limit).grants, first, last)
    ensures SpentBetween(RunOf(calls, limit).grants, first, last) <= limit
  {
    RunIsGood(calls, limit);
    hide RunOf, SpentBetween;
    AtMostOnce(RunOf(calls, limit).grants, WINDOW_MS, limit, first, last);
  }

  // ---------------------------------------------------------------- where the rolling budget fails

  /** A call that the store serves at once. */
  function At(now: nat, count: nat): Call {
    Call(now, now, now, count, false, false)
  }

  /** A window opened by an empty call, filled at its last moment, and the next one filled at its first. */
  function TwiceCalls(reset: nat, limit: nat): seq<Call>
    requires reset >= WINDOW_MS
  {
    [At(reset - WINDOW_MS, 0), At(reset - 1, limit), At(reset, limit)]
  }

  lemma {:induction false} RunStep(calls: seq<Call>, n: nat, limit: nat)
    requires n < |calls|
    ensures RunOf(calls[..n + 1], limit) == After(RunOf(calls[..n], limit), calls[n], limit)
  {
    assert calls[..n + 1] == calls[..n] + [calls[n]];
    RunGrows(calls[..n], calls[n], limit);
  }

  lemma {:induction false} TwiceRun(reset: nat, limit: nat)
    requires reset >= WINDOW_MS
    ensures RunOf(TwiceCalls(reset, limit)[..0], limit).store == None
    ensures RunOf(TwiceCalls(reset, limit)[..1], limit).store == Some(Kept(0, reset, reset))
    ensures RunOf(TwiceCalls(reset, limit)[..2], limit).store == Some(Kept(limit, reset, reset + 999))
    ensures RunOf(TwiceCalls(reset, limit), limit).grants
            == [Grant(reset - WINDOW_MS, 0, reset), Grant(reset - 1, limit, reset),
                Grant(reset, limit, reset + WINDOW_MS)]
  {
    var (w, calls) := (WINDOW_MS, TwiceCalls(reset, limit));
    var g := Grant(reset - w, 0, reset);
    assert TtlSeconds(w) == 86_400 && TtlSeconds(1) == 1;
    assert calls[..0] == [] && RunOf([], limit) == State(None, []) && calls[..3] == calls;
    hide RunOf, TtlSeconds;
    RunStep(calls, 0, limit);
    assert RunOf(calls[..1], limit) == State(Some(Kept(0, reset, reset)), [g]);
    RunStep(calls, 1, limit);
    assert RunOf(calls[..2], limit) ==
      State(Some(Kept(limit, reset, reset + 999)), [g, Grant(reset - 1, limit, reset)]);
    RunStep(calls, 2, limit);
  }

  lemma TwiceIsServed(reset: nat, limit: nat)
    requires reset >= WINDOW_MS
    ensures IsSequential(TwiceCalls(reset, limit)) && AllServed(TwiceCalls(reset, limit), limit)
  {
    TwiceRun(reset, limit);
    hide RunOf;
  }

  /** Twice the limit inside any interval that a window's end falls into, with every call served at once. */
  lemma {:induction false} TwiceIsReached(reset: nat, limit: nat, first: nat, last: nat)
    requires reset >= WINDOW_MS && first < reset <= last
    ensures IsSequential(TwiceCalls(reset, limit)) && AllServed(TwiceCalls(reset, limit), limit)
    ensures !NoResetIn(RunOf(TwiceCalls(reset, limit), limit).grants, first, last)
    ensures SpentBetween(RunOf(TwiceCalls(reset, limit), limit).grants, first, last) == 2 * limit
  {
    TwiceIsServed(reset, limit);
    TwiceRun(reset, limit);
    var gs := RunOf(TwiceCalls(reset, limit), limit).grants;
    hide RunOf;
    assert gs[0].resetAt == reset;
    var (g1, g2) := (gs[..1], gs[..2]);
    assert g2[..1] == g1 && g1[..0] == [];
    assert SpentBetween(g1, first, last) == 0;
    assert SpentBetween(g2, first, last) == limit;
  }

  /**
   Calls at one moment, each for the whole limit, whose gets a failing store answers with null, or whose sets it
   drops.
   */
  function Unserved(n: nat, now: nat, limit: nat, lost: bool): seq<Call> {
    if n == 0 then [] else Unserved(n - 1, now, limit, lost) + [Call(now, now, now, limit, lost, !lost)]
  }

  lemma {:induction false} UnservedCalls(n: nat, now: nat, limit: nat, lost: bool)
    ensures |Unserved(n, now, limit, lost)| == n
    ensures forall i :: 0 <= i < n ==> Unserved(n, now, limit, lost)[i] == Call(now, now, now, limit, lost, !lost)
  {
    if n > 0 { UnservedCalls(n - 1, now, limit, lost); }
  }

  /** Such a call finds no record and opens a window for itself. */
  lemma UnservedCall(s: State, now: nat, limit: nat, lost: bool)
    requires lost || s.store == None
    ensures var s' := After(s, Call(now, now, now, limit, lost, !lost), limit);
            && s'.grants == s.grants + [Grant(now, limit, now + WINDOW_MS)]
            && (if lost then s'.store.Some? && s'.store.value.resetAt == now + WINDOW_MS else s'.store == None)
  {
  }

  lemma {:induction false} OneMoreSpent(gs: seq<Grant>, g: Grant)
    ensures Spent(gs + [g], g.resetAt) == Spent(gs, g.resetAt) + g.cost
    ensures SpentBetween(gs + [g], g.at, g.at) == SpentBetween(gs, g.at, g.at) + g.cost
  {
    assert (gs + [g])[..|gs|] == gs;
  }

  lemma Once(n: nat, limit: nat)
    ensures n * limit == (n - 1) * limit + limit
  {
  }

  lemma {:induction false} UnservedRun(n: nat, now: nat, limit: nat, lost: bool)
    ensures var s := RunOf(Unserved(n, now, limit, lost), limit);
            && (!lost ==> s.store == None)
            && (lost && n > 0 ==> s.store.Some? && s.store.value.resetAt == now + WINDOW_MS)
            && Spent(s.grants, now + WINDOW_MS) == n * limit && SpentBetween(s.grants, now, now) == n * limit
  {
    if n == 0 {
      assert RunOf(Unserved(0, now, limit, lost), limit) == State(None, []);
    } else {
      var (c, earlier) := (Call(now, now, now, limit, lost, !lost), Unserved(n - 1, now, limit, lost));
      assert Unserved(n, now, limit, lost) == earlier + [c];
      hide *;
      RunGrows(earlier, c, limit);
      UnservedRun(n - 1, now, limit, lost);
      var s := RunOf(earlier, limit);
      UnservedCall(s, now, limit, lost);
      OneMoreSpent(s.grants, Grant(now, limit, now + WINDOW_MS));
      Once(n, limit);
    }
  }

  lemma {:induction false} SecondIsUnserved(n: nat, now: nat, limit: nat, lost: bool)
    requires n >= 2
    ensures !AllServed(Unserved(n, now, limit, lost), limit)
  {
    var calls := Unserved(n, now, limit, lost);
    UnservedCalls(n, now, limit, lost);
    UnservedRun(n - 1, now, limit, lost);
    assert calls[..n - 1] == Unserved(n - 1, now, limit, lost) by { UnservedCalls(n - 1, now, limit, lost); }
    hide RunOf, Unserved, Spent, SpentBetween;
    assert !IsServed(RunOf(calls[..n - 1], limit).store, calls[n - 1]);
  }

  /** A store that loses gets, or drops sets, lets any multiple of the limit through one window at one moment. */
  lemma {:induction false} UnservedOverspends(n: nat, now: nat, limit: nat, lost: bool)
    ensures IsSequential(Unserved(n, now, limit, lost)) && (n >= 2 ==> !AllServed(Unserved(n, now, limit, lost), limit))
    ensures Spent(RunOf(Unserved(n, now, limit, lost), limit).grants, now + WINDOW_MS) == n * limit
    ensures SpentBetween(RunOf(Unserved(n, now, limit, lost), limit).grants, now, now) == n * limit
  {
    assert IsSequential(Unserved(n, now, limit, lost)) by {
      hide Unserved;
      UnservedCalls(n, now, limit, lost);
    }
    hide *;
    UnservedRun(n, now, limit, lost);
    if n >= 2 { SecondIsUnserved(n, now, limit, lost); }
  }

  /** Two calls fill a window of two; the others are read after the record they count into expired. */
  function LateCalls(): seq<Call> {
    var w := WINDOW_MS;
    [At(0, 1), At(w - 2, 1), Call(w - 1, w + 1000, w + 1000, 2, false, false),
     Call(2 * w - 2, 2 * w + 1001, 2 * w + 1001, 2, false, false)]
  }

  function LateGrants(): seq<Grant> {
    var w := WINDOW_MS;
    [Grant(0, 1, w), Grant(w - 2, 1, w), Grant(w - 1, 2, 2 * w - 1), Grant(2 * w - 2, 2, 3 * w - 2)]
  }

  lemma LateRun()
    ensures RunOf(LateCalls()[..2], 2).store == Some(Kept(2, WINDOW_MS, WINDOW_MS + 998))
    ensures RunOf(LateCalls(), 2).grants == LateGrants()
  {
    var (w, calls) := (WINDOW_MS, LateCalls());
    assert TtlSeconds(w) == 86_400 && TtlSeconds(2) == 1;
    assert calls[..0] == [] && RunOf([], 2) == State(None, []) && calls[..4] == calls;
    hide RunOf, TtlSeconds;
    RunStep(calls, 0, 2);
    assert RunOf(calls[..1], 2) == State(Some(Kept(1, w, w)), [Grant(0, 1, w)]);
    RunStep(calls, 1, 2);
    assert RunOf(calls[..2], 2) == State(Some(Kept(2, w, w + 998)), [Grant(0, 1, w), Grant(w - 2, 1, w)]);
    RunStep(calls, 2, 2);
    assert RunOf(calls[..3], 2) == State(Some(Kept(2, 2 * w - 1, 2 * w + 1000)), LateGrants()[..3]);
    RunStep(calls, 3, 2);
  }

  /** A record read after it expired, though the call's clock was still inside its window, opens a window early. */
  lemma LateReadOverspends()
    ensures IsSequential(LateCalls()) && !AllServed(LateCalls(), 2)
    ensures SpentBetween(RunOf(LateCalls(), 2).grants, WINDOW_MS - 2, 2 * WINDOW_MS - 2) == 5 > 2 * 2
  {
    LateRun();
    assert !IsServed(RunOf(LateCalls()[..2], 2).store, LateCalls()[2]);
    hide RunOf;
    FourSpent(LateGrants(), WINDOW_MS - 2, 2 * WINDOW_MS - 2);
  }

  lemma {:induction false} FourSpent(gs: seq<Grant>, first: nat, last: nat)
    requires |gs| == 4
    requires gs[0].at < first && first <= gs[1].at <= last && first <= gs[2].at <= last && first <= gs[3].at <= last
    ensures SpentBetween(gs, first, last) == gs[1].cost + gs[2].cost + gs[3].cost
  {
    var (g1, g2, g3) := (gs[..1], gs[..2], gs[..3]);
    assert g3[..2] == g2 && g2[..1] == g1 && g1[..0] == [];
    assert SpentBetween(g1, first, last) == 0;
    assert SpentBetween(g2, first, last) == gs[1].cost;
    assert SpentBetween(g3, first, last) == gs[1].cost + gs[2].cost;
  }
}
