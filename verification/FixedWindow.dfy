/**
 What any fixed-window counter grants: at most its limit in one window, and at most twice that in any interval of
 one window's length.
 */
module FixedWindow {
  /** Something granted at a time, out of the window that ends at `resetAt`. */
  datatype Grant = Grant(at: nat, cost: nat, resetAt: nat)

  /** The cost granted out of one window. */
  function Spent(gs: seq<Grant>, resetAt: nat): nat {
    if gs == [] then 0
    else Spent(gs[..|gs| - 1], resetAt) + if gs[|gs| - 1].resetAt == resetAt then gs[|gs| - 1].cost else 0
  }

  /** The cost granted from one time to another, both included. */
  function SpentBetween(gs: seq<Grant>, first: nat, last: nat): nat {
    if gs == [] then 0
    else SpentBetween(gs[..|gs| - 1], first, last) + if first <= gs[|gs| - 1].at <= last then gs[|gs| - 1].cost else 0
  }

  /** Windows are disjoint, `width` long at least from reset to reset, and none is overspent. */
  ghost predicate IsBudget(gs: seq<Grant>, width: nat, limit: nat) {
    && (forall i :: 0 <= i < |gs| ==> gs[i].at < gs[i].resetAt <= gs[i].at + width)
    && (forall i, j :: 0 <= i < j < |gs| ==> gs[i].at <= gs[j].at)
    && (forall i, j :: 0 <= i < j < |gs| ==> gs[i].resetAt == gs[j].resetAt || gs[i].resetAt + width <= gs[j].resetAt)
    && (forall resetAt :: Spent(gs, resetAt) <= limit)
  }

  lemma {:induction false} SpentGrows(gs: seq<Grant>, g: Grant)
    ensures forall r :: Spent(gs + [g], r) == Spent(gs, r) + if g.resetAt == r then g.cost else 0
  {
    assert (gs + [g])[..|gs|] == gs;
  }

  lemma {:induction false} NothingSpentAfter(gs: seq<Grant>, resetAt: nat)
    requires forall i :: 0 <= i < |gs| ==> gs[i].resetAt != resetAt
    ensures Spent(gs, resetAt) == 0
  {
    if gs != [] {
      NothingSpentAfter(gs[..|gs| - 1], resetAt);
    }
  }

  /** One more grant out of the last window, or out of a new one. */
  lemma {:induction false} BudgetGrows(gs: seq<Grant>, g: Grant, width: nat, limit: nat)
    requires IsBudget(gs, width, limit)
    requires g.at < g.resetAt <= g.at + width && Spent(gs, g.resetAt) + g.cost <= limit
    requires forall i :: 0 <= i < |gs| ==>
               gs[i].at <= g.at && (gs[i].resetAt == g.resetAt || gs[i].resetAt + width <= g.resetAt)
    ensures IsBudget(gs + [g], width, limit)
  {
    SpentGrows(gs, g);
    hide Spent;
  }

  /** The next grant comes out of the window of the last one, or opens a window once that one is over. */
  predicate Continues(gs: seq<Grant>, g: Grant, width: nat) {
    && g.at < g.resetAt <= g.at + width
    && (gs != [] ==>
          var last := gs[|gs| - 1];
          last.at <= g.at && (last.resetAt == g.resetAt || (last.resetAt <= g.at && g.resetAt == g.at + width)))
  }

  /** What the window of the next grant has spent so far: nothing when it is a new one. */
  function SpentBefore(gs: seq<Grant>, g: Grant): nat {
    if gs != [] && gs[|gs| - 1].resetAt == g.resetAt then Spent(gs, g.resetAt) else 0
  }

  lemma {:induction false} BudgetContinues(gs: seq<Grant>, g: Grant, width: nat, limit: nat)
    requires IsBudget(gs, width, limit) && Continues(gs, g, width) && SpentBefore(gs, g) + g.cost <= limit
    ensures IsBudget(gs + [g], width, limit) && Spent(gs + [g], g.resetAt) == SpentBefore(gs, g) + g.cost
  {
    SpentGrows(gs, g);
    if gs == [] || gs[|gs| - 1].resetAt != g.resetAt {
      LastIsLatest(gs, g, width, limit);
      NothingSpentAfter(gs, g.resetAt);
    } else {
      LastIsLatest(gs, g, width, limit);
    }
    BudgetGrows(gs, g, width, limit);
  }

  lemma LastIsLatest(gs: seq<Grant>, g: Grant, width: nat, limit: nat)
    requires IsBudget(gs, width, limit) && Continues(gs, g, width)
    ensures forall i :: 0 <= i < |gs| ==>
              && gs[i].at <= g.at && (gs[i].resetAt == g.resetAt || gs[i].resetAt + width <= g.resetAt)
              && (gs[|gs| - 1].resetAt != g.resetAt ==> gs[i].resetAt != g.resetAt)
  {
    hide Spent;
    if gs != [] {
      var last := gs[|gs| - 1];
      assert forall i :: 0 <= i < |gs| - 1 ==>
               gs[i].at <= last.at && (gs[i].resetAt == last.resetAt || gs[i].resetAt + width <= last.resetAt);
    }
  }

  /** The cost granted out of windows that are still open. */
  function SpentOpen(gs: seq<Grant>, now: nat): nat {
    if gs == [] then 0
    else SpentOpen(gs[..|gs| - 1], now) + if gs[|gs| - 1].resetAt > now then gs[|gs| - 1].cost else 0
  }

  lemma {:induction false} OpenIsOne(gs: seq<Grant>, now: nat, resetAt: nat)
    requires forall i :: 0 <= i < |gs| ==> (gs[i].resetAt > now <==> gs[i].resetAt == resetAt)
    ensures SpentOpen(gs, now) == Spent(gs, resetAt)
  {
    if gs != [] {
      OpenIsOne(gs[..|gs| - 1], now, resetAt);
    }
  }

  /** Only the window of the last grant can still be open. */
  lemma {:induction false} OpenIsLast(gs: seq<Grant>, now: nat, width: nat, limit: nat)
    requires IsBudget(gs, width, limit) && forall i :: 0 <= i < |gs| ==> gs[i].at <= now
    ensures SpentOpen(gs, now) == if gs != [] && gs[|gs| - 1].resetAt > now then Spent(gs, gs[|gs| - 1].resetAt) else 0
  {
    if gs != [] {
      var last := gs[|gs| - 1];
      forall i | 0 <= i < |gs| - 1 ensures gs[i].resetAt == last.resetAt || gs[i].resetAt <= now {
        assert last.resetAt <= last.at + width;
      }
      if last.resetAt > now {
        OpenIsOne(gs, now, last.resetAt);
      } else {
        NoneOpen(gs, now);
      }
    }
  }

  lemma {:induction false} NoneOpen(gs: seq<Grant>, now: nat)
    requires forall i :: 0 <= i < |gs| ==> gs[i].resetAt <= now
    ensures SpentOpen(gs, now) == 0
  {
    if gs != [] {
      NoneOpen(gs[..|gs| - 1], now);
    }
  }

  lemma {:induction false} TwoWindowsCover(gs: seq<Grant>, first: nat, last: nat, r1: nat, r2: nat)
    requires forall i :: 0 <= i < |gs| && first <= gs[i].at <= last ==> gs[i].resetAt == r1 || gs[i].resetAt == r2
    ensures SpentBetween(gs, first, last) <= Spent(gs, r1) + Spent(gs, r2)
  {
    if gs != [] {
      TwoWindowsCover(gs[..|gs| - 1], first, last, r1, r2);
    }
  }

  /** Any interval as long as the window meets two windows at most. */
  lemma AtMostTwice(gs: seq<Grant>, width: nat, limit: nat, first: nat)
    requires IsBudget(gs, width, limit)
    ensures SpentBetween(gs, first, first + width) <= 2 * limit
  {
    var last := first + width;
    if i :| 0 <= i < |gs| && first <= gs[i].at <= last && forall k :: 0 <= k < i ==> !(first <= gs[k].at <= last) {
      var r1 := gs[i].resetAt;
      if j :| i < j < |gs| && first <= gs[j].at <= last && gs[j].resetAt != r1 {
        var r2 := gs[j].resetAt;
        forall k | 0 <= k < |gs| && first <= gs[k].at <= last ensures gs[k].resetAt == r1 || gs[k].resetAt == r2 {
          assert k >= i;
          assert gs[k].resetAt <= gs[k].at + width && gs[j].resetAt <= gs[j].at + width;
        }
        TwoWindowsCover(gs, first, last, r1, r2);
      } else {
        TwoWindowsCover(gs, first, last, r1, r1);
      }
    } else {
      NoneInside(gs, first, last);
      TwoWindowsCover(gs, first, last, 0, 0);
    }
  }

  /** No window ends inside the interval, its start left out. */
  ghost predicate NoResetIn(gs: seq<Grant>, first: nat, last: nat) {
    forall i :: 0 <= i < |gs| ==> !(first < gs[i].resetAt <= last)
  }

  /** An interval in which no window is replaced by the next, however long, stays within the limit. */
  lemma {:induction false} AtMostOnce(gs: seq<Grant>, width: nat, limit: nat, first: nat, last: nat)
    requires IsBudget(gs, width, limit) && NoResetIn(gs, first, last)
    ensures SpentBetween(gs, first, last) <= limit
  {
    if i :| 0 <= i < |gs| && first <= gs[i].at <= last {
      forall k | 0 <= k < |gs| && first <= gs[k].at <= last ensures gs[k].resetAt == gs[i].resetAt {
        assert gs[k].at < gs[k].resetAt <= gs[k].at + width && gs[i].at < gs[i].resetAt <= gs[i].at + width;
      }
      OneWindowCovers(gs, first, last, gs[i].resetAt);
    } else {
      OneWindowCovers(gs, first, last, 0);
    }
  }

  lemma {:induction false} OneWindowCovers(gs: seq<Grant>, first: nat, last: nat, resetAt: nat)
    requires forall i :: 0 <= i < |gs| && first <= gs[i].at <= last ==> gs[i].resetAt == resetAt
    ensures SpentBetween(gs, first, last) <= Spent(gs, resetAt)
  {
    if gs != [] {
      OneWindowCovers(gs[..|gs| - 1], first, last, resetAt);
    }
  }

  lemma {:induction false} NoneInside(gs: seq<Grant>, first: nat, last: nat)
    requires !exists i :: 0 <= i < |gs| && first <= gs[i].at <= last
                          && forall k :: 0 <= k < i ==> !(first <= gs[k].at <= last)
    ensures forall i :: 0 <= i < |gs| ==> !(first <= gs[i].at <= last)
  {
    var n := 0;
    while n < |gs|
      invariant 0 <= n <= |gs|
      invariant forall k :: 0 <= k < n ==> !(first <= gs[k].at <= last)
    {
      n := n + 1;
    }
  }
}
