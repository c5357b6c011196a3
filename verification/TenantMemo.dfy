/** The memo of a request or job: which snapshot a lookup may take from it, and how old that can be. */
module TenantMemo {
  import opened Wrappers
  import opened TenantConfig
  import opened PoolCache
  import opened TenantProtocol

  // ---------------------------------------------------------------- what is remembered

  /** What a step leaves in context `c`: the snapshot a lookup of the context's own organization has just read. */
  function Remembers(s: State, step: Step, s': State, c: nat): Option<Memo> {
    match step
    case ResumeRead(l, at) =>
      if l < |s.searches| && l < |s'.searches| && s.searches[l].ctx == Some(c)
         && c < |s.contexts| && s.contexts[c].orgId == s.searches[l].key
         && s'.searches[l].phase.Resolved? && s'.searches[l].phase.snapshot.Some?
      then
        var snap := s'.searches[l].phase.snapshot.value;
        Some(Memo(s.searches[l].key, snap.generation, at, snap))
      else None
    case _ => None
  }

  /** A step changes a memo exactly when it remembers something there. */
  lemma MemoStep(env: Env, s: State, step: Step, c: nat)
    requires InRange(s) && Enabled(s, step)
    ensures var s' := Apply(env, s, step);
            && |s.contexts| <= |s'.contexts|
            && (c < |s.contexts| ==>
                  && s'.contexts[c].orgId == s.contexts[c].orgId
                  && s'.contexts[c].memo == (if Remembers(s, step, s', c).Some? then Remembers(s, step, s', c)
                                             else s.contexts[c].memo))
            && (|s.contexts| <= c ==> Remembers(s, step, s', c) == None)
            && (|s.contexts| <= c < |s'.contexts| ==> s'.contexts[c].memo == None)
  {
    hide Tail, Start, Invalidate;
  }

  ghost function RemembersAt(run: Run, j: nat, c: nat): Option<Memo>
    requires j < |run.steps| < |run.states|
  {
    Remembers(run.states[j], run.steps[j], run.states[j + 1], c)
  }

  /** The last thing remembered in the context before state `n`, by step `j`. */
  ghost predicate LastMemo(run: Run, n: nat, c: nat, memo: Memo, j: nat)
    requires n <= |run.steps| < |run.states|
  {
    j < n && RemembersAt(run, j, c) == Some(memo) && forall i :: j < i < n ==> RemembersAt(run, i, c) == None
  }

  lemma {:induction false} MemoIsLast(env: Env, run: Run, n: nat, c: nat)
    requires IsRun(env, run) && n <= |run.steps|
    ensures c < |run.states[n].contexts| && run.states[n].contexts[c].memo.Some? ==>
              exists j :: LastMemo(run, n, c, run.states[n].contexts[c].memo.value, j)
    ensures |run.states[n].contexts| <= c || run.states[n].contexts[c].memo.None? ==>
              forall j :: 0 <= j < n ==> RemembersAt(run, j, c) == None
    decreases n
  {
    if n > 0 {
      MemoIsLast(env, run, n - 1, c);
      var (s, step, s') := (run.states[n - 1], run.steps[n - 1], run.states[n]);
      assert s' == Apply(env, s, step) && Enabled(s, step);
      hide Apply, Enabled, Remembers;
      MemoStep(env, s, step, c);
      if c < |s'.contexts| && s'.contexts[c].memo.Some? {
        var memo := s'.contexts[c].memo.value;
        if RemembersAt(run, n - 1, c).Some? {
          assert LastMemo(run, n, c, memo, n - 1);
        } else {
          var j :| LastMemo(run, n - 1, c, memo, j);
          assert LastMemo(run, n, c, memo, j);
        }
      }
    }
  }

  lemma OneLastMemo(run: Run, n: nat, c: nat, a: Memo, i: nat, b: Memo, j: nat)
    requires n <= |run.steps| < |run.states| && LastMemo(run, n, c, a, i) && LastMemo(run, n, c, b, j)
    ensures a == b && i == j
  {
    hide RemembersAt;
  }

  // ---------------------------------------------------------------- when it answers

  /** The context's last memo is of the organization, at its generation now, and no older than the limit. */
  ghost predicate Answers(env: Env, run: Run, n: nat, q: Search, now: int, memo: Memo, j: nat)
    requires n <= |run.steps| < |run.states|
  {
    && q.ctx.Some? && LastMemo(run, n, q.ctx.value, memo, j)
    && memo.key == q.key && memo.generation == Gen(run.states[n], q.key) && now - memo.at <= env.maxAgeMs
  }

  /** How a lookup starts: without an organization, from the memo, or with a read of the registry. */
  ghost predicate StartsRight(env: Env, run: Run, n: nat, q: Search, cost: nat, now: int)
    requires n <= |run.steps| < |run.states|
  {
    && (q.key == 0 ==> q.phase == Resolved(None) && q.readCount == cost)
    && (q.key != 0 ==>
          && (forall memo, j :: Answers(env, run, n, q, now, memo, j) ==>
                q.phase == Resolved(Some(memo.snapshot)) && q.readCount == cost)
          && ((forall memo, j :: !Answers(env, run, n, q, now, memo, j)) ==>
                q.phase == Reading(0, Gen(run.states[n], q.key)) && q.readCount == cost + 1))
  }

  lemma StartIsRight(env: Env, run: Run, n: nat, q: Search, now: int)
    requires IsRun(env, run) && n <= |run.steps|
    ensures StartsRight(env, run, n, Start(env, run.states[n], q, now), q.readCount, now)
  {
    var s := run.states[n];
    var q' := Start(env, s, q, now);
    if q.ctx.Some? {
      var c := q.ctx.value;
      MemoIsLast(env, run, n, c);
      var held := if c < |s.contexts| then s.contexts[c].memo else None;
      hide IsRun, Remembers;
      forall memo, j | LastMemo(run, n, c, memo, j) ensures held == Some(memo) {
        if held.Some? {
          var i :| LastMemo(run, n, c, held.value, i);
          OneLastMemo(run, n, c, memo, j, held.value, i);
        }
      }
      if held.Some? {
        var i :| LastMemo(run, n, c, held.value, i);
        assert Answers(env, run, n, q', now, held.value, i) || !Answers(env, run, n, q', now, held.value, i);
      }
    }
  }

  /** A lookup reads the registry when it begins exactly when its context has no memo that may answer. */
  lemma LookupAsksMemo(env: Env, run: Run, n: nat, key: Key, ctx: Option<nat>, now: int)
    requires IsRun(env, run) && n < |run.steps| && run.steps[n] == BeginLookup(key, ctx, now)
    ensures var (s, s') := (run.states[n], run.states[n + 1]);
            && |s'.searches| == |s.searches| + 1
            && var q := s'.searches[|s.searches|];
               q.key == key && q.ctx == ctx && StartsRight(env, run, n, q, 0, now)
  {
    var s := run.states[n];
    assert Enabled(s, run.steps[n]) && run.states[n + 1] == Apply(env, s, run.steps[n]);
    StartIsRight(env, run, n, Search(key, ctx, Failed, 0, Gen(s, key)), now);
    hide StartsRight, IsRun, MemoFor;
  }

  /** The same when getTenantPool starts over because the generation moved. */
  lemma LookupAsksAgain(env: Env, run: Run, n: nat, l: nat, now: int)
    requires IsRun(env, run) && n < |run.steps| && run.steps[n] == ResumeTail(l, now)
    requires !run.states[n + 1].searches[l].phase.Returned?
    ensures var (before, q) := (run.states[n].searches[l], run.states[n + 1].searches[l]);
            q.key == before.key && q.ctx == before.ctx && StartsRight(env, run, n, q, before.readCount, now)
  {
    var s := run.states[n];
    assert Enabled(s, run.steps[n]) && run.states[n + 1] == TailStep(env, s, l, now);
    StartIsRight(env, run, n, s.searches[l], now);
    hide StartsRight, IsRun, MemoFor, Tail, Normalize;
  }

  // ---------------------------------------------------------------- how old an answer is

  /** A row on its way back is what the registry held when it was read. */
  lemma {:induction false} RowWasRead(env: Env, run: Run, n: nat, l: nat) returns (i: nat)
    requires IsRun(env, run) && n <= |run.steps|
    requires l < |run.states[n].searches| && run.states[n].searches[l].phase.Fetched?
    ensures i < n && run.steps[i] == ReadRow(l)
    ensures var q := run.states[n].searches[l]; q.phase.row == RowOf(run.states[i], q.key)
    decreases n
  {
    var (s, step) := (run.states[n - 1], run.steps[n - 1]);
    assert Enabled(s, step) && run.states[n] == Apply(env, s, step);
    hide Tail, Invalidate, Normalize, MemoFor, Remember;
    if step == ReadRow(l) {
      i := n - 1;
    } else {
      assert l < |s.searches| && s.searches[l] == run.states[n].searches[l];
      i := RowWasRead(env, run, n - 1, l);
    }
  }

  /** Steps `i` and `j` read the row and remembered the snapshot it gives. */
  ghost predicate RowBehind(env: Env, run: Run, key: Key, snap: Snapshot, at: int, i: nat, j: nat)
    requires |run.steps| < |run.states|
  {
    && i < j < |run.steps| && run.steps[i].ReadRow? && run.steps[j] == ResumeRead(run.steps[i].l, at)
    && Normalize(RowOf(run.states[i], key), env.decrypt) == Ok(snap.value)
    && snap.fingerprint == FingerprintOf(key, RowOf(run.states[i], key))
    && snap.generation == Gen(run.states[j], key)
  }

  lemma MemoHasRow(env: Env, run: Run, n: nat, c: nat, memo: Memo, j: nat) returns (i: nat)
    requires IsRun(env, run) && n <= |run.steps| && LastMemo(run, n, c, memo, j)
    ensures RowBehind(env, run, memo.key, memo.snapshot, memo.at, i, j)
    ensures memo.generation == memo.snapshot.generation
  {
    var (s, step) := (run.states[j], run.steps[j]);
    assert Enabled(s, step) && run.states[j + 1] == Apply(env, s, step);
    i := RowWasRead(env, run, j, step.l);
    hide Tail, Invalidate, IsRun, Start, Remember, Normalize;
  }

  /**
   A lookup that is resolved without a read of its own answers with a row that was read, and then remembered at
   a clock no further back than the limit: a row changed by another process is seen after that time at the latest.
   */
  lemma MemoIsYoung(env: Env, run: Run, n: nat, q: Search, cost: nat, now: int)
    requires IsRun(env, run) && n <= |run.steps| && StartsRight(env, run, n, q, cost, now)
    requires q.key != 0 && q.phase.Resolved?
    ensures q.phase.snapshot.Some?
    ensures exists i: nat, j: nat, at: int ::
              && j < n && RowBehind(env, run, q.key, q.phase.snapshot.value, at, i, j)
              && now - at <= env.maxAgeMs && Gen(run.states[j], q.key) == Gen(run.states[n], q.key)
  {
    if memo, j :| Answers(env, run, n, q, now, memo, j) {
      hide IsRun;
      var i := MemoHasRow(env, run, n, q.ctx.value, memo, j);
      assert RowBehind(env, run, q.key, q.phase.snapshot.value, memo.at, i, j);
    }
  }
}
