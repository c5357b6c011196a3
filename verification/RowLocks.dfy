/**
 Guard-then-write under row locks: transactions, plain writers and requests of
 resources that did not opt in, interleaved statement by statement.
 */
module RowLocks {
  import opened Wrappers
  import opened CrudTable
  import opened CrudLaws

  datatype Op = UpdateOp(id: nat, body: Body) | DeleteOp(id: nat)

  datatype Phase =
    | Started
    | Fetched(was: Row)              // the record the guard will see
    | Approved(was: Row, plan: Op)   // the guard accepted it, and left this to be done
    | Wrote(was: Row, plan: Op, now: Option<Row>)
    | Finished
    | Failed

  /** `locking` is transactionalWrites: one transaction, the row fetched FOR UPDATE. */
  datatype Tx = Tx(locking: bool, org: int, op: Op, phase: Phase)

  /** `locks` maps a locked row to the index of the transaction holding it. */
  datatype State = State(table: Table, locks: map<nat, nat>, txs: seq<Tx>)

  /** An update may not name the organization, before or after its guard. */
  predicate MovesRow(m: Model, body: Body) {
    m.hasOrgScope && ORG in body
  }

  /** What is left to be done once the guard has seen the record and the body, or None when the request is refused. */
  function Plan(m: Model, op: Op, r: Row): Option<Op> {
    match op
    case DeleteOp(_) => if m.mayDelete(r) then Some(op) else None
    case UpdateOp(id, body) =>
      if MovesRow(m, body) then None
      else
        match m.beforeUpdate(r, body)
        case None => None
        case Some(approved) => if MovesRow(m, approved) then None else Some(UpdateOp(id, approved))
  }

  lemma PlanKeepsId(m: Model, op: Op, r: Row)
    ensures Plan(m, op, r).Some? ==> Plan(m, op, r).value.id == op.id
  {
  }

  /** The row after the statement, or None when it is gone. */
  function Effect(m: Model, op: Op, r: Row): Option<Row> {
    match op
    case UpdateOp(_, body) => Some(Written(r, Filled(m, body)))
    case DeleteOp(_) => if m.softDelete then Some(SoftDeleted(m, r)) else None
  }

  function Put(t: Table, id: nat, r: Option<Row>): Table {
    if r.Some? then t[id := r.value] else t - {id}
  }

  datatype Step =
    | Begin(locking: bool, org: int, op: Op)
    | Fetch(x: nat)
    | Decide(x: nat)
    | Write(x: nat)
    | Commit(x: nat)
    | Abort(x: nat)                        // a rejection, an error, a lost connection
    | PlainWrite(id: nat, row: Option<Row>)  // any other statement of the application

  predicate HoldsLock(tx: Tx) {
    tx.locking && (tx.phase.Fetched? || tx.phase.Approved? || tx.phase.Wrote?)
  }

  /** The row locks of the database: a locked row is read FOR UPDATE or written by its holder only. */
  predicate Enabled(m: Model, s: State, step: Step) {
    match step
    case Begin(_, _, _) => true
    case Fetch(x) => x < |s.txs| && s.txs[x].phase.Started? && (s.txs[x].locking ==> s.txs[x].op.id !in s.locks)
    case Decide(x) => x < |s.txs| && s.txs[x].phase.Fetched? && Plan(m, s.txs[x].op, s.txs[x].phase.was).Some?
    case Write(x) => x < |s.txs| && s.txs[x].phase.Approved? && (s.txs[x].locking || s.txs[x].op.id !in s.locks)
    case Commit(x) => x < |s.txs| && s.txs[x].phase.Wrote?
    case Abort(x) => x < |s.txs| && !s.txs[x].phase.Finished? && !s.txs[x].phase.Failed?
    case PlainWrite(id, _) => id !in s.locks
  }

  function SetPhase(s: State, x: nat, phase: Phase): State
    requires x < |s.txs|
  {
    s.(txs := s.txs[x := s.txs[x].(phase := phase)])
  }

  function Unlocked(s: State, x: nat): map<nat, nat>
    requires x < |s.txs|
  {
    if HoldsLock(s.txs[x]) then s.locks - {s.txs[x].op.id} else s.locks
  }

  function Apply(m: Model, s: State, step: Step): State
    requires Enabled(m, s, step)
  {
    match step
    case Begin(locking, org, op) => s.(txs := s.txs + [Tx(locking, org, op, Started)])
    case Fetch(x) =>
      var tx := s.txs[x];
      if !Reaches(m, s.table, tx.org, tx.op.id) then SetPhase(s, x, Phase.Failed)
      else
        SetPhase(s, x, Phase.Fetched(s.table[tx.op.id]))
        .(locks := if tx.locking then s.locks[tx.op.id := x] else s.locks)
    case Decide(x) =>
      var tx := s.txs[x];
      SetPhase(s, x, Approved(tx.phase.was, Plan(m, tx.op, tx.phase.was).value))
    case Write(x) =>
      var tx := s.txs[x];
      if !Reaches(m, s.table, tx.org, tx.op.id) then SetPhase(s, x, Phase.Failed).(locks := Unlocked(s, x))
      else
        var now := Effect(m, tx.phase.plan, s.table[tx.op.id]);
        // Outside a transaction the statement commits by itself.
        if tx.locking then SetPhase(s, x, Wrote(tx.phase.was, tx.phase.plan, now))
        else SetPhase(s, x, Finished).(table := Put(s.table, tx.op.id, now))
    case Commit(x) =>
      var tx := s.txs[x];
      SetPhase(s, x, Finished).(table := Put(s.table, tx.op.id, tx.phase.now), locks := Unlocked(s, x))
    case Abort(x) => SetPhase(s, x, Phase.Failed).(locks := Unlocked(s, x))
    case PlainWrite(id, row) => s.(table := Put(s.table, id, row))
  }

  const INIT := State(map[], map[], [])

  datatype Run = Run(states: seq<State>, steps: seq<Step>)

  ghost predicate IsRun(m: Model, run: Run) {
    && |run.states| == |run.steps| + 1
    && run.states[0] == INIT
    && forall i :: 0 <= i < |run.steps| ==>
         Enabled(m, run.states[i], run.steps[i]) && run.states[i + 1] == Apply(m, run.states[i], run.steps[i])
  }

  // ---------------------------------------------------------------- the invariant

  /** A lock holder's row is still the one its guard saw, and it is the only holder. */
  ghost predicate TxOk(m: Model, s: State, x: nat)
    requires x < |s.txs|
  {
    var tx := s.txs[x];
    && (HoldsLock(tx) ==>
          && tx.op.id in s.locks && s.locks[tx.op.id] == x
          && tx.op.id in s.table && s.table[tx.op.id] == tx.phase.was
          && Reaches(m, s.table, tx.org, tx.op.id))
    && (tx.phase.Approved? || tx.phase.Wrote? ==> Plan(m, tx.op, tx.phase.was) == Some(tx.phase.plan))
    && (tx.phase.Wrote? ==> tx.locking && tx.phase.now == Effect(m, tx.phase.plan, tx.phase.was))
  }

  ghost predicate LocksOk(m: Model, s: State) {
    && (forall x :: 0 <= x < |s.txs| ==> TxOk(m, s, x))
    && (forall id :: id in s.locks ==>
        s.locks[id] < |s.txs| && HoldsLock(s.txs[s.locks[id]]) && s.txs[s.locks[id]].op.id == id)
  }

  /** The row a step writes, if it writes the committed table. */
  function Target(m: Model, s: State, step: Step): Option<nat>
    requires Enabled(m, s, step)
  {
    match step
    case Write(x) => if s.txs[x].locking then None else Some(s.txs[x].op.id)
    case Commit(x) => Some(s.txs[x].op.id)
    case PlainWrite(id, _) => Some(id)
    case _ => None
  }

  lemma TableStep(m: Model, s: State, step: Step, id: nat)
    requires Enabled(m, s, step) && Target(m, s, step) != Some(id)
    ensures id in Apply(m, s, step).table <==> id in s.table
    ensures id in s.table ==> Apply(m, s, step).table[id] == s.table[id]
  {
    hide Effect;
  }

  lemma OtherTx(m: Model, s: State, step: Step, y: nat)
    requires Enabled(m, s, step) && LocksOk(m, s) && y < |s.txs|
    requires Apply(m, s, step).txs[y] == s.txs[y]
    ensures TxOk(m, Apply(m, s, step), y)
  {
    assert TxOk(m, s, y);
    var id := s.txs[y].op.id;
    if HoldsLock(s.txs[y]) {
      if step.Commit? || step.Abort? || step.Write? { assert TxOk(m, s, step.x); }
      TableStep(m, s, step, id);
    }
    hide Effect, Plan;
  }

  lemma OwnTx(m: Model, s: State, step: Step, x: nat)
    requires Enabled(m, s, step) && LocksOk(m, s) && x < |Apply(m, s, step).txs|
    requires x < |s.txs| ==> Apply(m, s, step).txs[x] != s.txs[x]
    ensures TxOk(m, Apply(m, s, step), x)
  {
    if x < |s.txs| { assert TxOk(m, s, x); }
    hide Effect, Plan;
  }

  lemma LocksStep(m: Model, s: State, step: Step)
    requires Enabled(m, s, step) && LocksOk(m, s)
    ensures LocksOk(m, Apply(m, s, step))
  {
    var s' := Apply(m, s, step);
    forall x | 0 <= x < |s'.txs| ensures TxOk(m, s', x) {
      if x < |s.txs| && s'.txs[x] == s.txs[x] {
        OtherTx(m, s, step, x);
      } else {
        OwnTx(m, s, step, x);
      }
    }
    LockTable(m, s, step);
  }

  lemma LockTable(m: Model, s: State, step: Step)
    requires Enabled(m, s, step) && LocksOk(m, s)
    ensures var s' := Apply(m, s, step);
            forall id :: id in s'.locks ==>
              s'.locks[id] < |s'.txs| && HoldsLock(s'.txs[s'.locks[id]]) && s'.txs[s'.locks[id]].op.id == id
  {
    if step.Commit? || step.Abort? || step.Write? || step.Decide? || step.Fetch? { assert TxOk(m, s, step.x); }
    hide Effect, Plan, Reaches;
  }

  lemma {:induction false} RunLocks(m: Model, run: Run, n: nat)
    requires IsRun(m, run) && n <= |run.steps|
    ensures LocksOk(m, run.states[n])
  {
    if n > 0 {
      RunLocks(m, run, n - 1);
      hide LocksOk, Apply, Enabled;
      LocksStep(m, run.states[n - 1], run.steps[n - 1]);
    }
  }

  /** What the guard says of a request on a record: refused, or what is left to be done. */
  ghost predicate GuardSays(m: Model, op: Op, r: Row, plan: Option<Op>) {
    match op
    case DeleteOp(_) => plan == if m.mayDelete(r) then Some(op) else None
    case UpdateOp(id, body) =>
      if m.hasOrgScope && ORG in body then plan == None
      else
        match m.beforeUpdate(r, body)
        case None => plan == None
        case Some(approved) => plan == if m.hasOrgScope && ORG in approved then None else Some(UpdateOp(id, approved))
  }

  /** A fetched request goes on exactly when its guard lets it, with what the guard left. */
  lemma DecidesAsTheGuardSays(m: Model, s: State, x: nat, plan: Op)
    requires x < |s.txs| && s.txs[x].phase.Fetched?
    ensures var tx := s.txs[x];
            && (GuardSays(m, tx.op, tx.phase.was, None) <==> !Enabled(m, s, Decide(x)))
            && (GuardSays(m, tx.op, tx.phase.was, Some(plan)) <==>
                  Enabled(m, s, Decide(x)) && Apply(m, s, Decide(x)).txs[x].phase == Approved(tx.phase.was, plan))
  {
  }

  /** The row `now` is what a request that was left with `plan` makes of `was`. */
  ghost predicate IsDone(m: Model, plan: Op, was: Row, now: Option<Row>) {
    match plan
    case UpdateOp(_, body) => now.Some? && Carries(m, was, now.value, body)
    case DeleteOp(_) => if m.softDelete then now.Some? && IsMarked(m, was, now.value) else now == None
  }

  lemma EffectIsDone(m: Model, plan: Op, was: Row)
    ensures IsDone(m, plan, was, Effect(m, plan, was))
  {
    if plan.UpdateOp? { WrittenCarries(m, was, plan.body); } else { SoftDeletedIsMarked(m, was); }
    hide Carries, IsMarked;
  }

  /**
   In every interleaving, the record a locked transaction replaces at its
   commit is exactly the record its guard approved together with the body, and
   what is committed is that record with what the guard left done to it.
   */
  lemma GuardHoldsAtWrite(m: Model, run: Run, n: nat, x: nat)
    requires IsRun(m, run) && n < |run.steps| && run.steps[n] == Commit(x)
    ensures var s, s', tx := run.states[n], run.states[n + 1], run.states[n].txs[x];
            && tx.op.id in s.table && s.table[tx.op.id] == tx.phase.was && Reaches(m, s.table, tx.org, tx.op.id)
            && GuardSays(m, tx.op, s.table[tx.op.id], Some(tx.phase.plan))
            && OnlyRow(s.table, s'.table, tx.op.id)
            && IsDone(m, tx.phase.plan, s.table[tx.op.id],
                      if tx.op.id in s'.table then Some(s'.table[tx.op.id]) else None)
  {
    CommitWritesTheEffect(m, run, n, x);
    var tx := run.states[n].txs[x];
    EffectIsDone(m, tx.phase.plan, tx.phase.was);
    hide Effect, Carries, IsMarked, IsRun, Apply;
  }

  lemma CommitWritesTheEffect(m: Model, run: Run, n: nat, x: nat)
    requires IsRun(m, run) && n < |run.steps| && run.steps[n] == Commit(x)
    ensures var s, s', tx := run.states[n], run.states[n + 1], run.states[n].txs[x];
            && tx.op.id in s.table && s.table[tx.op.id] == tx.phase.was && Reaches(m, s.table, tx.org, tx.op.id)
            && Plan(m, tx.op, s.table[tx.op.id]) == Some(tx.phase.plan)
            && s'.table == Put(s.table, tx.op.id, Effect(m, tx.phase.plan, s.table[tx.op.id]))
  {
    RunLocks(m, run, n);
    assert TxOk(m, run.states[n], x);
    hide Effect, Plan;
  }

  /** A locked transaction that passed its guard never misses its row. */
  lemma LockedWriteFindsItsRow(m: Model, run: Run, n: nat, x: nat)
    requires IsRun(m, run) && n < |run.steps| && run.steps[n] == Write(x) && run.states[n].txs[x].locking
    ensures run.states[n + 1].txs[x].phase.Wrote?
  {
    RunLocks(m, run, n);
    assert TxOk(m, run.states[n], x);
    hide Effect, Plan;
  }

  // ---------------------------------------------------------------- single-row invariants

  /** A live row that belongs to some organization, which is what a request can reach. */
  predicate CanReach(m: Model, r: Row) {
    (m.softDelete ==> !r.deleted) && (m.hasOrgScope ==> r.org.Num?)
  }

  /** A write of this body, approved on this row, that breaks the invariant. */
  ghost predicate Breaks(m: Model, keeps: Row -> bool, op: Op, r: Row) {
    && CanReach(m, r) && keeps(r) && Plan(m, op, r).Some?
    && Effect(m, Plan(m, op, r).value, r).Some? && !keeps(Effect(m, Plan(m, op, r).value, r).value)
  }

  /** Guard, body and statement together preserve `keeps`. */
  ghost predicate GuardPreserves(m: Model, keeps: Row -> bool) {
    forall op: Op, r: Row :: !Breaks(m, keeps, op, r)
  }

  /** Every writer of the table is a locked transaction or keeps the invariant by itself. */
  ghost predicate Disciplined(run: Run, keeps: Row -> bool) {
    forall i :: 0 <= i < |run.steps| ==>
      && (run.steps[i].Begin? ==> run.steps[i].locking)
      && (run.steps[i].PlainWrite? && run.steps[i].row.Some? ==> keeps(run.steps[i].row.value))
  }

  ghost predicate AllKeep(t: Table, keeps: Row -> bool) {
    forall id :: id in t ==> keeps(t[id])
  }

  lemma {:induction false} OnlyLocking(m: Model, run: Run, n: nat, keeps: Row -> bool)
    requires IsRun(m, run) && n <= |run.steps| && Disciplined(run, keeps)
    ensures forall x :: 0 <= x < |run.states[n].txs| ==> run.states[n].txs[x].locking
  {
    if n > 0 {
      OnlyLocking(m, run, n - 1, keeps);
      var s, step := run.states[n - 1], run.steps[n - 1];
      assert step.Begin? ==> step.locking;
      assert run.states[n] == Apply(m, s, step);
      hide Effect, Plan, Reaches;
    }
  }

  /** A single-row invariant that each guarded statement preserves holds of every committed row, always. */
  lemma {:induction false} InvariantHolds(m: Model, run: Run, n: nat, keeps: Row -> bool)
    requires IsRun(m, run) && n <= |run.steps| && Disciplined(run, keeps) && GuardPreserves(m, keeps)
    ensures AllKeep(run.states[n].table, keeps)
  {
    if n > 0 {
      InvariantHolds(m, run, n - 1, keeps);
      OnlyLocking(m, run, n - 1, keeps);
      var s, step := run.states[n - 1], run.steps[n - 1];
      if step.Commit? {
        CommitWritesTheEffect(m, run, n - 1, step.x);
        var tx := s.txs[step.x];
        assert !Breaks(m, keeps, tx.op, s.table[tx.op.id]);
      }
      hide Effect, Plan;
    }
  }

  // ---------------------------------------------------------------- concrete runs

  ghost function Last(run: Run): State
    requires run.states != []
  {
    run.states[|run.states| - 1]
  }

  ghost function Then(m: Model, run: Run, step: Step): (r: Run)
    requires IsRun(m, run) && Enabled(m, Last(run), step)
    ensures IsRun(m, r) && Last(r) == Apply(m, Last(run), step) && r.steps == run.steps + [step]
  {
    Run(run.states + [Apply(m, Last(run), step)], run.steps + [step])
  }

  /** One request on one row, up to its guard's approval. */
  lemma ApprovedFirst(m: Model, locking: bool, org: int, op: Op, r: Row, plan: Op) returns (run: Run)
    requires Live(m, r) && (m.hasOrgScope ==> r.org == Num(org)) && Plan(m, op, r) == Some(plan)
    ensures IsRun(m, run) && run.steps == [PlainWrite(op.id, Some(r)), Begin(locking, org, op), Fetch(0), Decide(0)]
    ensures Last(run) == State(map[op.id := r], if locking then map[op.id := 0] else map[],
                               [Tx(locking, org, op, Approved(r, plan))])
  {
    hide Effect, Plan;
    run := Run([INIT], []);
    run := Then(m, run, PlainWrite(op.id, Some(r)));
    assert Last(run).table == map[op.id := r];
    run := Then(m, run, Begin(locking, org, op));
    assert Last(run).txs == [Tx(locking, org, op, Started)];
    run := Then(m, run, Fetch(0));
    assert Last(run).txs == [Tx(locking, org, op, Phase.Fetched(r))];
    run := Then(m, run, Decide(0));
  }

  /** A guard that approves a breaking write is enough to break the invariant, locks or not. */
  lemma BrokenGuardBreaks(m: Model, keeps: Row -> bool, op: Op, r: Row) returns (run: Run)
    requires Breaks(m, keeps, op, r)
    ensures IsRun(m, run) && Disciplined(run, keeps) && !AllKeep(Last(run).table, keeps)
  {
    PlanKeepsId(m, op, r);
    var (id, plan, org) := (op.id, Plan(m, op, r).value, if m.hasOrgScope then r.org.n else 0);
    var now := Effect(m, plan, r);
    run := ApprovedFirst(m, true, org, op, r, plan);
    hide Effect, Plan, Last, IsRun, Then, Reaches;
    run := Then(m, run, Write(0));
    assert Last(run).txs == [Tx(true, org, op, Wrote(r, plan, now))];
    run := Then(m, run, Commit(0));
    assert id in Last(run).table && Last(run).table[id] == now.value;
  }

  /** The exact condition: an invariant holds in every disciplined run if and only if the guard preserves it. */
  lemma InvariantHoldsIff(m: Model, keeps: Row -> bool)
    ensures GuardPreserves(m, keeps) <==>
              forall run: Run, n: nat :: IsRun(m, run) && n <= |run.steps| && Disciplined(run, keeps) ==>
                AllKeep(run.states[n].table, keeps)
  {
    if GuardPreserves(m, keeps) {
      forall run: Run, n: nat | IsRun(m, run) && n <= |run.steps| && Disciplined(run, keeps)
        ensures AllKeep(run.states[n].table, keeps)
      {
        InvariantHolds(m, run, n, keeps);
      }
    } else {
      var op: Op, r: Row :| Breaks(m, keeps, op, r);
      var run := BrokenGuardBreaks(m, keeps, op, r);
      assert !AllKeep(run.states[|run.steps|].table, keeps);
    }
  }

  /**
   A resource without the option: whenever its guard tells two rows apart for
   some body, a write between the fetch and the update makes the update land
   on the row the guard rejects.
   */
  lemma UnlockedGuardIsBypassed(m: Model, id: nat, org: int, body: Body, approved: Body, good: Row, bad: Row)
    returns (run: Run)
    requires Plan(m, UpdateOp(id, body), good) == Some(UpdateOp(id, approved))
    requires Plan(m, UpdateOp(id, body), bad) == None
    requires Live(m, good) && Live(m, bad)
    requires m.hasOrgScope ==> good.org == Num(org) && bad.org == Num(org)
    ensures IsRun(m, run)
    ensures Last(run) == State(map[id := Written(bad, Filled(m, approved))], map[],
                               [Tx(false, org, UpdateOp(id, body), Finished)])
  {
    var op := UpdateOp(id, body);
    assert Effect(m, UpdateOp(id, approved), bad) == Some(Written(bad, Filled(m, approved)));
    run := ApprovedFirst(m, false, org, op, good, UpdateOp(id, approved));
    hide Plan, Effect, Last, IsRun;
    run := Then(m, run, PlainWrite(id, Some(bad)));
    assert Last(run).table == map[id := bad];
    run := Then(m, run, Write(0));
  }
}
