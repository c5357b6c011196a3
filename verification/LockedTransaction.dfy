/**
 One guarded write on one borrowed connection: which call may throw, what the
 caller sees, what happens to the connection and to the table.
 */
module LockedTransaction {
  import opened Wrappers
  import opened CrudTable

  datatype Work = UpdateWork(id: nat, body: Body) | DeleteWork(id: nat) | RestoreWork(id: nat)

  datatype Answer = Updated(was: Row, record: Row) | Deleted(was: Row) | Restored(record: Row)

  datatype Failure = Thrown(message: string) | Refused(error: Error)

  /** The error each call throws, if it throws: those of the try block, then those of the clean-up. */
  datatype Faults = Faults(begin: Option<string>, fetch: Option<string>, guard: Option<string>, write: Option<string>,
                           afterHook: Option<string>, commit: Option<string>,
                           rollback: Option<string>, destroy: Option<string>, release: Option<string>)

  datatype Disposal = Released | Destroyed

  function Check(fault: Option<string>): Result<(), Failure> {
    match fault
    case None => Ok(())
    case Some(e) => Err(Thrown(e))
  }

  function Lift<T>(r: Result<T, Error>): Result<T, Failure> {
    match r
    case Ok(v) => Ok(v)
    case Err(e) => Err(Refused(e))
  }

  /** What the guard leaves for the statement: the record it saw, and the body as it left it. */
  datatype Ready = Ready(was: Option<Row>, body: Body)

  function AskGuard(m: Model, w: Work, was: Row): Result<Ready, Failure> {
    if w.UpdateWork? then
      match m.beforeUpdate(was, w.body)
      case None => Err(Refused(Rejected))
      case Some(approved) => Ok(Ready(Some(was), approved))
    else if m.mayDelete(was) then Ok(Ready(Some(was), map[]))
    else Err(Refused(Rejected))
  }

  /** SELECT ... FOR UPDATE and the guard; a restore fetches no row. */
  function Prepare(m: Model, t: Table, org: int, w: Work, f: Faults): (r: Result<Ready, Failure>)
    ensures r.Ok? && !w.RestoreWork? ==> r.value.was.Some?
  {
    if w.RestoreWork? then
      (match Check(f.guard) case Err(e) => Err(e) case Ok(_) => Ok(Ready(None, map[])))
    else
      match Check(f.fetch)
      case Err(e) => Err(e)
      case Ok(_) =>
        match Lift(CrudTable.FindByIdOrFail(m, t, w.id, Scoped(org)))
        case Err(e) => Err(e)
        case Ok(was) =>
          match Check(f.guard)
          case Err(e) => Err(e)
          case Ok(_) => AskGuard(m, w, was)
  }

  /** The statement itself. */
  function Perform(m: Model, t: Table, org: int, w: Work, ready: Ready): (Table, Result<Answer, Failure>)
    requires w.RestoreWork? || ready.was.Some?
  {
    match w
    case UpdateWork(id, _) =>
      var (t', r) := CrudTable.Update(m, t, id, ready.body, Scoped(org));
      (t', match r case Ok(row) => Ok(Updated(ready.was.value, row)) case Err(e) => Err(Refused(e)))
    case DeleteWork(id) =>
      var (t', r) := CrudTable.Delete(m, t, id, Scoped(org));
      (t', match r case Ok(_) => Ok(Deleted(ready.was.value)) case Err(e) => Err(Refused(e)))
    case RestoreWork(id) =>
      var (t', r) := CrudTable.Restore(m, t, id, Scoped(org));
      (t', match r case Ok(row) => Ok(Restored(row)) case Err(e) => Err(Refused(e)))
  }

  /** The first call that fails decides the error; the table changes only if none does. */
  function Outcome(m: Model, t: Table, org: int, w: Work, f: Faults): (Table, Result<Answer, Failure>) {
    match Check(f.begin)
    case Err(e) => (t, Err(e))
    case Ok(_) =>
      match Prepare(m, t, org, w, f)
      case Err(e) => (t, Err(e))
      case Ok(ready) =>
        match Check(f.write)
        case Err(e) => (t, Err(e))
        case Ok(_) =>
          var (t', r) := Perform(m, t, org, w, ready);
          if r.Err? then (t, r)
          else if f.afterHook.Some? then (t, Err(Thrown(f.afterHook.value)))
          else if f.commit.Some? then (t, Err(Thrown(f.commit.value)))
          else (t', r)
  }

  class Connection {
    const hasDestroy: bool
    // What the open transaction has written so far.
    var working: Table
    var disposals: seq<Disposal>

    constructor (hasDestroy: bool)
      ensures this.hasDestroy == hasDestroy && disposals == []
    {
      this.hasDestroy := hasDestroy;
      working, disposals := map[], [];
    }

    // conn.rollback(), which may throw an error of its own.
    method Rollback(committed: Table, throws: Option<string>) returns (r: Result<(), Failure>)
      modifies this`working
      ensures r == Check(throws) && (r.Ok? ==> working == committed)
    {
      r := Check(throws);
      if r.Ok? { working := committed; }
    }

    // conn.destroy() or conn.release(): the pool has the connection back even when the call throws.
    method Dispose(how: Disposal, throws: Option<string>) returns (r: Result<(), Failure>)
      modifies this`disposals
      ensures disposals == old(disposals) + [how] && r == Check(throws)
    {
      disposals := disposals + [how];
      r := Check(throws);
    }
  }

  class Database {
    const model: Model
    var table: Table

    constructor (model: Model, table: Table)
      ensures this.model == model && this.table == table
    {
      this.model, this.table := model, table;
    }

    // The try block, up to and including the commit.
    method Attempt(conn: Connection, org: int, w: Work, f: Faults) returns (r: Result<Answer, Failure>)
      modifies this`table, conn`working
      ensures (table, r) == Outcome(model, old(table), org, w, f)
    {
      if f.begin.Some? { return Err(Thrown(f.begin.value)); }
      conn.working := table;
      var prepared := Prepare(model, conn.working, org, w, f);
      if prepared.Err? { return Err(prepared.error); }
      if f.write.Some? { return Err(Thrown(f.write.value)); }
      var (written, answer) := Perform(model, conn.working, org, w, prepared.value);
      conn.working := written;
      if answer.Err? { return answer; }
      if f.afterHook.Some? { return Err(Thrown(f.afterHook.value)); }
      if f.commit.Some? { return Err(Thrown(f.commit.value)); }
      table := conn.working;
      return answer;
    }

    // The try / catch / finally around it: whatever the clean-up throws is dropped.
    method InLockedTransaction(conn: Connection, org: int, w: Work, f: Faults) returns (r: Result<Answer, Failure>)
      modifies this`table, conn
      ensures (table, r) == Outcome(model, old(table), org, w, f)
      ensures conn.disposals
              == old(conn.disposals) + [if r.Err? && f.rollback.Some? && conn.hasDestroy then Destroyed else Released]
    {
      var disposed := false;
      r := Attempt(conn, org, w, f);
      if r.Err? {
        var rolledBack := conn.Rollback(table, f.rollback);
        if rolledBack.Err? && conn.hasDestroy {
          disposed := true;
          var _ := conn.Dispose(Destroyed, f.destroy);
        }
      }
      if !disposed {
        var _ := conn.Dispose(Released, f.release);
      }
    }

    // applyUpdate: the body's organization is checked before a connection is taken.
    method ApplyUpdate(conn: Connection, org: int, id: nat, body: Body, f: Faults) returns (r: Result<Answer, Failure>)
      modifies this`table, conn
      ensures model.hasOrgScope && ORG in body ==>
                r == Err(Refused(OrgImmutable)) && table == old(table) && conn.disposals == old(conn.disposals)
      ensures !(model.hasOrgScope && ORG in body) ==>
                && (table, r) == Outcome(model, old(table), org, UpdateWork(id, body), f)
                && conn.disposals == old(conn.disposals)
                                     + [if r.Err? && f.rollback.Some? && conn.hasDestroy then Destroyed else Released]
    {
      if model.hasOrgScope && ORG in body { return Err(Refused(OrgImmutable)); }
      r := InLockedTransaction(conn, org, UpdateWork(id, body), f);
    }
  }

  // ---------------------------------------------------------------- what the outcome promises

  function Raised(fault: Option<string>): Option<Failure> {
    match fault
    case None => None
    case Some(e) => Some(Thrown(e))
  }

  function Missing(m: Model, t: Table, org: int, w: Work): Option<Failure> {
    if Reaches(m, t, org, w.id) then None else Some(Refused(NotFound))
  }

  function GuardRefuses(m: Model, t: Table, org: int, w: Work): Option<Failure> {
    if !Reaches(m, t, org, w.id) || w.RestoreWork? then None
    else if (if w.UpdateWork? then m.beforeUpdate(t[w.id], w.body).Some? else m.mayDelete(t[w.id])) then None
    else Some(Refused(Rejected))
  }

  function StatementRefuses(m: Model, t: Table, org: int, w: Work): Option<Failure> {
    match w
    case DeleteWork(_) => None
    case UpdateWork(id, body) =>
      if Reaches(m, t, org, id) && m.beforeUpdate(t[id], body).Some? && m.hasOrgScope &&
        ORG in m.beforeUpdate(t[id], body).value
      then Some(Refused(OrgImmutable))
      else None
    case RestoreWork(id) =>
      if !m.softDelete then Some(Refused(NoSoftDelete))
      else if Hits(t, id, if m.hasOrgScope then Some(org) else None) && t[id].deleted then None
      else Some(Refused(NotFound))
  }

  /** Everything that can stop the try block, in the order it meets it; a restore fetches no row. */
  function Stops(m: Model, t: Table, org: int, w: Work, f: Faults): seq<Option<Failure>> {
    [Raised(f.begin)]
    + (if w.RestoreWork? then [] else [Raised(f.fetch), Missing(m, t, org, w)])
    + [Raised(f.guard), GuardRefuses(m, t, org, w), Raised(f.write), StatementRefuses(m, t, org, w),
       Raised(f.afterHook), Raised(f.commit)]
  }

  function First(s: seq<Option<Failure>>): Option<Failure> {
    if s == [] then None else if s[0].Some? then s[0] else First(s[1..])
  }

  lemma {:induction false} FirstAppend(a: seq<Option<Failure>>, b: seq<Option<Failure>>)
    ensures First(a + b) == if First(a).Some? then First(a) else First(b)
  {
    if a == [] {
      assert a + b == b;
    } else {
      FirstAppend(a[1..], b);
      assert (a + b)[0] == a[0] && (a + b)[1..] == a[1..] + b;
    }
  }

  lemma FirstOfThree(x: Option<Failure>, y: Option<Failure>, z: Option<Failure>)
    ensures First([x]) == x
    ensures First([x, y]) == if x.Some? then x else y
    ensures First([x, y, z]) == if x.Some? then x else if y.Some? then y else z
  {
    assert [x][1..] == [] && [x, y][1..] == [y] && [y, z][1..] == [z] && [x, y, z][1..] == [y, z];
    assert First([z]) == z && First([y, z]) == if y.Some? then y else First([z]);
  }

  /** The first of the stops, call by call. */
  lemma FirstStop(m: Model, t: Table, org: int, w: Work, f: Faults)
    ensures First(Stops(m, t, org, w, f)) ==
            if f.begin.Some? then Raised(f.begin)
            else if !w.RestoreWork? && f.fetch.Some? then Raised(f.fetch)
            else if !w.RestoreWork? && Missing(m, t, org, w).Some? then Missing(m, t, org, w)
            else if f.guard.Some? then Raised(f.guard)
            else if GuardRefuses(m, t, org, w).Some? then GuardRefuses(m, t, org, w)
            else if f.write.Some? then Raised(f.write)
            else if StatementRefuses(m, t, org, w).Some? then StatementRefuses(m, t, org, w)
            else if f.afterHook.Some? then Raised(f.afterHook)
            else Raised(f.commit)
  {
    hide Missing, GuardRefuses, StatementRefuses, First;
    var a := [Raised(f.begin)];
    var b := if w.RestoreWork? then [] else [Raised(f.fetch), Missing(m, t, org, w)];
    var c := [Raised(f.guard), GuardRefuses(m, t, org, w), Raised(f.write)];
    var d := [StatementRefuses(m, t, org, w), Raised(f.afterHook), Raised(f.commit)];
    assert Stops(m, t, org, w, f) == a + b + (c + d);
    FirstAppend(a + b, c + d);
    FirstAppend(a, b);
    FirstAppend(c, d);
    FirstOfThree(a[0], None, None);
    FirstOfThree(Raised(f.fetch), Missing(m, t, org, w), None);
    FirstOfThree(c[0], c[1], c[2]);
    FirstOfThree(d[0], d[1], d[2]);
    FirstOfNone();
  }

  lemma FirstOfNone()
    ensures First([]) == None
  {
  }

  /** The first failing call, or a refusal before it, decides what the caller sees; with neither the work is done. */
  lemma ErrorIsOriginal(m: Model, t: Table, org: int, w: Work, f: Faults)
    ensures var stop := First(Stops(m, t, org, w, f));
            if stop.Some? then Outcome(m, t, org, w, f) == (t, Err(stop.value)) else Outcome(m, t, org, w, f).1.Ok?
  {
    FirstStop(m, t, org, w, f);
    hide First, Stops, Written, SoftDeleted;
  }

  lemma {:induction false} FirstIsIn(s: seq<Option<Failure>>)
    ensures First(s).Some? ==> First(s) in s
  {
    if s != [] {
      FirstIsIn(s[1..]);
    }
  }

  /** An error that only the clean-up throws never reaches the caller, nor does the clean-up change the outcome. */
  lemma CleanUpIsSilent(m: Model, t: Table, org: int, w: Work, f: Faults, e: string,
                        rollback: Option<string>, destroy: Option<string>, release: Option<string>)
    requires Some(Thrown(e)) !in Stops(m, t, org, w, f)
    ensures Outcome(m, t, org, w, f.(rollback := Some(e), destroy := Some(e), release := Some(e))).1 != Err(Thrown(e))
    ensures Outcome(m, t, org, w, f.(rollback := rollback, destroy := destroy, release := release)) ==
            Outcome(m, t, org, w, f)
  {
    ErrorIsOriginal(m, t, org, w, f);
    FirstIsIn(Stops(m, t, org, w, f));
    CleanUpUnread(m, t, org, w, f, rollback, destroy, release);
    CleanUpUnread(m, t, org, w, f, Some(e), Some(e), Some(e));
    hide *;
  }

  lemma CleanUpUnread(m: Model, t: Table, org: int, w: Work, f: Faults,
                      rollback: Option<string>, destroy: Option<string>, release: Option<string>)
    ensures Outcome(m, t, org, w, f.(rollback := rollback, destroy := destroy, release := release)) ==
            Outcome(m, t, org, w, f)
  {
    hide CrudTable.FindByIdOrFail, Perform, AskGuard;
  }

  /**
   The table changes only by a committed write of the work's own row, after its guard accepted the record and
   the body; an update stores exactly what the guard left of the body.
   */
  lemma ChangeNeedsCommit(m: Model, t: Table, org: int, w: Work, f: Faults)
    requires m.hasOrgScope && ORG !in m.deactivate
    ensures var (t', r) := Outcome(m, t, org, w, f);
            && (r.Err? ==> t' == t)
            && (r.Ok? ==> w.id in t && t[w.id].org == Num(org))
            && (w.UpdateWork? && r.Ok? ==>
                  && m.beforeUpdate(t[w.id], w.body).Some? && r.value.was == t[w.id] && w.id in t'
                  && t'[w.id] == Written(t[w.id], Filled(m, m.beforeUpdate(t[w.id], w.body).value))
                  && r.value.record == t'[w.id])
            && (w.DeleteWork? && r.Ok? ==> m.mayDelete(t[w.id]) && (w.id in t' ==> t'[w.id].deleted))
            && (w.RestoreWork? && r.Ok? ==> t[w.id].deleted && w.id in t' && !t'[w.id].deleted)
            && (forall id :: id != w.id ==> (id in t' <==> id in t) && (id in t ==> t'[id] == t[id]))
            && (w.id in t' ==> w.id in t && t'[w.id].org == t[w.id].org)
  {
    if w.UpdateWork? && w.id in t {
      NothingWritten(m, t[w.id]);
    }
  }

  lemma NothingWritten(m: Model, r: Row)
    ensures Written(r, map[]) == r
  {
    assert r.cols + (map[] - {ORG}) == r.cols;
  }

  const NO_FAULTS: Faults := Faults(None, None, None, None, None, None, None, None, None)

  /** The handler's answer tells of the same outcome. */
  predicate Tells(answer: Response, r: Result<Answer, Failure>) {
    match r
    case Ok(Updated(_, record)) => answer == Record(record)
    case Ok(Restored(record)) => answer == Record(record)
    case Ok(Deleted(_)) => answer == NoContent
    case Err(Refused(e)) => answer == Response.Failed(e)
    case Err(Thrown(_)) => false
  }

  /** Where nothing throws, the transaction does what the handler does in one step. */
  lemma QuietTransactionIsHandle(m: Model, arrange: Arrange, t: Table, org: int, id: nat, body: Body)
    ensures !(m.hasOrgScope && ORG in body) ==>
              var ((t', answer), (u, r)) :=
                (Handle(m, arrange, t, org, Put(id, body)), Outcome(m, t, org, UpdateWork(id, body), NO_FAULTS));
              t' == u && Tells(answer, r)
    ensures var ((t', answer), (u, r)) :=
              (Handle(m, arrange, t, org, Destroy(id)), Outcome(m, t, org, DeleteWork(id), NO_FAULTS));
            t' == u && Tells(answer, r)
    ensures var ((t', answer), (u, r)) :=
              (Handle(m, arrange, t, org, Undelete(id)), Outcome(m, t, org, RestoreWork(id), NO_FAULTS));
            t' == u && Tells(answer, r)
  {
    hide Filled, Written, SoftDeleted;
  }
}
