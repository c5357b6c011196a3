/**
 The streamed export: one query per batch, each below the last id of the batch
 before it, while rows come and go between the queries.
 */
module KeysetExport {
  import opened Wrappers

  const BATCH_SIZE: nat := 1000

  /** `joined` says that the rows its inner joins need are there; only the contract export has such joins. */
  datatype Row = Row(org: int, deleted: bool, joined: bool, cells: seq<string>)
  type Table = map<nat, Row>

  datatype Line = Line(id: nat, cells: seq<string>)

  /**
   What the export meets: the table its k-th batch query reads, whether the client has gone
   before that query, whether the query throws, and the same for the opening COUNT and log.
   */
  datatype World = World(tables: nat -> Table, gone: nat -> bool, fails: nat -> bool,
                         counted: Table, countFails: bool, logFails: bool)

  datatype Request = Request(org: int, includeDeleted: bool)

  /** Ended is a clean end; Aborted destroys the response; Abandoned is a client that left. */
  datatype Ending = Ended | Aborted | Abandoned

  // ---------------------------------------------------------------- the queries

  function Exported(t: Table, q: Request): set<nat> {
    set id | id in t && t[id].org == q.org && t[id].joined && (q.includeDeleted || !t[id].deleted)
  }

  predicate IsBelow(id: nat, after: Option<nat>) {
    after.None? || id < after.value
  }

  function Below(ids: set<nat>, after: Option<nat>): set<nat> {
    set id | id in ids && IsBelow(id, after)
  }

  lemma MaxExists(s: set<nat>)
    requires s != {}
    ensures exists m :: m in s && forall x :: x in s ==> x <= m
  {
    var x :| x in s;
    var rest := s - {x};
    if rest == {} {
      assert s == rest + {x};
    } else {
      MaxExists(rest);
      var m :| m in rest && forall y :: y in rest ==> y <= m;
      var top := if x < m then m else x;
      assert top in s;
      assert forall y :: y in s ==> y == x || y in rest;
    }
  }

  function Max(s: set<nat>): (m: nat)
    requires s != {}
    ensures m in s && forall x :: x in s ==> x <= m
  {
    MaxExists(s);
    var m :| m in s && forall x :: x in s ==> x <= m;
    m
  }

  /** ORDER BY id DESC LIMIT limit. */
  function TopIds(ids: set<nat>, limit: nat): seq<nat> {
    if limit == 0 || ids == {} then [] else [Max(ids)] + TopIds(ids - {Max(ids)}, limit - 1)
  }

  predicate Descending(ids: seq<nat>) {
    forall i, j :: 0 <= i < j < |ids| ==> ids[i] > ids[j]
  }

  predicate IsTop(b: seq<nat>, ids: set<nat>, limit: nat) {
    && |b| <= limit && Descending(b) && (forall i :: 0 <= i < |b| ==> b[i] in ids)
    && (forall id :: id in ids ==> id in b || (|b| == limit && (limit > 0 ==> id < b[limit - 1])))
  }

  lemma IsTopCons(b: seq<nat>, ids: set<nat>, limit: nat, m: nat)
    requires limit > 0 && m in ids && (forall x :: x in ids ==> x <= m)
    requires IsTop(b, ids - {m}, limit - 1)
    ensures IsTop([m] + b, ids, limit)
  {
    var c := [m] + b;
    assert c[0] == m && forall i :: 0 < i < |c| ==> c[i] == b[i - 1];
    forall i, j | 0 <= i < j < |c| ensures c[i] > c[j] {
      if i == 0 { assert b[j - 1] in ids - {m}; }
    }
    forall id | id in ids ensures id in c || (|c| == limit && id < c[limit - 1]) {
      if id == m { assert c[0] == id; } else {
        assert id in ids - {m};
        if id in b {
          var i :| 0 <= i < |b| && b[i] == id;
          assert c[i + 1] == id;
        }
      }
    }
  }

  lemma {:induction false} TopIdsAreTheLargest(ids: set<nat>, limit: nat)
    ensures IsTop(TopIds(ids, limit), ids, limit)
    decreases limit
  {
    if limit != 0 && ids != {} {
      var m := Max(ids);
      TopIdsAreTheLargest(ids - {m}, limit - 1);
      assert TopIds(ids, limit) == [m] + TopIds(ids - {m}, limit - 1);
      hide TopIds, IsTop;
      IsTopCons(TopIds(ids - {m}, limit - 1), ids, limit, m);
    }
  }

  function BatchIds(w: World, q: Request, k: nat, after: Option<nat>): seq<nat> {
    TopIds(Below(Exported(w.tables(k), q), after), BATCH_SIZE)
  }

  function ToLines(t: Table, ids: seq<nat>): (lines: seq<Line>)
    requires forall i :: 0 <= i < |ids| ==> ids[i] in t
    ensures |lines| == |ids|
  {
    seq(|ids|, i requires 0 <= i < |ids| => Line(ids[i], t[ids[i]].cells))
  }

  // ---------------------------------------------------------------- the whole stream

  datatype Stream = Stream(lines: seq<Line>, ending: Ending, queries: nat)

  /** Everything from the k-th query on, with `after` the last id already written. */
  function Rest(w: World, q: Request, k: nat, after: Option<nat>): (s: Stream)
    ensures s.queries >= k
    decreases after.None?, if after.Some? then after.value else 0
  {
    if w.gone(k) then Stream([], Abandoned, k)
    else if w.fails(k) then Stream([], Aborted, k)
    else
      TopIdsAreTheLargest(Below(Exported(w.tables(k), q), after), BATCH_SIZE);
      var ids := BatchIds(w, q, k, after);
      var lines := ToLines(w.tables(k), ids);
      if |ids| < BATCH_SIZE then Stream(lines, Ended, k + 1)
      else
        var rest := Rest(w, q, k + 1, Some(ids[BATCH_SIZE - 1]));
        rest.(lines := lines + rest.lines)
  }

  /** A row of the requested organization, not deleted unless asked for, with the rows its joins need. */
  predicate IsDue(r: Row, q: Request) {
    r.org == q.org && r.joined && (r.deleted ==> q.includeDeleted)
  }

  function DueIds(t: Table, q: Request): set<nat> {
    set id | id in t && IsDue(t[id], q)
  }

  lemma ExportedIsDue(t: Table, q: Request)
    ensures Exported(t, q) == DueIds(t, q)
  {
  }

  /** Due, with these cells, in the table one of the queries from `first` up to `last` read. */
  ghost predicate ReadFrom(w: World, q: Request, line: Line, first: nat, last: nat) {
    exists k :: first <= k < last && line.id in w.tables(k)
                && IsDue(w.tables(k)[line.id], q) && w.tables(k)[line.id].cells == line.cells
  }

  ghost predicate StaysDue(w: World, q: Request, id: nat, first: nat, last: nat) {
    forall k :: first <= k < last ==> id in w.tables(k) && IsDue(w.tables(k)[id], q)
  }

  predicate Holds(lines: seq<Line>, id: nat) {
    exists i :: 0 <= i < |lines| && lines[i].id == id
  }

  predicate LinesDescend(lines: seq<Line>) {
    forall i, j :: 0 <= i < j < |lines| ==> lines[i].id > lines[j].id
  }

  /** In order, below `after`, and each line read from the table of one of the queries from `first` up to `last`. */
  ghost predicate IsExcerpt(w: World, q: Request, lines: seq<Line>, after: Option<nat>, first: nat, last: nat) {
    && LinesDescend(lines)
    && (forall i :: 0 <= i < |lines| ==> IsBelow(lines[i].id, after))
    && (forall i :: 0 <= i < |lines| ==> ReadFrom(w, q, lines[i], first, last))
  }

  /** What one batch contributes: its own lines, and every due id down to the last of them. */
  lemma BatchFacts(w: World, q: Request, k: nat, after: Option<nat>)
    ensures var ids := BatchIds(w, q, k, after);
            && |ids| <= BATCH_SIZE
            && (forall i :: 0 <= i < |ids| ==> ids[i] in w.tables(k) && IsBelow(ids[i], after))
            && var lines := ToLines(w.tables(k), ids);
            && (forall i :: 0 <= i < |lines| ==> lines[i].id == ids[i])
            && IsExcerpt(w, q, lines, after, k, k + 1)
            && (forall id :: id in w.tables(k) && IsDue(w.tables(k)[id], q) && IsBelow(id, after) ==>
                  Holds(lines, id) || (|ids| == BATCH_SIZE && id < ids[BATCH_SIZE - 1]))
  {
    TopIdsAreTheLargest(Below(Exported(w.tables(k), q), after), BATCH_SIZE);
    var ids := BatchIds(w, q, k, after);
    var lines := ToLines(w.tables(k), ids);
    hide TopIds, BatchIds;
    forall id | id in w.tables(k) && IsDue(w.tables(k)[id], q) && IsBelow(id, after)
      ensures Holds(lines, id) || (|ids| == BATCH_SIZE && id < ids[BATCH_SIZE - 1])
    {
      if id in ids {
        var i :| 0 <= i < |ids| && ids[i] == id;
        assert lines[i].id == id;
      }
    }
  }

  /** One turn of the loop. */
  lemma RestUnfolds(w: World, q: Request, k: nat, after: Option<nat>)
    requires !w.gone(k) && !w.fails(k)
    ensures var ids := BatchIds(w, q, k, after);
            && |ids| <= BATCH_SIZE
            && (forall i :: 0 <= i < |ids| ==> ids[i] in w.tables(k) && IsBelow(ids[i], after))
            && Rest(w, q, k, after) ==
               var lines := ToLines(w.tables(k), ids);
               if |ids| < BATCH_SIZE then Stream(lines, Ended, k + 1)
               else
                 var rest := Rest(w, q, k + 1, Some(ids[BATCH_SIZE - 1]));
                 rest.(lines := lines + rest.lines)
  {
    hide TopIds;
    BatchFacts(w, q, k, after);
  }

  /** A query that is not reached, or fails, ends the stream. */
  lemma {:induction false} RestEnds(w: World, q: Request, k: nat, after: Option<nat>)
    ensures w.gone(k) ==> Rest(w, q, k, after) == Stream([], Abandoned, k)
    ensures !w.gone(k) && w.fails(k) ==> Rest(w, q, k, after) == Stream([], Aborted, k)
  {
    hide TopIds, BatchIds, ToLines;
  }

  /** A batch in front of the lines that follow it. */
  lemma ExcerptsJoin(w: World, q: Request, a: seq<Line>, b: seq<Line>, after: Option<nat>, k: nat, last: nat)
    requires |a| > 0 && IsExcerpt(w, q, a, after, k, k + 1)
    requires last >= k + 1 && IsExcerpt(w, q, b, Some(a[|a| - 1].id), k + 1, last)
    ensures IsExcerpt(w, q, a + b, after, k, last)
  {
    hide IsDue;
    var s := a + b;
    assert forall i :: 0 <= i < |s| ==> s[i] == if i < |a| then a[i] else b[i - |a|];
    forall i | 0 <= i < |s| ensures IsBelow(s[i].id, after) && ReadFrom(w, q, s[i], k, last) {
      if i < |a| {
        assert ReadFrom(w, q, a[i], k, k + 1);
      } else {
        assert ReadFrom(w, q, b[i - |a|], k + 1, last) && IsBelow(b[i - |a|].id, Some(a[|a| - 1].id));
        assert IsBelow(a[|a| - 1].id, after);
      }
    }
    forall i, j | 0 <= i < j < |s| ensures s[i].id > s[j].id {
      if i < |a| <= j {
        assert IsBelow(b[j - |a|].id, Some(a[|a| - 1].id));
        assert i < |a| - 1 ==> a[i].id > a[|a| - 1].id;
      }
    }
  }

  /** The lines of the file, wherever the export starts: in order, without repetition, each read from some table. */
  lemma {:induction false} RestIsOrdered(w: World, q: Request, k: nat, after: Option<nat>)
    ensures IsExcerpt(w, q, Rest(w, q, k, after).lines, after, k, Rest(w, q, k, after).queries)
    decreases after.None?, if after.Some? then after.value else 0
  {
    if !w.gone(k) && !w.fails(k) {
      BatchFacts(w, q, k, after);
      RestUnfolds(w, q, k, after);
      hide TopIds, BatchIds, Rest, ToLines;
      var ids := BatchIds(w, q, k, after);
      if |ids| == BATCH_SIZE {
        RestIsOrdered(w, q, k + 1, Some(ids[BATCH_SIZE - 1]));
        var rest := Rest(w, q, k + 1, Some(ids[BATCH_SIZE - 1]));
        ExcerptsJoin(w, q, ToLines(w.tables(k), ids), rest.lines, after, k, rest.queries);
      }
    }
  }

  /** A clean end leaves no row out that stayed due. */
  lemma {:induction false} RestIsComplete(w: World, q: Request, k: nat, after: Option<nat>, id: nat)
    requires var s := Rest(w, q, k, after); s.ending == Ended && StaysDue(w, q, id, k, s.queries)
    requires IsBelow(id, after)
    ensures Holds(Rest(w, q, k, after).lines, id)
    decreases after.None?, if after.Some? then after.value else 0
  {
    assert !w.gone(k) && !w.fails(k);
    BatchFacts(w, q, k, after);
    RestUnfolds(w, q, k, after);
    hide TopIds, BatchIds, Rest, ToLines;
    var ids := BatchIds(w, q, k, after);
    var lines := ToLines(w.tables(k), ids);
    var s := Rest(w, q, k, after);
    if |ids| == BATCH_SIZE {
      var rest := Rest(w, q, k + 1, Some(ids[BATCH_SIZE - 1]));
      assert s.lines == lines + rest.lines;
      if Holds(lines, id) {
        var i :| 0 <= i < |lines| && lines[i].id == id;
        assert s.lines[i].id == id;
      } else {
        RestIsComplete(w, q, k + 1, Some(ids[BATCH_SIZE - 1]), id);
        var i :| 0 <= i < |rest.lines| && rest.lines[i].id == id;
        assert s.lines[|lines| + i].id == id;
      }
    }
  }

  /** Why the stream stopped, and that every batch before the last was full. */
  lemma {:induction false} RestStops(w: World, q: Request, k: nat, after: Option<nat>)
    ensures var s := Rest(w, q, k, after);
            && (forall j :: k <= j < s.queries ==> !w.gone(j) && !w.fails(j))
            && (s.ending == Abandoned ==> w.gone(s.queries))
            && (s.ending == Aborted ==> !w.gone(s.queries) && w.fails(s.queries))
            && (s.ending == Ended ==> s.queries == k + |s.lines| / BATCH_SIZE + 1)
            && (s.ending != Ended ==> |s.lines| == BATCH_SIZE * (s.queries - k))
    decreases after.None?, if after.Some? then after.value else 0
  {
    if !w.gone(k) && !w.fails(k) {
      RestUnfolds(w, q, k, after);
      hide TopIds, BatchIds, Rest;
      var ids := BatchIds(w, q, k, after);
      if |ids| == BATCH_SIZE {
        RestStops(w, q, k + 1, Some(ids[BATCH_SIZE - 1]));
      }
    }
  }

  ghost predicate OnceIn(lines: seq<Line>, id: nat) {
    exists i :: 0 <= i < |lines| && lines[i].id == id && forall j :: 0 <= j < |lines| && lines[j].id == id ==> j == i
  }

  /**
   Whatever happens to the table between the batches, the ids of the file strictly descend, every
   line was read from a table in which its row was due, and a clean end holds each row that stayed due
   throughout exactly once.
   */
  lemma {:induction false} ExportIsFaithful(w: World, q: Request)
    ensures var s := Rest(w, q, 0, None);
            && LinesDescend(s.lines)
            && (forall i :: 0 <= i < |s.lines| ==> ReadFrom(w, q, s.lines[i], 0, s.queries))
            && (s.ending == Ended ==> forall id :: StaysDue(w, q, id, 0, s.queries) ==> OnceIn(s.lines, id))
  {
    RestIsOrdered(w, q, 0, None);
    var s := Rest(w, q, 0, None);
    if s.ending == Ended {
      forall id | StaysDue(w, q, id, 0, s.queries) ensures OnceIn(s.lines, id) {
        RestIsComplete(w, q, 0, None, id);
        var i :| 0 <= i < |s.lines| && s.lines[i].id == id;
        assert forall j :: 0 <= j < |s.lines| && j != i ==> s.lines[j].id != id;
      }
    }
  }

  /** With no change between the queries, a clean export is exactly the rows that are due. */
  lemma {:induction false} QuietExportIsExact(w: World, q: Request, t: Table)
    requires forall k :: w.tables(k) == t
    requires Rest(w, q, 0, None).ending == Ended
    ensures forall id: nat :: id in t && IsDue(t[id], q) <==> OnceIn(Rest(w, q, 0, None).lines, id)
    ensures forall i :: 0 <= i < |Rest(w, q, 0, None).lines| ==>
              var line := Rest(w, q, 0, None).lines[i]; line.id in t && t[line.id].cells == line.cells
  {
    ExportIsFaithful(w, q);
    RestStops(w, q, 0, None);
    var s := Rest(w, q, 0, None);
    forall id: nat ensures id in t && IsDue(t[id], q) <==> OnceIn(s.lines, id) {
      if id in t && IsDue(t[id], q) {
        assert StaysDue(w, q, id, 0, s.queries);
      }
      if OnceIn(s.lines, id) {
        var i :| 0 <= i < |s.lines| && s.lines[i].id == id;
        assert ReadFrom(w, q, s.lines[i], 0, s.queries);
      }
    }
  }

  // ---------------------------------------------------------------- the handler

  class Response {
    var headerSent: bool
    var lines: seq<Line>
    var ending: Option<Ending>

    constructor ()
      ensures !headerSent && lines == [] && ending == None
    {
      headerSent, lines, ending := false, [], None;
    }

    // Returns the row count written to the access log, or None when the error goes to next().
    method StreamExport(w: World, q: Request) returns (logged: Option<nat>)
      requires !headerSent && lines == [] && ending == None
      modifies this
      ensures w.countFails || w.logFails ==> logged == None && !headerSent && lines == [] && ending == None
      ensures !(w.countFails || w.logFails) ==>
                && logged == Some(|DueIds(w.counted, q)|) && headerSent
                && lines == Rest(w, q, 0, None).lines && ending == Some(Rest(w, q, 0, None).ending)
    {
      hide TopIds, BatchIds, ToLines, Rest, Exported, DueIds, IsDue;
      ExportedIsDue(w.counted, q);
      if w.countFails || w.logFails { return None; }
      logged := Some(|Exported(w.counted, q)|);
      headerSent := true;
      var afterId: Option<nat> := None;
      var query := 0;
      while true
        invariant headerSent && ending == None
        invariant Rest(w, q, 0, None).lines == lines + Rest(w, q, query, afterId).lines
        invariant Rest(w, q, 0, None).ending == Rest(w, q, query, afterId).ending
        decreases afterId.None?, if afterId.Some? then afterId.value else 0
      {
        RestEnds(w, q, query, afterId);
        if w.gone(query) {
          ending := Some(Abandoned);
          return;
        }
        if w.fails(query) {
          ending := Some(Aborted);
          return;
        }
        var ids := BatchIds(w, q, query, afterId);
        RestUnfolds(w, q, query, afterId);
        if |ids| == 0 { break; }
        lines := lines + ToLines(w.tables(query), ids);
        if |ids| < BATCH_SIZE { break; }
        afterId := Some(ids[|ids| - 1]);
        query := query + 1;
      }
      ending := Some(Ended);
    }
  }
}
