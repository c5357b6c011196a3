/** No sequence of requests scoped to one organization reads or writes another's rows. */
module TenantIsolation {
  import opened Wrappers
  import opened CrudTable

  predicate Owns(org: int, t: Table, id: nat) {
    id in t && t[id].org == Num(org)
  }

  /** Two tables hold the same rows of an organization. */
  ghost predicate SameOwn(t: Table, u: Table, org: int) {
    forall id :: Owns(org, t, id) || Owns(org, u, id) ==> Owns(org, t, id) && Owns(org, u, id) && t[id] == u[id]
  }

  /** The organization column is not a date and is not cleared on deletion. */
  predicate GoodModel(m: Model) {
    m.hasOrgScope && ORG !in m.businessDates && ORG !in m.deactivate
  }

  /** AUTO_INCREMENT never supplies an id that is taken. */
  predicate FreshId(t: Table, req: Request) {
    req.Post? ==> req.id !in t
  }

  /** A request touches only rows of its own organization, and moves none to another. */
  lemma HandleStaysInside(m: Model, arrange: Arrange, t: Table, org: int, req: Request)
    requires GoodModel(m) && FreshId(t, req)
    ensures var t' := Handle(m, arrange, t, org, req).0;
            && (forall id :: id in t && !Owns(org, t, id) ==> id in t' && t'[id] == t[id])
            && (forall id :: id in t' && id in t ==> t'[id].org == t[id].org)
            && (forall id :: id in t' && id !in t ==>
                req.Post? && req.id == id && t'[id].org == if ORG in m.fillable then Num(org) else Null)
  {
  }

  lemma SelectSeesOnlyOwn(m: Model, t: Table, u: Table, filters: Body, org: int, d: Deleted)
    requires GoodModel(m) && SameOwn(t, u, org)
    ensures Select(m, t, filters, Scoped(org), d) == Select(m, u, filters, Scoped(org), d)
  {
    if !(d.Only? && !m.softDelete) {
      var a := Select(m, t, filters, Scoped(org), d).value;
      var b := Select(m, u, filters, Scoped(org), d).value;
      hide Matches, DeletedOk;
      forall id ensures (id in a <==> id in b) && (id in a ==> a[id] == b[id]) {
        assert Owns(org, t, id) <==> Owns(org, u, id);
      }
      assert a == b;
    }
  }

  /** The statements that touch one row answer, and leave that row, alike. */
  lemma OneRowSeesOnlyOwn(m: Model, arrange: Arrange, t: Table, u: Table, org: int, req: Request)
    requires GoodModel(m) && SameOwn(t, u, org) && FreshId(t, req) && FreshId(u, req) && !req.List?
    ensures Handle(m, arrange, t, org, req).1 == Handle(m, arrange, u, org, req).1
    ensures Owns(org, Handle(m, arrange, t, org, req).0, req.id) <==>
              Owns(org, Handle(m, arrange, u, org, req).0, req.id)
    ensures Owns(org, Handle(m, arrange, t, org, req).0, req.id) ==>
              Handle(m, arrange, t, org, req).0[req.id] == Handle(m, arrange, u, org, req).0[req.id]
  {
    assert Owns(org, t, req.id) <==> Owns(org, u, req.id);
    hide Filled, Dated, NewRow, Written, SoftDeleted, Select;
  }

  lemma OtherRowsStay(m: Model, arrange: Arrange, t: Table, org: int, req: Request, id: nat)
    requires req.List? || req.id != id
    ensures id in Handle(m, arrange, t, org, req).0 <==> id in t
    ensures id in t ==> Handle(m, arrange, t, org, req).0[id] == t[id]
  {
    hide Filled, Dated, NewRow, Written, SoftDeleted, Select;
  }

  /** What a request answers, and what it leaves of the organization's rows, depends on those rows alone. */
  lemma HandleSeesOnlyOwn(m: Model, arrange: Arrange, t: Table, u: Table, org: int, req: Request)
    requires GoodModel(m) && SameOwn(t, u, org) && FreshId(t, req) && FreshId(u, req)
    ensures Handle(m, arrange, t, org, req).1 == Handle(m, arrange, u, org, req).1
    ensures SameOwn(Handle(m, arrange, t, org, req).0, Handle(m, arrange, u, org, req).0, org)
  {
    if req.List? {
      SelectSeesOnlyOwn(m, t, u, req.filters, org, req.deleted);
    } else {
      OneRowSeesOnlyOwn(m, arrange, t, u, org, req);
    }
    hide Handle;
    var t', u' := Handle(m, arrange, t, org, req).0, Handle(m, arrange, u, org, req).0;
    forall id | Owns(org, t', id) || Owns(org, u', id)
      ensures Owns(org, t', id) && Owns(org, u', id) && t'[id] == u'[id]
    {
      if req.List? || req.id != id {
        OtherRowsStay(m, arrange, t, org, req, id);
        OtherRowsStay(m, arrange, u, org, req, id);
      }
    }
  }

  // ---------------------------------------------------------------- whole runs

  /** A request and the organization its session is bound to. */
  datatype Call = Call(org: int, req: Request)

  function Serve(m: Model, arrange: Arrange, t: Table, run: seq<Call>): (Table, seq<Response>)
    decreases |run|
  {
    if run == [] then (t, [])
    else
      var (t1, r) := Handle(m, arrange, t, run[0].org, run[0].req);
      var (t2, rs) := Serve(m, arrange, t1, run[1..]);
      (t2, [r] + rs)
  }

  /** What one organization sees of a run: its own answers in order. */
  function Answers(m: Model, arrange: Arrange, t: Table, run: seq<Call>, org: int): seq<Response>
    decreases |run|
  {
    if run == [] then []
    else
      var (t1, r) := Handle(m, arrange, t, run[0].org, run[0].req);
      (if run[0].org == org then [r] else []) + Answers(m, arrange, t1, run[1..], org)
  }

  /** The run with everybody else's requests taken out. */
  function OnlyOf(run: seq<Call>, org: int): seq<Call> {
    if run == [] then []
    else (if run[0].org == org then [run[0]] else []) + OnlyOf(run[1..], org)
  }

  /** The ids supplied in a run are new, each time. */
  ghost predicate FreshRun(t: Table, run: seq<Call>) {
    && (forall i :: 0 <= i < |run| ==> FreshId(t, run[i].req))
    && (forall i, j :: 0 <= i < j < |run| && run[i].req.Post? && run[j].req.Post? ==> run[i].req.id != run[j].req.id)
  }

  lemma FreshTail(m: Model, arrange: Arrange, t: Table, run: seq<Call>)
    requires GoodModel(m) && FreshRun(t, run) && run != []
    ensures FreshRun(Handle(m, arrange, t, run[0].org, run[0].req).0, run[1..])
  {
    HandleStaysInside(m, arrange, t, run[0].org, run[0].req);
    hide Handle;
    var t1 := Handle(m, arrange, t, run[0].org, run[0].req).0;
    forall i | 0 <= i < |run[1..]| ensures FreshId(t1, run[1..][i].req) {
      assert FreshId(t, run[i + 1].req);
    }
  }

  /** Somebody else's request does not change what an organization owns. */
  lemma ForeignCall(m: Model, arrange: Arrange, t: Table, c: Call, org: int)
    requires GoodModel(m) && FreshId(t, c.req) && c.org != org
    ensures SameOwn(Handle(m, arrange, t, c.org, c.req).0, t, org)
  {
    HandleStaysInside(m, arrange, t, c.org, c.req);
    hide Handle;
  }

  lemma SameOwnTransitive(a: Table, b: Table, c: Table, org: int)
    requires SameOwn(a, b, org) && SameOwn(b, c, org)
    ensures SameOwn(a, c, org)
  {
    forall id | Owns(org, a, id) || Owns(org, c, id) ensures Owns(org, a, id) && Owns(org, c, id) && a[id] == c[id] {
      assert Owns(org, b, id);
    }
  }

  /**
   Non-interference: in any interleaving with other organizations' requests, an
   organization is answered exactly as if it were alone on any table that holds
   its rows, and ends with exactly the same rows.
   */
  lemma {:induction false} NonInterference(m: Model, arrange: Arrange, t: Table, u: Table, run: seq<Call>, org: int)
    requires GoodModel(m) && SameOwn(t, u, org) && FreshRun(t, run) && FreshRun(u, OnlyOf(run, org))
    ensures Answers(m, arrange, t, run, org) == Serve(m, arrange, u, OnlyOf(run, org)).1
    ensures SameOwn(Serve(m, arrange, t, run).0, Serve(m, arrange, u, OnlyOf(run, org)).0, org)
    decreases |run|
  {
    if run != [] {
      var c, alone := run[0], OnlyOf(run, org);
      assert FreshId(t, c.req);
      FreshTail(m, arrange, t, run);
      hide Handle, SameOwn, FreshRun, FreshId;
      var t1 := Handle(m, arrange, t, c.org, c.req).0;
      if c.org == org {
        assert alone[0] == c && alone[1..] == OnlyOf(run[1..], org);
        assert FreshId(u, c.req) by { FreshHead(u, alone); }
        HandleSeesOnlyOwn(m, arrange, t, u, org, c.req);
        FreshTail(m, arrange, u, alone);
        NonInterference(m, arrange, t1, Handle(m, arrange, u, org, c.req).0, run[1..], org);
      } else {
        ForeignCall(m, arrange, t, c, org);
        SameOwnTransitive(t1, t, u, org);
        assert alone == OnlyOf(run[1..], org);
        NonInterference(m, arrange, t1, u, run[1..], org);
      }
    }
  }

  lemma FreshHead(t: Table, run: seq<Call>)
    requires FreshRun(t, run) && run != []
    ensures FreshId(t, run[0].req)
  {
  }

  /** Whatever everybody does, a row keeps its organization for as long as it exists. */
  lemma {:induction false} RowsNeverMove(m: Model, arrange: Arrange, t: Table, run: seq<Call>, id: nat)
    requires GoodModel(m) && FreshRun(t, run)
    requires id in t || forall i :: 0 <= i < |run| ==> !(run[i].req.Post? && run[i].req.id == id)
    ensures var t' := Serve(m, arrange, t, run).0;
            id in t' ==> id in t && t'[id].org == t[id].org
    decreases |run|
  {
    if run != [] {
      FreshHead(t, run);
      FreshTail(m, arrange, t, run);
      HandleStaysInside(m, arrange, t, run[0].org, run[0].req);
      hide Handle;
      var t1 := Handle(m, arrange, t, run[0].org, run[0].req).0;
      if id !in t1 {
        forall i | 0 <= i < |run[1..]| ensures !(run[1..][i].req.Post? && run[1..][i].req.id == id) {
          assert FreshId(t, run[i + 1].req);
        }
      }
      RowsNeverMove(m, arrange, t1, run[1..], id);
    }
  }

  /** An organization that makes no request keeps every row, and gains none. */
  lemma {:induction false} OthersAreUntouched(m: Model, arrange: Arrange, t: Table, run: seq<Call>, org: int)
    requires GoodModel(m) && FreshRun(t, run) && forall i :: 0 <= i < |run| ==> run[i].org != org
    ensures SameOwn(Serve(m, arrange, t, run).0, t, org)
  {
    NobodysCalls(run, org);
    NonInterference(m, arrange, t, t, run, org);
  }

  lemma {:induction false} NobodysCalls(run: seq<Call>, org: int)
    requires forall i :: 0 <= i < |run| ==> run[i].org != org
    ensures OnlyOf(run, org) == []
  {
    if run != [] { NobodysCalls(run[1..], org); }
  }
}
