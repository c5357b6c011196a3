/** What each request does and answers, in terms of the rows themselves. */
module CrudHandlers {
  import opened Wrappers
  import opened CrudTable
  import opened CrudLaws
  import Bits

  /** The request's organization may see the row: it is there, its own, and not soft-deleted. */
  predicate Sees(m: Model, t: Table, org: int, id: nat) {
    id in t && (m.hasOrgScope ==> t[id].org == Num(org)) && (m.softDelete ==> !t[id].deleted)
  }

  lemma NothingFilled(m: Model, r: Row, body: Body)
    requires Filled(m, body) == map[]
    ensures Carries(m, r, r, body)
  {
    assert forall c :: c in Filled(m, body) <==> c in body && c in m.fillable;
  }

  /**
   An update is refused when the body names the organization, when the row is not there for the caller, or when
   the guard refuses record and body; otherwise the row carries exactly what the guard left of the body.
   */
  lemma PutAsksTheGuard(m: Model, arrange: Arrange, t: Table, org: int, id: nat, body: Body)
    ensures var (t', answer) := Handle(m, arrange, t, org, Put(id, body));
            if m.hasOrgScope && ORG in body then t' == t && answer == Failed(OrgImmutable)
            else if !Sees(m, t, org, id) then t' == t && answer == Failed(NotFound)
            else
              match m.beforeUpdate(t[id], body)
              case None => t' == t && answer == Failed(Rejected)
              case Some(approved) =>
                if m.hasOrgScope && ORG in approved then t' == t && answer == Failed(OrgImmutable)
                else
                  && OnlyRow(t, t', id) && id in t' && Carries(m, t[id], t'[id], approved)
                  && answer == Record(t'[id])
  {
    if Sees(m, t, org, id) && m.beforeUpdate(t[id], body).Some? {
      var approved := m.beforeUpdate(t[id], body).value;
      WrittenCarries(m, t[id], approved);
      if Filled(m, approved) == map[] { NothingFilled(m, t[id], approved); }
    }
    hide Filled, Written, Carries;
  }

  /** A delete needs the row and its guard: a soft one marks the row, a hard one removes it. */
  lemma DestroyAsksTheGuard(m: Model, arrange: Arrange, t: Table, org: int, id: nat)
    ensures var (t', answer) := Handle(m, arrange, t, org, Destroy(id));
            if !Sees(m, t, org, id) then t' == t && answer == Failed(NotFound)
            else if !m.mayDelete(t[id]) then t' == t && answer == Failed(Rejected)
            else
              && OnlyRow(t, t', id) && answer == NoContent
              && (if m.softDelete then id in t' && IsMarked(m, t[id], t'[id]) else id !in t')
  {
  }

  /** A row is shown exactly to those who may see it, as it stands; reading changes nothing. */
  lemma GetShowsTheRow(m: Model, arrange: Arrange, t: Table, org: int, id: nat)
    ensures Handle(m, arrange, t, org, Get(id))
            == (t, if Sees(m, t, org, id) then Record(t[id]) else Failed(NotFound))
  {
  }

  /** Nobody sees a row of the caller's that was deleted, until it is restored. */
  lemma DestroyedIsUnseen(m: Model, arrange: Arrange, t: Table, org: int, id: nat, other: int)
    requires Handle(m, arrange, t, org, Destroy(id)).1 == NoContent
    ensures Handle(m, arrange, Handle(m, arrange, t, org, Destroy(id)).0, other, Get(id)).1 == Failed(NotFound)
  {
    DestroyAsksTheGuard(m, arrange, t, org, id);
    GetShowsTheRow(m, arrange, Handle(m, arrange, t, org, Destroy(id)).0, other, id);
    hide Handle;
  }

  /** Only a soft-deleted row of the caller's comes back, unchanged but for the mark. */
  lemma UndeleteIff(m: Model, arrange: Arrange, t: Table, org: int, id: nat)
    ensures var (t', answer) := Handle(m, arrange, t, org, Undelete(id));
            if !m.softDelete then t' == t && answer == Failed(NoSoftDelete)
            else if id in t && (m.hasOrgScope ==> t[id].org == Num(org)) && t[id].deleted then
              && OnlyRow(t, t', id) && id in t' && answer == Record(t'[id])
              && !t'[id].deleted && t'[id].org == t[id].org && t'[id].cols == t[id].cols
            else t' == t && answer == Failed(NotFound)
  {
  }

  /** A purge takes a row of the caller's, deleted or live, and leaves none of that id. */
  lemma PurgeIff(m: Model, arrange: Arrange, t: Table, org: int, id: nat)
    ensures var (t', answer) := Handle(m, arrange, t, org, Purge(id));
            if id in t && (m.hasOrgScope ==> t[id].org == Num(org)) then
              OnlyRow(t, t', id) && id !in t' && answer == NoContent
            else t' == t && answer == Failed(NotFound)
  {
  }

  /**
   A create adds one live row under the supplied id with the fillable columns of the body, the organization
   replaced by the caller's, and today's date in the date columns that were left out.
   */
  lemma PostInserts(m: Model, arrange: Arrange, t: Table, org: int, body: Body, id: nat)
    requires ORG !in m.businessDates
    ensures var sent := if m.hasOrgScope then body[ORG := Num(org)] else body;
            var (t', answer) := Handle(m, arrange, t, org, Post(body, id));
            if (forall c :: c in sent ==> c !in m.fillable) && m.businessDates == {} then
              t' == t && answer == Failed(NothingToWrite)
            else if id in t then t' == t && answer == Failed(DuplicateId)
            else
              && OnlyRow(t, t', id) && id in t' && answer == Record(t'[id]) && !t'[id].deleted
              && t'[id].org == (if ORG in sent && ORG in m.fillable then sent[ORG] else Null)
              && (forall c :: c != ORG ==>
                    var given := c in sent && c in m.fillable;
                    && (c in t'[id].cols <==> given || c in m.businessDates)
                    && (c in t'[id].cols ==>
                          t'[id].cols[c]
                          == if given && (c !in m.businessDates || !sent[c].Null?) then sent[c] else m.today))
  {
    var sent := if m.hasOrgScope then body[ORG := Num(org)] else body;
    var dated := Dated(m, sent);
    assert forall c :: c in dated <==> (c in sent && c in m.fillable) || c in m.businessDates;
    if dated != map[] {
      var c :| c in dated;
    } else {
      forall c ensures !(c in sent && c in m.fillable) && c !in m.businessDates {
        assert c !in dated;
      }
    }
  }

  // ---------------------------------------------------------------- lists

  /** What a list is to show: own rows that pass, without, with or only the deleted ones. */
  predicate Chosen(m: Model, t: Table, org: int, filters: Body, d: Deleted, id: nat) {
    id in t && IsListed(m, Scoped(org), filters, d, id, t[id])
  }

  lemma SelectIsChosen(m: Model, t: Table, org: int, filters: Body, d: Deleted)
    ensures Select(m, t, filters, Scoped(org), d) == Ok(map id | id in t && Chosen(m, t, org, filters, d, id) :: t[id])
  {
    SelectIsExact(m, t, filters, Scoped(org), d);
    hide IsListed, Select;
    var chosen := map id | id in t && Chosen(m, t, org, filters, d, id) :: t[id];
    assert Select(m, t, filters, Scoped(org), d).value == chosen;
  }

  function ChosenRows(m: Model, t: Table, org: int, req: Request): Table
    requires req.List?
  {
    map id | id in t && Chosen(m, t, org, req.filters, req.deleted, id) :: t[id]
  }

  /** All rows to be shown, in the order asked for; a column that may not be sorted by gives way to the id. */
  function Ordered(m: Model, arrange: Arrange, t: Table, org: int, req: Request): seq<Entry>
    requires req.List?
  {
    var sortable := req.orderBy in m.fillable || req.orderBy in {"id", "created_at", "updated_at"};
    arrange(if sortable then req.orderBy else "id", req.descending, ChosenRows(m, t, org, req))
  }

  /** A page is the stretch of that order that starts at its offset; the total is the number of rows to be shown. */
  lemma ListIsExact(m: Model, arrange: Arrange, t: Table, org: int, req: Request)
    requires req.List?
    ensures var (t', answer) := Handle(m, arrange, t, org, req);
            var rows := Ordered(m, arrange, t, org, req);
            && t' == t && answer.Page? && answer.total == |ChosenRows(m, t, org, req)|
            && |answer.rows| == (if req.offset >= |rows| then 0
                                 else if req.limit <= |rows| - req.offset then req.limit
                                 else |rows| - req.offset)
            && forall i :: 0 <= i < |answer.rows| ==> answer.rows[i] == rows[req.offset + i]
  {
    SelectIsChosen(m, t, org, req.filters, req.deleted);
    hide Select, Chosen, Passes;
  }

  lemma OrderedHolds(m: Model, arrange: Arrange, t: Table, org: int, req: Request)
    requires Arranges(arrange) && req.List?
    ensures var rows := Ordered(m, arrange, t, org, req);
            && (forall i :: 0 <= i < |rows| ==> Chosen(m, t, org, req.filters, req.deleted, rows[i].id))
            && (forall i :: 0 <= i < |rows| ==> rows[i].row == t[rows[i].id])
            && (forall i, j :: 0 <= i < j < |rows| ==> rows[i].id != rows[j].id)
            && (forall id :: id in t && Chosen(m, t, org, req.filters, req.deleted, id) ==> Entry(id, t[id]) in rows)
  {
    var (rows, chosen) := (Ordered(m, arrange, t, org, req), ChosenRows(m, t, org, req));
    hide Chosen;
    assert IsArranged(rows, chosen);
    forall i | 0 <= i < |rows|
      ensures Chosen(m, t, org, req.filters, req.deleted, rows[i].id) && rows[i].row == t[rows[i].id]
    {
      assert rows[i].id in chosen;
    }
    forall id | id in t && Chosen(m, t, org, req.filters, req.deleted, id) ensures Entry(id, t[id]) in rows {
      assert id in chosen && chosen[id] == t[id];
    }
  }

  /** Every row on a page is to be shown, and is shown as it stands. */
  lemma PageShowsChosen(m: Model, arrange: Arrange, t: Table, org: int, req: Request, i: nat)
    requires Arranges(arrange) && req.List? && i < |Handle(m, arrange, t, org, req).1.rows|
    ensures var entry := Handle(m, arrange, t, org, req).1.rows[i];
            Chosen(m, t, org, req.filters, req.deleted, entry.id) && entry.row == t[entry.id]
  {
    ListIsExact(m, arrange, t, org, req);
    OrderedHolds(m, arrange, t, org, req);
    hide Handle, Chosen, Ordered;
  }

  /** The row stands at this place of the page that starts at this offset. */
  ghost predicate IsAt(m: Model, arrange: Arrange, t: Table, org: int, req: Request, id: nat, offset: nat, i: nat)
    requires req.List?
  {
    var answer := Handle(m, arrange, t, org, req.(offset := offset)).1;
    answer.Page? && i < |answer.rows| && answer.rows[i].id == id
  }

  lemma SameOrder(m: Model, arrange: Arrange, t: Table, org: int, req: Request, offset: nat)
    requires req.List?
    ensures Ordered(m, arrange, t, org, req.(offset := offset)) == Ordered(m, arrange, t, org, req)
  {
    hide Chosen;
    assert ChosenRows(m, t, org, req.(offset := offset)) == ChosenRows(m, t, org, req);
  }

  lemma IsAtIff(m: Model, arrange: Arrange, t: Table, org: int, req: Request, id: nat, offset: nat, i: nat)
    requires req.List?
    ensures var rows := Ordered(m, arrange, t, org, req);
            IsAt(m, arrange, t, org, req, id, offset, i) <==>
              i < req.limit && offset + i < |rows| && rows[offset + i].id == id
  {
    hide Handle, Ordered;
    SameOrder(m, arrange, t, org, req, offset);
    ListIsExact(m, arrange, t, org, req.(offset := offset));
  }

  lemma OnePlace(rows: seq<Entry>, e: Entry) returns (k: nat)
    requires e in rows && forall i, j :: 0 <= i < j < |rows| ==> rows[i].id != rows[j].id
    ensures forall j :: 0 <= j < |rows| && rows[j].id == e.id <==> j == k
  {
    k :| 0 <= k < |rows| && rows[k] == e;
  }

  /** Every row to be shown has its place in the order, and is met there only. */
  lemma RowHasAPlace(m: Model, arrange: Arrange, t: Table, org: int, req: Request, id: nat) returns (k: nat)
    requires Arranges(arrange) && req.List? && Chosen(m, t, org, req.filters, req.deleted, id)
    ensures forall offset: nat, i: nat ::
              IsAt(m, arrange, t, org, req, id, offset, i) <==> i < req.limit && offset + i == k
  {
    assert id in t;
    hide Chosen, Arranges, Ordered, IsAt;
    OrderedHolds(m, arrange, t, org, req);
    k := OnePlace(Ordered(m, arrange, t, org, req), Entry(id, t[id]));
    forall offset: nat, i: nat
      ensures IsAt(m, arrange, t, org, req, id, offset, i) <==> i < req.limit && offset + i == k
    {
      IsAtIff(m, arrange, t, org, req, id, offset, i);
    }
  }

  lemma Split(k: nat, d: nat) returns (q: nat, r: nat)
    requires d > 0
    ensures r < d && OffsetOf(q, d) + r == k
  {
    q, r := k / d, k % d;
  }

  lemma SamePlace(p: nat, j: nat, p': nat, j': nat, limit: nat)
    requires j < limit && j' < limit && OffsetOf(p, limit) + j == OffsetOf(p', limit) + j'
    ensures p == p' && j == j'
  {
    if p < p' {
      Bits.MulMonotone(p + 1, p', limit);
    } else if p' < p {
      Bits.MulMonotone(p' + 1, p, limit);
    }
  }

  /** The pages of one size hold every row that is to be shown exactly once. */
  lemma PagesHoldEachRowOnce(m: Model, arrange: Arrange, t: Table, org: int, req: Request, id: nat)
    returns (page: nat, i: nat)
    requires Arranges(arrange) && req.List? && req.limit > 0 && Chosen(m, t, org, req.filters, req.deleted, id)
    ensures IsAt(m, arrange, t, org, req, id, OffsetOf(page, req.limit), i)
    ensures forall page': nat, i': nat ::
              IsAt(m, arrange, t, org, req, id, OffsetOf(page', req.limit), i') ==> page' == page && i' == i
  {
    var k := RowHasAPlace(m, arrange, t, org, req, id);
    hide *;
    page, i := Split(k, req.limit);
    forall page': nat, i': nat | IsAt(m, arrange, t, org, req, id, OffsetOf(page', req.limit), i')
      ensures page' == page && i' == i
    {
      SamePlace(page, i, page', i', req.limit);
    }
  }
}
