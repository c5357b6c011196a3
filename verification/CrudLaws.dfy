/** What the statements of CrudTable mean for one another: what one writes the next one reads. */
module CrudLaws {
  import opened Wrappers
  import opened CrudTable

  // ---------------------------------------------------------------- which rows a statement reaches

  /** The organization argument covers the row. */
  predicate Covers(m: Model, org: OrgArg, r: Row) {
    !m.hasOrgScope || org.Unscoped? || (org.Scoped? && r.org == Num(org.id))
  }

  /** No statement on a scoped table runs without an organization. */
  lemma MissingOrgIsRefused(m: Model, t: Table, id: nat, body: Body, d: Deleted)
    requires m.hasOrgScope
    ensures FindById(m, t, id, Missing) == Err(OrgRequired) && FindByIdOrFail(m, t, id, Missing) == Err(OrgRequired)
    ensures m.softDelete || !d.Only? ==> Select(m, t, body, Missing, d) == Err(OrgRequired)
    ensures Update(m, t, id, body, Missing) == (t, Err(if ORG in body then OrgImmutable else OrgRequired))
    ensures Delete(m, t, id, Missing) == (t, Err(OrgRequired))
    ensures ForceDelete(m, t, id, Missing) == (t, Err(OrgRequired))
    ensures Restore(m, t, id, Missing) == (t, Err(if m.softDelete then OrgRequired else NoSoftDelete))
  {
  }

  /** With one, each reaches exactly the rows it covers: live ones, all of them, or the deleted ones. */
  lemma ReachIff(m: Model, t: Table, id: nat, body: Body, org: OrgArg)
    requires m.hasOrgScope ==> !org.Missing?
    ensures var seen := id in t && Covers(m, org, t[id]) && (m.softDelete ==> !t[id].deleted);
            && FindById(m, t, id, org) == Ok(if seen then Some(t[id]) else None)
            && FindByIdOrFail(m, t, id, org) == (if seen then Ok(t[id]) else Err(NotFound))
            && (Update(m, t, id, body, org).1.Ok? <==> seen && !(m.hasOrgScope && ORG in body))
            && (Delete(m, t, id, org).1.Ok? <==> seen)
    ensures ForceDelete(m, t, id, org).1.Ok? <==> id in t && Covers(m, org, t[id])
    ensures Restore(m, t, id, org).1.Ok? <==> m.softDelete && id in t && Covers(m, org, t[id]) && t[id].deleted
  {
    hide Filled, Written, SoftDeleted;
  }

  /** A statement that fails leaves the table as it was. */
  lemma FailureChangesNothing(m: Model, t: Table, id: nat, body: Body, org: OrgArg)
    ensures Create(m, t, body, id).1.Err? ==> Create(m, t, body, id).0 == t
    ensures Update(m, t, id, body, org).1.Err? ==> Update(m, t, id, body, org).0 == t
    ensures Delete(m, t, id, org).1.Err? ==> Delete(m, t, id, org).0 == t
    ensures ForceDelete(m, t, id, org).1.Err? ==> ForceDelete(m, t, id, org).0 == t
    ensures Restore(m, t, id, org).1.Err? ==> Restore(m, t, id, org).0 == t
  {
    hide Filled, Dated, Written, SoftDeleted, NewRow;
  }

  /** The live rows of a single organization, as the locked transactions look for them. */
  lemma ReachesIff(m: Model, t: Table, org: int, id: nat)
    ensures Reaches(m, t, org, id) <==>
              id in t && (m.hasOrgScope ==> t[id].org == Num(org)) && (m.softDelete ==> !t[id].deleted)
  {
  }

  /** The row meets every filter on a column that may be filtered; no row meets one for NULL. */
  predicate Passes(m: Model, filters: Body, id: nat, r: Row) {
    forall c :: c in filters.Keys && (c in m.fillable || c in m.filterable || c == "id" || c == ORG) ==>
      && !filters[c].Null?
      && (if c == "id" then filters[c] == Num(id)
          else if c == ORG then filters[c] == r.org
          else c in r.cols && filters[c] == r.cols[c])
  }

  lemma PassesIff(m: Model, filters: Body, id: nat, r: Row)
    ensures Matches(m, filters, id, r) <==> Passes(m, filters, id, r)
  {
  }

  /** A row to be listed or counted: covered, passing the filters, and deleted or not as asked. */
  predicate IsListed(m: Model, org: OrgArg, filters: Body, d: Deleted, id: nat, r: Row) {
    && Covers(m, org, r) && Passes(m, filters, id, r)
    && match d
       case Hide => m.softDelete ==> !r.deleted
       case Include => true
       case Only => m.softDelete && r.deleted
  }

  /** A selection holds every such row and no other. */
  lemma SelectIsExact(m: Model, t: Table, filters: Body, org: OrgArg, d: Deleted)
    requires m.hasOrgScope ==> !org.Missing?
    ensures var r := Select(m, t, filters, org, d);
            && r.Ok?
            && (forall id :: id in r.value <==> id in t && IsListed(m, org, filters, d, id, t[id]))
            && (forall id :: id in r.value ==> r.value[id] == t[id])
  {
    hide Matches, Passes;
    forall id | id in t ensures Matches(m, filters, id, t[id]) <==> Passes(m, filters, id, t[id]) {
      PassesIff(m, filters, id, t[id]);
    }
  }

  // ---------------------------------------------------------------- what a statement does to a row

  /** `r'` is `r` with the fillable columns of `body` and no other change. */
  ghost predicate Carries(m: Model, r: Row, r': Row, body: Body) {
    && r'.deleted == r.deleted
    && r'.org == (if ORG in body && ORG in m.fillable then body[ORG] else r.org)
    && (forall c :: c != ORG ==>
          if c in body && c in m.fillable then c in r'.cols && r'.cols[c] == body[c]
          else (c in r'.cols <==> c in r.cols) && (c in r.cols ==> r'.cols[c] == r.cols[c]))
  }

  /** Only the row `id` may differ. */
  ghost predicate OnlyRow(t: Table, t': Table, id: nat) {
    forall k :: k != id ==> (k in t' <==> k in t) && (k in t ==> t'[k] == t[k])
  }

  lemma WrittenCarries(m: Model, r: Row, body: Body)
    ensures Carries(m, r, Written(r, Filled(m, body)), body)
  {
  }

  /** `r'` is `r` soft-deleted: the mark set, and the columns that go with it switched off. */
  ghost predicate IsMarked(m: Model, r: Row, r': Row) {
    && r'.deleted && r'.org == r.org
    && (forall c ::
          if c in m.deactivate then c in r'.cols && r'.cols[c] == m.deactivate[c]
          else (c in r'.cols <==> c in r.cols) && (c in r.cols ==> r'.cols[c] == r.cols[c]))
  }

  lemma SoftDeletedIsMarked(m: Model, r: Row)
    ensures IsMarked(m, r, SoftDeleted(m, r))
  {
  }

  // ---------------------------------------------------------------- what one statement means for the next

  /** A row that a scoped create inserted is found in that organization, column by column as sent. */
  lemma CreatedIsFound(m: Model, t: Table, body: Body, id: nat, org: int, c: Column)
    requires m.hasOrgScope && ORG in m.fillable && ORG !in m.businessDates && id !in t && c in m.fillable && c != "id"
    ensures var sent := body[ORG := Num(org)];
            var (t', r) := Create(m, t, sent, id);
            && r.Ok? && FindById(m, t', id, Scoped(org)) == Ok(Some(r.value))
            && ColumnOf(id, r.value, c) == (if c in m.businessDates && (c !in sent || sent[c].Null?) then m.today
                                            else if c in sent then sent[c] else Null)
            && t' - {id} == t
  {
    var sent := body[ORG := Num(org)];
    assert ORG in Dated(m, sent) && Dated(m, sent)[ORG] == Num(org);
    assert Create(m, t, sent, id).0 - {id} == t;
  }

  /** An update writes the fillable columns it was sent and no other, in one row. */
  lemma UpdatedColumns(m: Model, t: Table, id: nat, body: Body, org: OrgArg, c: Column)
    requires c != "id" && Update(m, t, id, body, org).1.Ok?
    ensures var (t', r) := Update(m, t, id, body, org);
            && id in t && id in t' && t'[id] == r.value && FindById(m, t', id, org) == Ok(Some(r.value))
            && ColumnOf(id, r.value, c) == (if c in body && c in m.fillable then body[c] else ColumnOf(id, t[id], c))
            && t' - {id} == t - {id}
  {
    var (t', r) := Update(m, t, id, body, org);
    if c in body && c in m.fillable { assert c in Filled(m, body); }
    assert t' - {id} == t - {id};
  }

  /** A deleted row is found no more, and deleting it again fails. */
  lemma DeletedIsGone(m: Model, t: Table, id: nat, org: OrgArg)
    requires Delete(m, t, id, org).1.Ok?
    ensures var t' := Delete(m, t, id, org).0;
            && FindByIdOrFail(m, t', id, org) == Err(NotFound)
            && Delete(m, t', id, org) == (t', Err(NotFound))
            && t' - {id} == t - {id}
  {
    assert Delete(m, t, id, org).0 - {id} == t - {id};
  }

  /** A force-deleted row is gone for good, deleted or live, and no other row is. */
  lemma ForceDeletedIsGone(m: Model, t: Table, id: nat, org: OrgArg)
    requires ForceDelete(m, t, id, org).1.Ok?
    ensures var t' := ForceDelete(m, t, id, org).0;
            && id !in t' && t' == t - {id}
            && FindByIdOrFail(m, t', id, org) == Err(NotFound) && ForceDelete(m, t', id, org) == (t', Err(NotFound))
            && Restore(m, t', id, org) == (t', Err(if m.softDelete then NotFound else NoSoftDelete))
  {
  }

  /** Restoring undoes a soft delete, except for the columns the delete switched off. */
  lemma RestoreUndoesDelete(m: Model, t: Table, id: nat, org: OrgArg)
    requires m.softDelete && Delete(m, t, id, org).1.Ok?
    ensures var (t', r) := Restore(m, Delete(m, t, id, org).0, id, org);
            && r == Ok(t[id].(cols := t[id].cols + m.deactivate))
            && t' == t[id := r.value]
            && FindById(m, t', id, org) == Ok(Some(r.value))
  {
    assert !t[id].deleted;
    var row := t[id].(cols := t[id].cols + m.deactivate);
    assert SoftDeleted(m, t[id]).(deleted := false) == row;
    assert t[id := SoftDeleted(m, t[id])][id := row] == t[id := row];
  }
}
