/** BaseModel as it runs: each statement changes the table in place. */
module TableStore {
  import opened Wrappers
  import opened CrudTable
  import opened CrudLaws

  /** Every condition of a WHERE clause holds of the row. */
  predicate Satisfies(conditions: Body, id: nat, r: Row) {
    forall c :: c in conditions.Keys ==> SqlEq(ColumnOf(id, r, c), conditions[c])
  }

  class Store {
    const model: Model
    var rows: Table

    constructor (model: Model)
      ensures this.model == model && rows == map[]
    {
      this.model := model;
      rows := map[];
    }

    // The loop over `fillable` that keeps the fields a body carries.
    method CollectFillable(body: Body) returns (filled: Body)
      ensures filled == Filled(model, body)
    {
      filled := map[];
      var left := model.fillable;
      while left != {}
        invariant left <= model.fillable
        invariant filled == map c | c in body && c in model.fillable && c !in left :: body[c]
        decreases left
      {
        var key: Column :| key in left;
        if key in body { filled := filled[key := body[key]]; }
        left := left - {key};
      }
    }

    // The conditions a filter object adds: unknown columns are dropped.
    method CollectConditions(filters: Body) returns (conditions: Body)
      ensures conditions == map c | c in filters && Filterable(model, c) :: filters[c]
      ensures forall id, r :: Matches(model, filters, id, r) <==> Satisfies(conditions, id, r)
    {
      conditions := map[];
      var left := filters.Keys;
      while left != {}
        invariant left <= filters.Keys
        invariant conditions == map c | c in filters && Filterable(model, c) && c !in left :: filters[c]
        decreases left
      {
        var col: Column :| col in left;
        if Filterable(model, col) { conditions := conditions[col := filters[col]]; }
        left := left - {col};
      }
    }

    method FindById(id: nat, org: OrgArg) returns (r: Result<Option<Row>, Error>)
      ensures r == CrudTable.FindById(model, rows, id, org)
    {
      var bound := ScopedOrg(model, org);
      if bound.Err? { return Err(bound.error); }
      if id in rows && InScope(bound.value, rows[id]) && (!model.softDelete || !rows[id].deleted) {
        return Ok(Some(rows[id]));
      }
      return Ok(None);
    }

    method FindByIdOrFail(id: nat, org: OrgArg) returns (r: Result<Row, Error>)
      ensures r == CrudTable.FindByIdOrFail(model, rows, id, org)
    {
      var found := FindById(id, org);
      match found
      case Err(e) => return Err(e);
      case Ok(None) => return Err(NotFound);
      case Ok(Some(row)) => return Ok(row);
    }

    // The rows findAll pages through and count counts.
    method SelectRows(filters: Body, org: OrgArg, d: Deleted) returns (r: Result<Table, Error>)
      ensures r == CrudTable.Select(model, rows, filters, org, d)
      ensures (model.hasOrgScope ==> !org.Missing?) ==>
                && r.Ok?
                && forall id :: id in r.value <==> id in rows && IsListed(model, org, filters, d, id, rows[id])
    {
      if model.hasOrgScope ==> !org.Missing? { SelectIsExact(model, rows, filters, org, d); }
      hide IsListed;
      if d.Only? && !model.softDelete { return Ok(map[]); }
      var bound := ScopedOrg(model, org);
      if bound.Err? { return Err(bound.error); }
      var conditions := CollectConditions(filters);
      var selected := ScanRows(conditions, bound.value, d);
      hide Matches, Satisfies;
      ghost var expected := CrudTable.Select(model, rows, filters, org, d).value;
      assert forall id :: id in selected <==> id in expected;
      assert selected == expected;
      return Ok(selected);
    }

    method ScanRows(conditions: Body, bound: Option<int>, d: Deleted) returns (selected: Table)
      ensures selected == map id | id in rows && InScope(bound, rows[id]) && DeletedOk(model, d, rows[id])
                                   && Satisfies(conditions, id, rows[id]) :: rows[id]
    {
      hide Satisfies, DeletedOk, InScope;
      selected := map[];
      var left := rows.Keys;
      while left != {}
        invariant left <= rows.Keys
        invariant selected == map id | id in rows && id !in left && InScope(bound, rows[id])
                                       && DeletedOk(model, d, rows[id])
                                       && Satisfies(conditions, id, rows[id]) :: rows[id]
        decreases left
      {
        var id: nat :| id in left;
        if InScope(bound, rows[id]) && DeletedOk(model, d, rows[id]) && Satisfies(conditions, id, rows[id]) {
          selected := selected[id := rows[id]];
        }
        left := left - {id};
      }
    }

    method Count(filters: Body, org: OrgArg, d: Deleted) returns (r: Result<nat, Error>)
      ensures match CrudTable.Select(model, rows, filters, org, d)
              case Ok(selected) => r == Ok(|selected|)
              case Err(e) => r == Err(e)
    {
      var selected := SelectRows(filters, org, d);
      match selected
      case Ok(found) => return Ok(|found|);
      case Err(e) => return Err(e);
    }

    method Create(body: Body, insertId: nat) returns (r: Result<Row, Error>)
      modifies this
      ensures (rows, r) == CrudTable.Create(model, old(rows), body, insertId)
    {
      var filtered := CollectFillable(body);
      var left := model.businessDates;
      ghost var target := Dated(model, body);
      while left != {}
        invariant left <= model.businessDates && rows == old(rows)
        invariant filtered == map c | c in Filled(model, body).Keys + (model.businessDates - left) ::
                                (if c in left then Filled(model, body)[c] else target[c])
        decreases left
      {
        var key: Column :| key in left;
        if key !in filtered || filtered[key].Null? { filtered := filtered[key := model.today]; }
        left := left - {key};
      }
      assert filtered == target;
      if filtered == map[] { return Err(NothingToWrite); }
      if insertId in rows { return Err(DuplicateId); }
      rows := rows[insertId := NewRow(filtered)];
      return Ok(rows[insertId]);
    }

    method Update(id: nat, body: Body, org: OrgArg) returns (r: Result<Row, Error>)
      modifies this
      ensures (rows, r) == CrudTable.Update(model, old(rows), id, body, org)
    {
      if model.hasOrgScope && ORG in body { return Err(OrgImmutable); }
      var filtered := CollectFillable(body);
      if filtered == map[] {
        r := FindByIdOrFail(id, org);
        return;
      }
      var bound := ScopedOrg(model, org);
      if bound.Err? { return Err(bound.error); }
      if !Hits(rows, id, bound.value) || !Live(model, rows[id]) { return Err(NotFound); }
      rows := rows[id := Written(rows[id], filtered)];
      return Ok(rows[id]);
    }

    method Delete(id: nat, org: OrgArg) returns (r: Result<(), Error>)
      modifies this
      ensures (rows, r) == CrudTable.Delete(model, old(rows), id, org)
    {
      var bound := ScopedOrg(model, org);
      if bound.Err? { return Err(bound.error); }
      if !Hits(rows, id, bound.value) || !Live(model, rows[id]) { return Err(NotFound); }
      rows := if model.softDelete then rows[id := SoftDeleted(model, rows[id])] else rows - {id};
      return Ok(());
    }

    method ForceDelete(id: nat, org: OrgArg) returns (r: Result<(), Error>)
      modifies this
      ensures (rows, r) == CrudTable.ForceDelete(model, old(rows), id, org)
    {
      var bound := ScopedOrg(model, org);
      if bound.Err? { return Err(bound.error); }
      if !Hits(rows, id, bound.value) { return Err(NotFound); }
      rows := rows - {id};
      return Ok(());
    }

    method Restore(id: nat, org: OrgArg) returns (r: Result<Row, Error>)
      modifies this
      ensures (rows, r) == CrudTable.Restore(model, old(rows), id, org)
    {
      if !model.softDelete { return Err(NoSoftDelete); }
      var bound := ScopedOrg(model, org);
      if bound.Err? { return Err(bound.error); }
      if !Hits(rows, id, bound.value) || !rows[id].deleted { return Err(NotFound); }
      rows := rows[id := rows[id].(deleted := false)];
      return Ok(rows[id]);
    }
  }
}
