/** BaseModel's statements as operations on a table of rows, and the generic handlers built on them. */
module CrudTable {
  import opened Wrappers

  type Column = string

  datatype Val = Null | Num(n: int) | Text(s: string)

  /** `org` is the organization_id column; `cols` holds the others. */
  datatype Row = Row(org: Val, deleted: bool, cols: map<Column, Val>)

  const ORG: Column := "organization_id"

  /** A body: the fields present in it, undefined ones left out. */
  type Body = map<Column, Val>

  /**
   A concrete model: the static getters of its class, the guards its controller
   runs before an update and a delete, and the day a business date defaults to.
   beforeUpdate sees the record and the body; it refuses with None, or answers
   with the body as it leaves it for the statement.
   */
  datatype Model = Model(hasOrgScope: bool, softDelete: bool, fillable: set<Column>, filterable: set<Column>,
                         businessDates: set<Column>, deactivate: map<Column, Val>, today: Val,
                         beforeUpdate: (Row, Body) -> Option<Body>, mayDelete: Row -> bool)

  /** The organization argument: left out, the UNSCOPED symbol, or an id. */
  datatype OrgArg = Missing | Unscoped | Scoped(id: int)

  datatype Error = OrgRequired | NotFound | OrgImmutable | NothingToWrite | Rejected | NoSoftDelete | DuplicateId

  type Table = map<nat, Row>

  // ---------------------------------------------------------------- WHERE

  /** scopedOrg: None binds no organization. */
  function ScopedOrg(m: Model, org: OrgArg): Result<Option<int>, Error> {
    if !m.hasOrgScope || org.Unscoped? then Ok(None)
    else if org.Missing? then Err(OrgRequired)
    else Ok(Some(org.id))
  }

  predicate InScope(bound: Option<int>, r: Row) {
    bound.Some? ==> r.org == Num(bound.value)
  }

  predicate Live(m: Model, r: Row) {
    m.softDelete ==> !r.deleted
  }

  function ColumnOf(id: nat, r: Row, c: Column): Val {
    if c == "id" then Num(id)
    else if c == ORG then r.org
    else if c in r.cols then r.cols[c]
    else Null
  }

  /** `col = ?` is never true of NULL, on either side. */
  predicate SqlEq(a: Val, b: Val) {
    a == b && !a.Null?
  }

  predicate Filterable(m: Model, c: Column) {
    c in m.fillable || c in m.filterable || c == "id" || c == ORG
  }

  predicate Matches(m: Model, filters: Body, id: nat, r: Row) {
    forall c :: c in filters.Keys && Filterable(m, c) ==> SqlEq(ColumnOf(id, r, c), filters[c])
  }

  datatype Deleted = Hide | Include | Only

  predicate DeletedOk(m: Model, d: Deleted, r: Row) {
    if !m.softDelete then true
    else if d.Only? then r.deleted
    else d.Include? || !r.deleted
  }

  // ---------------------------------------------------------------- statements

  function FindById(m: Model, t: Table, id: nat, org: OrgArg): Result<Option<Row>, Error> {
    match ScopedOrg(m, org)
    case Err(e) => Err(e)
    case Ok(bound) => Ok(if id in t && InScope(bound, t[id]) && Live(m, t[id]) then Some(t[id]) else None)
  }

  function FindByIdOrFail(m: Model, t: Table, id: nat, org: OrgArg): Result<Row, Error> {
    match FindById(m, t, id, org)
    case Err(e) => Err(e)
    case Ok(None) => Err(NotFound)
    case Ok(Some(r)) => Ok(r)
  }

  /** The rows a list or a count selects, by id. */
  function Select(m: Model, t: Table, filters: Body, org: OrgArg, d: Deleted): Result<Table, Error> {
    if d.Only? && !m.softDelete then Ok(map[])
    else
      match ScopedOrg(m, org)
      case Err(e) => Err(e)
      case Ok(bound) =>
        Ok(map id | id in t && InScope(bound, t[id]) && DeletedOk(m, d, t[id]) && Matches(m, filters, id, t[id]) ::
            t[id])
  }

  function Filled(m: Model, body: Body): Body {
    map c | c in body && c in m.fillable :: body[c]
  }

  /** create's column list: the fillable fields, business dates defaulted. */
  function Dated(m: Model, body: Body): Body {
    var filled := Filled(m, body);
    map c | c in filled.Keys + m.businessDates ::
      if c in m.businessDates && (c !in filled || filled[c].Null?) then m.today else filled[c]
  }

  function NewRow(written: Body): Row {
    Row(if ORG in written then written[ORG] else Null, false, written - {ORG})
  }

  function Create(m: Model, t: Table, body: Body, id: nat): (Table, Result<Row, Error>) {
    var written := Dated(m, body);
    if written == map[] then (t, Err(NothingToWrite))
    else if id in t then (t, Err(DuplicateId))
    else (t[id := NewRow(written)], Ok(NewRow(written)))
  }

  function Written(r: Row, written: Body): Row {
    r.(org := if ORG in written then written[ORG] else r.org, cols := r.cols + (written - {ORG}))
  }

  /** The row an UPDATE, DELETE or restore of `id` would touch. */
  predicate Hits(t: Table, id: nat, bound: Option<int>) {
    id in t && InScope(bound, t[id])
  }

  /** A live row of the organization: what a locking SELECT finds and an UPDATE writes to. */
  predicate Reaches(m: Model, t: Table, org: int, id: nat) {
    Hits(t, id, if m.hasOrgScope then Some(org) else None) && Live(m, t[id])
  }

  function Update(m: Model, t: Table, id: nat, body: Body, org: OrgArg): (Table, Result<Row, Error>) {
    if m.hasOrgScope && ORG in body then (t, Err(OrgImmutable))
    else
      var filled := Filled(m, body);
      if filled == map[] then (t, FindByIdOrFail(m, t, id, org))
      else
        match ScopedOrg(m, org)
        case Err(e) => (t, Err(e))
        case Ok(bound) =>
          if Hits(t, id, bound) && Live(m, t[id]) then
            (t[id := Written(t[id], filled)], Ok(Written(t[id], filled)))
          else (t, Err(NotFound))
  }

  function SoftDeleted(m: Model, r: Row): Row {
    r.(deleted := true, cols := r.cols + m.deactivate)
  }

  function Delete(m: Model, t: Table, id: nat, org: OrgArg): (Table, Result<(), Error>) {
    match ScopedOrg(m, org)
    case Err(e) => (t, Err(e))
    case Ok(bound) =>
      if !Hits(t, id, bound) || !Live(m, t[id]) then (t, Err(NotFound))
      else if m.softDelete then (t[id := SoftDeleted(m, t[id])], Ok(()))
      else (t - {id}, Ok(()))
  }

  function ForceDelete(m: Model, t: Table, id: nat, org: OrgArg): (Table, Result<(), Error>) {
    match ScopedOrg(m, org)
    case Err(e) => (t, Err(e))
    case Ok(bound) => if Hits(t, id, bound) then (t - {id}, Ok(())) else (t, Err(NotFound))
  }

  function Restore(m: Model, t: Table, id: nat, org: OrgArg): (Table, Result<Row, Error>) {
    if !m.softDelete then (t, Err(NoSoftDelete))
    else
      match ScopedOrg(m, org)
      case Err(e) => (t, Err(e))
      case Ok(bound) =>
        if Hits(t, id, bound) && t[id].deleted then
          (t[id := t[id].(deleted := false)], Ok(t[id].(deleted := false)))
        else (t, Err(NotFound))
  }

  // ---------------------------------------------------------------- handlers

  /** `id` of a create is the value AUTO_INCREMENT supplies. */
  datatype Request =
    | List(filters: Body, deleted: Deleted, orderBy: Column, descending: bool, offset: nat, limit: nat)
    | Get(id: nat)
    | Post(body: Body, id: nat)
    | Put(id: nat, body: Body)
    | Destroy(id: nat)
    | Undelete(id: nat)
    | Purge(id: nat)

  /** A row of a page, with its id. */
  datatype Entry = Entry(id: nat, row: Row)

  /** A list answers with its page and the total. */
  datatype Response = Page(rows: seq<Entry>, total: nat) | Record(row: Row) | NoContent | Failed(error: Error)

  /** ORDER BY a column, up or down: the database's order of the selected rows, the same for the same selection. */
  type Arrange = (Column, bool, Table) -> seq<Entry>

  /** Every selected row, once, under its id. */
  ghost predicate IsArranged(rows: seq<Entry>, selected: Table) {
    && (forall i :: 0 <= i < |rows| ==> rows[i].id in selected && rows[i].row == selected[rows[i].id])
    && (forall i, j :: 0 <= i < j < |rows| ==> rows[i].id != rows[j].id)
    && (forall id :: id in selected ==> Entry(id, selected[id]) in rows)
  }

  ghost predicate Arranges(arrange: Arrange) {
    forall c, down, selected :: IsArranged(arrange(c, down, selected), selected)
  }

  /** An order_by that is not a sortable column is replaced by the id. */
  function SafeOrderBy(m: Model, c: Column): Column {
    if c in m.fillable || c in {"id", "created_at", "updated_at"} then c else "id"
  }

  /** Where a page starts, the first one being page 0. */
  function OffsetOf(page: nat, limit: nat): nat {
    page * limit
  }

  function PageOf(rows: seq<Entry>, offset: nat, limit: nat): seq<Entry> {
    var from := if offset < |rows| then offset else |rows|;
    var upTo := if from + limit < |rows| then from + limit else |rows|;
    rows[from..upTo]
  }

  function ToResponse(r: Result<Row, Error>): Response {
    match r
    case Ok(row) => Record(row)
    case Err(e) => Failed(e)
  }

  function Handle(m: Model, arrange: Arrange, t: Table, org: int, req: Request): (Table, Response) {
    var scope := Scoped(org);
    match req
    case List(filters, d, orderBy, descending, offset, limit) =>
      (match Select(m, t, filters, scope, d)
       case Ok(selected) =>
         (t, Page(PageOf(arrange(SafeOrderBy(m, orderBy), descending, selected), offset, limit), |selected|))
       case Err(e) => (t, Failed(e)))
    case Get(id) => (t, ToResponse(FindByIdOrFail(m, t, id, scope)))
    case Post(body, id) =>
      var (t', r) := Create(m, t, if m.hasOrgScope then body[ORG := Num(org)] else body, id);
      (t', ToResponse(r))
    case Put(id, body) =>
      if m.hasOrgScope && ORG in body then (t, Failed(OrgImmutable))
      else
        (match FindByIdOrFail(m, t, id, scope)
         case Err(e) => (t, Failed(e))
         case Ok(was) =>
           match m.beforeUpdate(was, body)
           case None => (t, Failed(Rejected))
           case Some(approved) =>
             var (t', r) := Update(m, t, id, approved, scope);
             (t', ToResponse(r)))
    case Destroy(id) =>
      (match FindByIdOrFail(m, t, id, scope)
       case Err(e) => (t, Failed(e))
       case Ok(was) =>
         if !m.mayDelete(was) then (t, Failed(Rejected))
         else
           var (t', r) := Delete(m, t, id, scope);
           (t', if r.Ok? then NoContent else Failed(r.error)))
    case Undelete(id) =>
      var (t', r) := Restore(m, t, id, scope);
      (t', ToResponse(r))
    case Purge(id) =>
      var (t', r) := ForceDelete(m, t, id, scope);
      (t', if r.Ok? then NoContent else Failed(r.error))
  }
}
