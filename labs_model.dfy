/**
 * The laboratory tables and what the lab model layer does to them: lab,
 * contact, policy, opening-hours, resource, consumable-stock and history
 * rows; partial updates through `COALESCE`; the replace-all of opening
 * hours inside one transaction; the defaults of new resources and
 * consumables; the deletes and what they report; and the condition list
 * with numbered placeholders that selects the labs of a user.
 *
 * Column values that arrive from request bodies are `JsValue`s, so
 * `undefined`, `null`, `''` and `0` keep their JavaScript meaning; the
 * database turns both `undefined` and `null` into SQL `NULL`.
 */
module LabsModel {
  import opened Wrappers
  import opened Text
  import opened Seqs
  import opened Js
  import opened Sql
  import opened Order

  /** `COALESCE($k, column)` in SQL and `v ?? fallback` in JavaScript. */
  function Coalesce(v: JsValue, fallback: JsValue): JsValue {
    if Nullish(v) then fallback else v
  }

  // ----- rows -----

  datatype Lab = Lab(id: int, departmentId: JsValue, code: JsValue, name: JsValue,
                     location: JsValue, description: JsValue)

  /** A row of `lab_responsible`; the API calls `full_name` `name` and `position_title` `role`. */
  datatype Contact = Contact(id: int, labId: int, fullName: JsValue, positionTitle: JsValue,
                             phone: JsValue, email: JsValue)

  datatype Policy = Policy(labId: int, academic: JsValue, safety: JsValue, capacityMax: JsValue)

  datatype HoursRow = HoursRow(id: int, labId: int, weekday: JsValue, timeStart: JsValue, timeEnd: JsValue)

  datatype Kind = Equipment | Consumable

  datatype Resource = Resource(id: int, labId: int, kind: Kind, name: JsValue, inventoryCode: JsValue,
                               state: JsValue, lastMaintenance: JsValue, description: JsValue)

  /** A row of `consumable_stock`, keyed by the resource it belongs to. */
  datatype StockRow = StockRow(resourceId: int, unit: JsValue, qtyAvailable: JsValue, reorderPoint: JsValue)

  /** What a history row records about the change; the database keeps it as JSON text. */
  datatype Detail =
    | NoDetail
    | BodyDetail(body: JsValue)
    | LabDetail(lab: Lab)
    | ContactDetail(contact: Contact)
    | PolicyDetail(policy: Policy)
    | HoursDetail(hours: seq<HoursRow>)
    | ResourceDetail(resource: Resource)
    | ConsumableDetail(resource: Resource, stock: StockRow)
    | IdDetail(key: string, id: int)

  /** A row of `lab_history`. */
  datatype HistoryRow = HistoryRow(id: int, labId: int, actor: JsValue, actionType: string, detail: Detail)

  datatype Tables = Tables(
    labs: seq<Lab>, contacts: seq<Contact>, policies: seq<Policy>, hours: seq<HoursRow>,
    resources: seq<Resource>, stock: seq<StockRow>, history: seq<HistoryRow>)

  /** What the driver reports when the database refuses a statement: the SQLSTATE code, the constraint name, the detail and the message. */
  datatype PgError = PgError(code: string, constraint: JsValue, detail: JsValue, message: string)

  /** What `setHours` ends in: the rows it inserted, or the error of the first refused insert. */
  datatype HoursResult = HoursSet(rows: seq<HoursRow>) | HoursRefused(error: PgError)

  /** What a `lab_history` insert ends in: the row, or the database's refusal. */
  datatype HistoryInsert = HistoryAdded(row: HistoryRow) | HistoryRefused(error: PgError)

  // ----- inputs, as the handlers destructure them -----

  datatype LabInput = LabInput(departmentId: JsValue, code: JsValue, name: JsValue,
                               location: JsValue, description: JsValue)

  datatype ContactInput = ContactInput(name: JsValue, role: JsValue, phone: JsValue, email: JsValue)

  datatype PolicyInput = PolicyInput(academic: JsValue, safety: JsValue, capacityMax: JsValue)

  datatype HoursInput = HoursInput(dayOfWeek: JsValue, weekday: JsValue, opens: JsValue,
                                   timeStart: JsValue, closes: JsValue, timeEnd: JsValue)

  datatype FixedInput = FixedInput(name: JsValue, inventoryCode: JsValue, status: JsValue,
                                   lastMaintenanceDate: JsValue, description: JsValue)

  datatype ConsumableInput = ConsumableInput(name: JsValue, unit: JsValue, reorderPoint: JsValue,
                                             qtyAvailable: JsValue, description: JsValue)

  // ----- row builders -----

  /** `createLab`: the department and code map to `school_dept_id` and `internal_code`; an empty description is stored as `NULL`. */
  function NewLab(id: int, d: LabInput): (l: Lab)
    ensures l.id == id && l.departmentId == d.departmentId && l.code == d.code && l.name == d.name
    ensures l.location == d.location
    ensures Truthy(d.description) ==> l.description == d.description
    ensures !Truthy(d.description) ==> l.description == Null
  {
    Lab(id, d.departmentId, d.code, d.name, d.location, Or(d.description, Null))
  }

  /** `updateLab`: every column whose input is null or undefined keeps its value, every other input overwrites it. */
  function PatchLab(l: Lab, d: LabInput): (r: Lab)
    ensures r.id == l.id
    ensures Nullish(d.code) ==> r.code == l.code
    ensures !Nullish(d.code) ==> r.code == d.code
    ensures Nullish(d.name) ==> r.name == l.name
    ensures !Nullish(d.name) ==> r.name == d.name
    ensures Nullish(d.location) ==> r.location == l.location
    ensures !Nullish(d.location) ==> r.location == d.location
    ensures Nullish(d.description) ==> r.description == l.description
    ensures !Nullish(d.description) ==> r.description == d.description
    ensures Nullish(d.departmentId) ==> r.departmentId == l.departmentId
    ensures !Nullish(d.departmentId) ==> r.departmentId == d.departmentId
  {
    Lab(l.id, Coalesce(d.departmentId, l.departmentId), Coalesce(d.code, l.code), Coalesce(d.name, l.name),
        Coalesce(d.location, l.location), Coalesce(d.description, l.description))
  }

  /** A patch whose every field is null or undefined changes nothing. */
  lemma EmptyPatchKeepsLab(l: Lab, d: LabInput)
    requires Nullish(d.departmentId) && Nullish(d.code) && Nullish(d.name)
    requires Nullish(d.location) && Nullish(d.description)
    ensures PatchLab(l, d) == l
  {
  }

  /** `addContact`: an empty phone is stored as `NULL`. */
  function NewContact(id: int, labId: int, d: ContactInput): (c: Contact)
    ensures c.id == id && c.labId == labId && c.fullName == d.name && c.positionTitle == d.role
    ensures c.email == d.email
    ensures !Truthy(d.phone) ==> c.phone == Null
  {
    Contact(id, labId, d.name, d.role, Or(d.phone, Null), d.email)
  }

  /** `updateContact`: null or undefined fields keep the stored value. */
  function PatchContact(c: Contact, d: ContactInput): (r: Contact)
    ensures r.id == c.id && r.labId == c.labId
    ensures Nullish(d.name) ==> r.fullName == c.fullName
    ensures !Nullish(d.name) ==> r.fullName == d.name
    ensures Nullish(d.role) ==> r.positionTitle == c.positionTitle
    ensures !Nullish(d.role) ==> r.positionTitle == d.role
    ensures Nullish(d.phone) ==> r.phone == c.phone
    ensures !Nullish(d.phone) ==> r.phone == d.phone
    ensures Nullish(d.email) ==> r.email == c.email
    ensures !Nullish(d.email) ==> r.email == d.email
  {
    Contact(c.id, c.labId, Coalesce(d.name, c.fullName), Coalesce(d.role, c.positionTitle),
            Coalesce(d.phone, c.phone), Coalesce(d.email, c.email))
  }

  /** `upsertPolicies`: falsy texts and a capacity of `0` are stored as `NULL`. */
  function NewPolicy(labId: int, d: PolicyInput): (p: Policy)
    ensures p.labId == labId
    ensures Truthy(p.academic) <==> Truthy(d.academic)
    ensures Truthy(p.safety) <==> Truthy(d.safety)
    ensures Truthy(p.capacityMax) <==> Truthy(d.capacityMax)
    ensures !Truthy(d.capacityMax) ==> p.capacityMax == Null
    ensures Truthy(d.capacityMax) ==> p.capacityMax == d.capacityMax
  {
    Policy(labId, Or(d.academic, Null), Or(d.safety, Null), Or(d.capacityMax, Null))
  }

  /**
   * `setHours`: `day_of_week || weekday`, `opens || time_start` and
   * `closes || time_end`, so a falsy field (including a day `0`) falls
   * back to the alternative name.
   */
  function NewHours(id: int, labId: int, h: HoursInput): (r: HoursRow)
    ensures r.id == id && r.labId == labId
    ensures Truthy(h.dayOfWeek) ==> r.weekday == h.dayOfWeek
    ensures !Truthy(h.dayOfWeek) ==> r.weekday == h.weekday
    ensures Truthy(h.opens) ==> r.timeStart == h.opens
    ensures !Truthy(h.opens) ==> r.timeStart == h.timeStart
    ensures Truthy(h.closes) ==> r.timeEnd == h.closes
    ensures !Truthy(h.closes) ==> r.timeEnd == h.timeEnd
  {
    HoursRow(id, labId, Or(h.dayOfWeek, h.weekday), Or(h.opens, h.timeStart), Or(h.closes, h.timeEnd))
  }

  const Disponible := Str("DISPONIBLE")

  /** `addFixedResource`: always `EQUIPMENT`, state `DISPONIBLE` unless a status is given. */
  function NewFixed(id: int, labId: int, d: FixedInput): (r: Resource)
    ensures r.id == id && r.labId == labId && r.kind == Equipment
    ensures r.name == d.name && r.inventoryCode == d.inventoryCode
    ensures Truthy(r.state)
    ensures Truthy(d.status) ==> r.state == d.status
    ensures !Truthy(d.status) ==> r.state == Disponible
    ensures !Truthy(d.lastMaintenanceDate) ==> r.lastMaintenance == Null
    ensures !Truthy(d.description) ==> r.description == Null
  {
    Resource(id, labId, Equipment, d.name, d.inventoryCode, Or(d.status, Disponible),
             Or(d.lastMaintenanceDate, Null), Or(d.description, Null))
  }

  /** `updateFixedResource`: null or undefined fields keep the stored value; `status` writes `state`. */
  function PatchFixed(r: Resource, d: FixedInput): (s: Resource)
    ensures s.id == r.id && s.labId == r.labId && s.kind == r.kind
    ensures Nullish(d.name) ==> s.name == r.name
    ensures !Nullish(d.name) ==> s.name == d.name
    ensures Nullish(d.inventoryCode) ==> s.inventoryCode == r.inventoryCode
    ensures !Nullish(d.inventoryCode) ==> s.inventoryCode == d.inventoryCode
    ensures Nullish(d.status) ==> s.state == r.state
    ensures !Nullish(d.status) ==> s.state == d.status
    ensures Nullish(d.lastMaintenanceDate) ==> s.lastMaintenance == r.lastMaintenance
    ensures !Nullish(d.lastMaintenanceDate) ==> s.lastMaintenance == d.lastMaintenanceDate
    ensures Nullish(d.description) ==> s.description == r.description
    ensures !Nullish(d.description) ==> s.description == d.description
  {
    Resource(r.id, r.labId, r.kind, Coalesce(d.name, r.name), Coalesce(d.inventoryCode, r.inventoryCode),
             Coalesce(d.status, r.state), Coalesce(d.lastMaintenanceDate, r.lastMaintenance),
             Coalesce(d.description, r.description))
  }

  /** `addConsumable`, first insert: a `CONSUMABLE` resource with its name and description. */
  function NewConsumable(id: int, labId: int, d: ConsumableInput): (r: Resource)
    ensures r.id == id && r.labId == labId && r.kind == Consumable && r.name == d.name
    ensures !Truthy(d.description) ==> r.description == Null
  {
    Resource(id, labId, Consumable, d.name, Null, Null, Null, Or(d.description, Null))
  }

  /** `addConsumable`, second insert: quantity and reorder point default to `0` only when null or undefined. */
  function NewStock(resourceId: int, d: ConsumableInput): (s: StockRow)
    ensures s.resourceId == resourceId && s.unit == d.unit
    ensures Nullish(d.qtyAvailable) ==> s.qtyAvailable == Num(0)
    ensures !Nullish(d.qtyAvailable) ==> s.qtyAvailable == d.qtyAvailable
    ensures Nullish(d.reorderPoint) ==> s.reorderPoint == Num(0)
    ensures !Nullish(d.reorderPoint) ==> s.reorderPoint == d.reorderPoint
  {
    StockRow(resourceId, d.unit, Coalesce(d.qtyAvailable, Num(0)), Coalesce(d.reorderPoint, Num(0)))
  }

  /** A quantity or reorder point of `0`, `''` or `false` is kept as given, not replaced by the default. */
  lemma FalsyStockIsKept(resourceId: int, d: ConsumableInput)
    requires d.qtyAvailable == Num(0) || d.qtyAvailable == Str("") || d.qtyAvailable == Bool(false)
    ensures !Truthy(d.qtyAvailable) && NewStock(resourceId, d).qtyAvailable == d.qtyAvailable
  {
  }

  /** `updateConsumable`, first statement: only when a name is given or a description is not undefined. */
  predicate TouchesResource(d: ConsumableInput) {
    Truthy(d.name) || d.description != Undefined
  }

  /** `updateConsumable`, second statement: only when a unit is given or a number is not undefined. */
  predicate TouchesStock(d: ConsumableInput) {
    Truthy(d.unit) || d.reorderPoint != Undefined || d.qtyAvailable != Undefined
  }

  function PatchConsumable(r: Resource, d: ConsumableInput): (s: Resource)
    ensures s == r.(name := Coalesce(d.name, r.name), description := Coalesce(d.description, r.description))
  {
    r.(name := Coalesce(d.name, r.name), description := Coalesce(d.description, r.description))
  }

  function PatchStock(s: StockRow, d: ConsumableInput): (t: StockRow)
    ensures t.resourceId == s.resourceId
    ensures Nullish(d.unit) ==> t.unit == s.unit
    ensures !Nullish(d.unit) ==> t.unit == d.unit
    ensures Nullish(d.qtyAvailable) ==> t.qtyAvailable == s.qtyAvailable
    ensures !Nullish(d.qtyAvailable) ==> t.qtyAvailable == d.qtyAvailable
    ensures Nullish(d.reorderPoint) ==> t.reorderPoint == s.reorderPoint
    ensures !Nullish(d.reorderPoint) ==> t.reorderPoint == d.reorderPoint
  {
    StockRow(s.resourceId, Coalesce(d.unit, s.unit), Coalesce(d.qtyAvailable, s.qtyAvailable),
             Coalesce(d.reorderPoint, s.reorderPoint))
  }

  /** `addHistory`: a missing actor is stored as `NULL`. */
  function NewHistory(id: int, labId: int, userId: JsValue, action: string, detail: Detail): (h: HistoryRow)
    ensures h.id == id && h.labId == labId && h.actionType == action && h.detail == detail
    ensures !Truthy(userId) ==> h.actor == Null
    ensures Truthy(userId) ==> h.actor == userId
  {
    HistoryRow(id, labId, Or(userId, Null), action, detail)
  }

  // ----- where-clauses of the statements -----

  predicate ContactIn(c: Contact, labId: int, contactId: int) { c.id == contactId && c.labId == labId }

  predicate FixedIn(r: Resource, labId: int, resourceId: int) {
    r.id == resourceId && r.labId == labId && r.kind == Equipment
  }

  /** `deleteFixedResource` does not test the type: it removes any resource of the lab with that id. */
  predicate AnyResourceIn(r: Resource, labId: int, resourceId: int) { r.id == resourceId && r.labId == labId }

  predicate ConsumableIn(r: Resource, labId: int, resourceId: int) {
    r.id == resourceId && r.labId == labId && r.kind == Consumable
  }

  function LabPolicy(labId: int): Policy -> bool { (q: Policy) => q.labId == labId }

  function OtherLabPolicy(labId: int): Policy -> bool { (q: Policy) => q.labId != labId }

  /** The hours rows `setHours` keeps: those of other labs. */
  function OtherLabHours(labId: int): HoursRow -> bool { (h: HoursRow) => h.labId != labId }

  function LabHours(labId: int): HoursRow -> bool { (h: HoursRow) => h.labId == labId }

  /**
   * The key of `ORDER BY weekday ASC`: the integer the column holds, with
   * NULL (and anything the column could not hold) after every day.
   */
  function WeekdayKey(h: HoursRow): Option<int> {
    match h.weekday
    case Num(n) => Some(n)
    case Str(s) => IntegerText(s)
    case _ => None
  }

  /** The key is the integer PostgreSQL stores from the row's weekday. */
  lemma WeekdayKeyIsStored(h: HoursRow)
    ensures WeekdayKey(h).Some? <==> IntParamOf(h.weekday).IntValue?
    ensures WeekdayKey(h).Some? ==> WeekdayKey(h).value == IntParamOf(h.weekday).n
  {
  }

  predicate WeekdayLeq(a: HoursRow, b: HoursRow) {
    WeekdayKey(b).None? || (WeekdayKey(a).Some? && WeekdayKey(a).value <= WeekdayKey(b).value)
  }

  lemma WeekdayOrderIsTotal()
    ensures TotalPreorder(WeekdayLeq)
  {
  }

  /**
   * The reread that ends `setHours`: the lab's rows in ascending weekday.
   * The database leaves the order of rows of the same weekday open; the
   * model keeps their insertion order.
   */
  function ByWeekday(rows: seq<HoursRow>): seq<HoursRow> {
    SortBy(rows, WeekdayLeq)
  }

  /** The reread of the rows `setHours` inserted, numbered from `next`. */
  method SortHours(next: int, labId: int, entries: seq<HoursInput>) returns (r: seq<HoursRow>)
    ensures r == ByWeekday(HoursRows(next, labId, entries))
  {
    r := ByWeekday(HoursRows(next, labId, entries));
  }

  /**
   * The reread lists the same rows: days come in ascending order, and a
   * row without a day comes after every row with one.
   */
  lemma ByWeekdaySpec(rows: seq<HoursRow>)
    ensures multiset(ByWeekday(rows)) == multiset(rows)
    ensures forall i, j :: 0 <= i < j < |ByWeekday(rows)| ==>
      var r := ByWeekday(rows);
      (WeekdayKey(r[i]).Some? && WeekdayKey(r[j]).Some? ==> WeekdayKey(r[i]).value <= WeekdayKey(r[j]).value)
      && (WeekdayKey(r[i]).None? ==> WeekdayKey(r[j]).None?)
  {
    WeekdayOrderIsTotal();
    SortBySpec(rows, WeekdayLeq);
    var r := SortBy(rows, WeekdayLeq);
    forall i, j | 0 <= i < j < |r|
      ensures (WeekdayKey(r[i]).Some? && WeekdayKey(r[j]).Some? ==> WeekdayKey(r[i]).value <= WeekdayKey(r[j]).value)
      ensures (WeekdayKey(r[i]).None? ==> WeekdayKey(r[j]).None?)
    {
      assert WeekdayLeq(r[i], r[j]);
    }
  }

  /** After `setHours` the lab's rows in the table are exactly the inserted ones, so the reread lists those. */
  lemma SetHoursRereadsInserted(hs: seq<HoursRow>, next: int, labId: int, entries: seq<HoursInput>)
    ensures Keep(Keep(hs, OtherLabHours(labId)) + HoursRows(next, labId, entries), LabHours(labId))
            == HoursRows(next, labId, entries)
    ensures Keep(Keep(hs, OtherLabHours(labId)) + HoursRows(next, labId, entries), OtherLabHours(labId))
            == Keep(hs, OtherLabHours(labId))
  {
    var rows := HoursRows(next, labId, entries);
    assert forall k :: 0 <= k < |rows| ==> rows[k].labId == labId;
    ReplacedRows(Keep(hs, OtherLabHours(labId)), rows, labId);
  }

  lemma ReplacedRows(rest: seq<HoursRow>, rows: seq<HoursRow>, labId: int)
    requires forall k :: 0 <= k < |rest| ==> rest[k].labId != labId
    requires forall k :: 0 <= k < |rows| ==> rows[k].labId == labId
    ensures Keep(rest + rows, LabHours(labId)) == rows
    ensures Keep(rest + rows, OtherLabHours(labId)) == rest
  {
    KeepAppend(rest, rows, LabHours(labId));
    KeepAppend(rest, rows, OtherLabHours(labId));
    KeepNone(rest, LabHours(labId));
    KeepAll(rows, LabHours(labId));
    KeepAll(rest, OtherLabHours(labId));
    KeepNone(rows, OtherLabHours(labId));
  }

  /** After the upsert the lab has exactly the new policy and every other lab keeps its own. */
  lemma UpsertPolicyRows(ps: seq<Policy>, p: Policy)
    ensures Keep(Keep(ps, OtherLabPolicy(p.labId)) + [p], LabPolicy(p.labId)) == [p]
    ensures Keep(Keep(ps, OtherLabPolicy(p.labId)) + [p], OtherLabPolicy(p.labId)) == Keep(ps, OtherLabPolicy(p.labId))
  {
    var rest := Keep(ps, OtherLabPolicy(p.labId));
    KeepAppend(rest, [p], LabPolicy(p.labId));
    KeepAppend(rest, [p], OtherLabPolicy(p.labId));
    KeepAll(rest, OtherLabPolicy(p.labId));
    KeepNone(rest, LabPolicy(p.labId));
  }

  // ----- the tables after the updates -----

  /** The lab table after `updateLab`: the rows with that id patched, the others kept. */
  function PatchedLabs(ls: seq<Lab>, id: int, d: LabInput): seq<Lab> {
    seq(|ls|, i requires 0 <= i < |ls| => if ls[i].id == id then PatchLab(ls[i], d) else ls[i])
  }

  /** The contact table after `updateContact`. */
  function PatchedContacts(cs: seq<Contact>, labId: int, contactId: int, d: ContactInput): seq<Contact> {
    seq(|cs|, i requires 0 <= i < |cs| => if ContactIn(cs[i], labId, contactId) then PatchContact(cs[i], d) else cs[i])
  }

  /** The resource table after `updateFixedResource`. */
  function PatchedFixed(rs: seq<Resource>, labId: int, resourceId: int, d: FixedInput): seq<Resource> {
    seq(|rs|, i requires 0 <= i < |rs| => if FixedIn(rs[i], labId, resourceId) then PatchFixed(rs[i], d) else rs[i])
  }

  /** The rows `setHours` inserts, numbered from `next`. */
  function HoursRows(next: int, labId: int, entries: seq<HoursInput>): seq<HoursRow> {
    seq(|entries|, i requires 0 <= i < |entries| => NewHours(next + i, labId, entries[i]))
  }

  /** The error of the first insert of `setHours` the database refuses, numbering the rows from `next`. */
  function FirstRefusal(next: int, labId: int, entries: seq<HoursInput>, rowError: HoursRow -> Option<PgError>)
    : Option<PgError>
    decreases |entries|
  {
    if |entries| == 0 then None
    else if rowError(NewHours(next, labId, entries[0])).Some? then rowError(NewHours(next, labId, entries[0]))
    else FirstRefusal(next + 1, labId, entries[1..], rowError)
  }

  /**
   * The inserts of `setHours`, one per entry in order with consecutive
   * ids, up to the first one the database refuses; `drawn` is the number
   * of ids the attempts took.
   */
  method InsertHours(next: int, labId: int, entries: seq<HoursInput>, rowError: HoursRow -> Option<PgError>)
    returns (added: seq<HoursRow>, refused: Option<PgError>, drawn: nat)
    ensures refused == FirstRefusal(next, labId, entries, rowError)
    ensures refused.None? ==> added == HoursRows(next, labId, entries) && drawn == |entries|
    ensures drawn <= |entries|
  {
    added := [];
    var i := 0;
    while i < |entries|
      invariant 0 <= i <= |entries| && added == HoursRows(next, labId, entries[..i])
      invariant FirstRefusal(next, labId, entries, rowError) == FirstRefusal(next + i, labId, entries[i..], rowError)
    {
      var row := NewHours(next + i, labId, entries[i]);
      assert entries[i..][1..] == entries[i + 1..];
      if rowError(row).Some? {
        return added, rowError(row), i + 1;
      }
      added := added + [row];
      i := i + 1;
    }
    assert entries[..i] == entries;
    refused, drawn := None, |entries|;
  }

  /** Every one of the first `n` rows is accepted. */
  predicate AcceptedBefore(next: int, labId: int, entries: seq<HoursInput>, rowError: HoursRow -> Option<PgError>, n: nat)
    requires n <= |entries|
  {
    forall j :: 0 <= j < n ==> rowError(NewHours(next + j, labId, entries[j])).None?
  }

  /**
   * No insert is refused exactly when every row is accepted; otherwise the
   * error is that of a refused row all of whose predecessors were accepted.
   */
  lemma FirstRefusalMeaning(next: int, labId: int, entries: seq<HoursInput>, rowError: HoursRow -> Option<PgError>)
    ensures FirstRefusal(next, labId, entries, rowError).None? <==> AcceptedBefore(next, labId, entries, rowError, |entries|)
    ensures FirstRefusal(next, labId, entries, rowError).Some? ==>
      exists i :: 0 <= i < |entries| && rowError(NewHours(next + i, labId, entries[i])) == FirstRefusal(next, labId, entries, rowError)
                  && AcceptedBefore(next, labId, entries, rowError, i)
  {
    FirstRefusalNone(next, labId, entries, rowError);
    if FirstRefusal(next, labId, entries, rowError).Some? {
      FirstRefusalWitness(next, labId, entries, rowError);
    }
  }

  lemma {:induction false} FirstRefusalNone(next: int, labId: int, entries: seq<HoursInput>,
                                            rowError: HoursRow -> Option<PgError>)
    ensures FirstRefusal(next, labId, entries, rowError).None? <==> AcceptedBefore(next, labId, entries, rowError, |entries|)
    decreases |entries|
  {
    if |entries| > 0 && rowError(NewHours(next, labId, entries[0])).None? {
      var rest := entries[1..];
      FirstRefusalNone(next + 1, labId, rest, rowError);
      assert forall i :: 0 < i < |entries| ==> entries[i] == rest[i - 1] && next + i == (next + 1) + (i - 1);
    }
  }

  lemma {:induction false} FirstRefusalWitness(next: int, labId: int, entries: seq<HoursInput>,
                                               rowError: HoursRow -> Option<PgError>)
    requires FirstRefusal(next, labId, entries, rowError).Some?
    ensures exists i :: 0 <= i < |entries| && rowError(NewHours(next + i, labId, entries[i])) == FirstRefusal(next, labId, entries, rowError)
                        && AcceptedBefore(next, labId, entries, rowError, i)
    decreases |entries|
  {
    if rowError(NewHours(next, labId, entries[0])).None? {
      var rest := entries[1..];
      assert FirstRefusal(next, labId, entries, rowError) == FirstRefusal(next + 1, labId, rest, rowError);
      FirstRefusalWitness(next + 1, labId, rest, rowError);
      var i :| 0 <= i < |rest| && rowError(NewHours(next + 1 + i, labId, rest[i])) == FirstRefusal(next + 1, labId, rest, rowError)
               && AcceptedBefore(next + 1, labId, rest, rowError, i);
      assert entries[i + 1] == rest[i] && next + (i + 1) == next + 1 + i;
      forall j | 0 <= j < i + 1
        ensures rowError(NewHours(next + j, labId, entries[j])).None?
      {
        if j > 0 {
          assert entries[j] == rest[j - 1] && next + j == next + 1 + (j - 1);
        }
      }
    } else {
      assert next + 0 == next && AcceptedBefore(next, labId, entries, rowError, 0);
    }
  }

  /** The contact `updateContact` answers with: the first row its `WHERE` matches. */
  function ContactMatch(labId: int, contactId: int): Contact -> bool { (c: Contact) => ContactIn(c, labId, contactId) }

  /** The resource `updateFixedResource` answers with. */
  function FixedMatch(labId: int, resourceId: int): Resource -> bool { (r: Resource) => FixedIn(r, labId, resourceId) }

  /** Every id of every table is below `next`, so `next` is a fresh id. */
  predicate IdsBelow(t: Tables, next: int) {
    (forall i :: 0 <= i < |t.labs| ==> t.labs[i].id < next)
    && (forall i :: 0 <= i < |t.contacts| ==> t.contacts[i].id < next)
    && (forall i :: 0 <= i < |t.hours| ==> t.hours[i].id < next)
    && (forall i :: 0 <= i < |t.resources| ==> t.resources[i].id < next)
    && (forall i :: 0 <= i < |t.history| ==> t.history[i].id < next)
  }

  /** The rows of `updateConsumable` after its statements, and what the final `SELECT` returns. */
  datatype ConsumableUpdate = ConsumableUpdate(resources: seq<Resource>, stock: seq<StockRow>,
                                               result: Option<Resource>)

  /** How the transaction of `updateConsumable` ends: committed, or rolled back with the code of the refused statement. */
  datatype UpdateRun = Committed(update: ConsumableUpdate) | RolledBack(code: string)

  /** SQLSTATE `42P18`: the server cannot determine the data type of a parameter. */
  const IndeterminateDatatype := "42P18"

  /** The first statement: the consumable of that lab renamed or redescribed, when it runs at all. */
  function PatchedResources(rs: seq<Resource>, labId: int, id: int, d: ConsumableInput): (r: seq<Resource>)
    ensures |r| == |rs|
    ensures forall i :: 0 <= i < |rs| ==> r[i].id == rs[i].id
    ensures forall i :: 0 <= i < |rs| && !ConsumableIn(rs[i], labId, id) ==> r[i] == rs[i]
  {
    if TouchesResource(d) then
      seq(|rs|, i requires 0 <= i < |rs| =>
        if ConsumableIn(rs[i], labId, id) then PatchConsumable(rs[i], d) else rs[i])
    else rs
  }

  /**
   * The rows the second statement's `WHERE resource_id = $2` selects, patched:
   * every stock row of that resource id, whatever its lab, when it runs at all.
   */
  function PatchedStock(ss: seq<StockRow>, id: int, d: ConsumableInput): (r: seq<StockRow>)
    ensures |r| == |ss|
    ensures !TouchesStock(d) ==> r == ss
    ensures forall i :: 0 <= i < |ss| && ss[i].resourceId != id ==> r[i] == ss[i]
    ensures TouchesStock(d) ==> forall i :: 0 <= i < |ss| && ss[i].resourceId == id ==> r[i] == PatchStock(ss[i], d)
  {
    if TouchesStock(d) then
      seq(|ss|, i requires 0 <= i < |ss| => if ss[i].resourceId == id then PatchStock(ss[i], d) else ss[i])
    else ss
  }

  /** The final `SELECT`: the consumable of that lab joined with a stock row. */
  function UpdatedConsumable(rs: seq<Resource>, ss: seq<StockRow>, labId: int, id: int): (r: Option<Resource>)
    ensures r.Some? ==> ConsumableIn(r.value, labId, id)
    ensures (forall i :: 0 <= i < |rs| ==> !ConsumableIn(rs[i], labId, id)) ==> r.None?
  {
    var found := Find(rs, (r: Resource) => ConsumableIn(r, labId, id));
    if found.Some? && exists i :: 0 <= i < |ss| && ss[i].resourceId == id then found else None
  }

  /**
   * `updateConsumable` as the code sends it. The stock statement is given
   * five parameters but its text never names `$1`, the lab id; the driver
   * leaves parameter types for the server to infer, and the server refuses
   * a statement with a parameter it cannot type. So whenever the stock
   * statement runs, the transaction rolls back, the resource change
   * included; otherwise only the resource statement runs.
   */
  function UpdateConsumableAsWritten(t: Tables, labId: int, id: int, d: ConsumableInput): (u: UpdateRun)
    ensures u.RolledBack? <==> TouchesStock(d)
    ensures u.RolledBack? ==> u.code == IndeterminateDatatype
    ensures u.Committed? ==> u.update.stock == t.stock && |u.update.resources| == |t.resources|
    ensures u.Committed? && u.update.result.Some? ==> ConsumableIn(u.update.result.value, labId, id)
  {
    if TouchesStock(d) then RolledBack(IndeterminateDatatype)
    else
      var rs := PatchedResources(t.resources, labId, id, d);
      Committed(ConsumableUpdate(rs, t.stock, UpdatedConsumable(rs, t.stock, labId, id)))
  }

  /**
   * A new quantity for a consumable of the lab itself is refused, and the
   * new name sent with it is rolled back too.
   */
  lemma QuantityUpdateRefused()
    ensures
      var t := Tables([], [], [], [], [Resource(7, 1, Consumable, Str("Guantes"), Null, Null, Null, Null)],
                      [StockRow(7, Str("caja"), Num(3), Num(1))], []);
      UpdateConsumableAsWritten(t, 1, 7, ConsumableInput(Str("Guantes XL"), Undefined, Undefined, Num(5), Undefined))
        == RolledBack(IndeterminateDatatype)
  {
    var d := ConsumableInput(Str("Guantes XL"), Undefined, Undefined, Num(5), Undefined);
    assert TouchesStock(d);
  }

  /**
   * The intended update: both statements commit, and the stock row is
   * written only when the consumable belongs to the lab.
   */
  function UpdateConsumableScoped(t: Tables, labId: int, id: int, d: ConsumableInput): (u: ConsumableUpdate)
    ensures |u.resources| == |t.resources| && |u.stock| == |t.stock|
    ensures u.result.Some? ==> ConsumableIn(u.result.value, labId, id)
  {
    var owned := exists i :: 0 <= i < |t.resources| && ConsumableIn(t.resources[i], labId, id);
    var rs := PatchedResources(t.resources, labId, id, d);
    var ss := if owned then PatchedStock(t.stock, id, d) else t.stock;
    ConsumableUpdate(rs, ss, UpdatedConsumable(rs, ss, labId, id))
  }

  /** With the scoped update, a consumable that is not in the lab leaves every row as it was. */
  lemma ScopedUpdateOutsideLabChangesNothing(t: Tables, labId: int, id: int, d: ConsumableInput)
    requires forall i :: 0 <= i < |t.resources| ==> !ConsumableIn(t.resources[i], labId, id)
    ensures UpdateConsumableScoped(t, labId, id, d).resources == t.resources
    ensures UpdateConsumableScoped(t, labId, id, d).stock == t.stock
    ensures UpdateConsumableScoped(t, labId, id, d).result == None
  {
    var rs := PatchedResources(t.resources, labId, id, d);
    assert forall i :: 0 <= i < |rs| ==> rs[i] == t.resources[i];
  }

  /** With the scoped update, a quantity sent for a consumable of the lab reaches its stock row. */
  lemma ScopedUpdateWritesQuantity(t: Tables, labId: int, id: int, d: ConsumableInput, k: int)
    requires exists i :: 0 <= i < |t.resources| && ConsumableIn(t.resources[i], labId, id)
    requires !Nullish(d.qtyAvailable)
    requires 0 <= k < |t.stock| && t.stock[k].resourceId == id
    ensures UpdateConsumableScoped(t, labId, id, d).stock[k].qtyAvailable == d.qtyAvailable
  {
    assert TouchesStock(d);
  }

  /** Without stock fields, the original commits exactly what the scoped update writes. */
  lemma ScopedUpdateAgreesWithoutStock(t: Tables, labId: int, id: int, d: ConsumableInput)
    requires !TouchesStock(d)
    ensures UpdateConsumableAsWritten(t, labId, id, d) == Committed(UpdateConsumableScoped(t, labId, id, d))
  {
  }

  // ----- deleting a lab -----

  predicate HasLab(t: Tables, id: int) {
    exists i :: 0 <= i < |t.labs| && t.labs[i].id == id
  }

  /** The ids of the resources of a lab. */
  function LabResourceIds(rs: seq<Resource>, labId: int): set<int> {
    set i | 0 <= i < |rs| && rs[i].labId == labId :: rs[i].id
  }

  /**
   * `DELETE FROM lab WHERE id = $1` with the lab's dependent tables
   * declared `ON DELETE CASCADE`: the lab goes, and with it its contacts,
   * its policy, its hours, its resources (and, through them, their stock
   * rows) and its history. Every row of another lab stays.
   */
  function CascadeDelete(t: Tables, id: int): (r: Tables)
    ensures !HasLab(r, id)
    ensures forall i :: 0 <= i < |r.contacts| ==> r.contacts[i].labId != id
    ensures forall i :: 0 <= i < |r.policies| ==> r.policies[i].labId != id
    ensures forall i :: 0 <= i < |r.hours| ==> r.hours[i].labId != id
    ensures forall i :: 0 <= i < |r.resources| ==> r.resources[i].labId != id
    ensures forall i :: 0 <= i < |r.stock| ==> r.stock[i].resourceId !in LabResourceIds(t.resources, id)
    ensures forall i :: 0 <= i < |r.history| ==> r.history[i].labId != id
    ensures forall i :: 0 <= i < |t.labs| && t.labs[i].id != id ==> t.labs[i] in r.labs
    ensures forall i :: 0 <= i < |t.contacts| && t.contacts[i].labId != id ==> t.contacts[i] in r.contacts
    ensures forall i :: 0 <= i < |t.policies| && t.policies[i].labId != id ==> t.policies[i] in r.policies
    ensures forall i :: 0 <= i < |t.hours| && t.hours[i].labId != id ==> t.hours[i] in r.hours
    ensures forall i :: 0 <= i < |t.resources| && t.resources[i].labId != id ==> t.resources[i] in r.resources
    ensures forall i :: 0 <= i < |t.stock| && t.stock[i].resourceId !in LabResourceIds(t.resources, id) ==>
      t.stock[i] in r.stock
    ensures forall i :: 0 <= i < |t.history| && t.history[i].labId != id ==> t.history[i] in r.history
  {
    var gone := LabResourceIds(t.resources, id);
    Tables(Keep(t.labs, (l: Lab) => l.id != id),
           Keep(t.contacts, (c: Contact) => c.labId != id),
           Keep(t.policies, (p: Policy) => p.labId != id),
           Keep(t.hours, (h: HoursRow) => h.labId != id),
           Keep(t.resources, (r: Resource) => r.labId != id),
           Keep(t.stock, (s: StockRow) => s.resourceId !in gone),
           Keep(t.history, (h: HistoryRow) => h.labId != id))
  }

  /** A history row of the lab written before its delete is taken away by the cascade with the rest. */
  lemma LogBeforeDeleteIsErased(t: Tables, id: int, h: HistoryRow)
    requires h.labId == id
    ensures CascadeDelete(t.(history := t.history + [h]), id) == CascadeDelete(t, id)
  {
    KeepSnoc(t.history, h, (h: HistoryRow) => h.labId != id);
  }

  const LabHistoryFk := "lab_history_lab_id_fkey"

  /**
   * PostgreSQL's refusal of a `lab_history` row whose lab does not exist.
   * The detail text of the real error also names the key's value; that is
   * not modelled.
   */
  const HistoryKeyViolation := PgError("23503", Str(LabHistoryFk),
    Str("Key (lab_id) is not present in table \"lab\"."),
    "insert or update on table \"lab_history\" violates foreign key constraint \"" + LabHistoryFk + "\"")

  // ----- the lab tables -----

  class LabsDb {
    var tables: Tables
    var nextId: int

    predicate Valid()
      reads this
    {
      IdsBelow(tables, nextId)
    }

    constructor ()
      ensures tables == Tables([], [], [], [], [], [], []) && Valid()
    {
      tables := Tables([], [], [], [], [], [], []);
      nextId := 1;
    }

    method FreshId() returns (id: int)
      requires Valid()
      modifies this
      ensures id == old(nextId) && nextId == id + 1 && tables == old(tables) && Valid()
    {
      id := nextId;
      nextId := nextId + 1;
    }

    /** `createLab`. */
    method CreateLab(d: LabInput) returns (lab: Lab)
      requires Valid()
      modifies this
      ensures Valid() && lab == NewLab(old(nextId), d) && nextId == old(nextId) + 1
      ensures tables == old(tables).(labs := old(tables.labs) + [lab])
    {
      var id := FreshId();
      lab := NewLab(id, d);
      tables := tables.(labs := tables.labs + [lab]);
    }

    /** `updateLab`: the row of that id patched, `None` when there is none. */
    method UpdateLab(id: int, d: LabInput) returns (lab: Option<Lab>)
      requires Valid()
      modifies this
      ensures Valid() && nextId == old(nextId)
      ensures |tables.labs| == |old(tables.labs)|
      ensures forall i :: 0 <= i < |tables.labs| ==>
        tables.labs[i] == if old(tables.labs[i]).id == id then PatchLab(old(tables.labs[i]), d) else old(tables.labs[i])
      ensures tables == old(tables).(labs := PatchedLabs(old(tables.labs), id, d))
      ensures lab.None? <==> forall i :: 0 <= i < |old(tables.labs)| ==> old(tables.labs[i]).id != id
      ensures lab.None? ==> tables == old(tables)
      ensures lab.Some? ==> lab.value in tables.labs && lab.value.id == id
    {
      var patched := PatchedLabs(tables.labs, id, d);
      tables := tables.(labs := patched);
      lab := Find(patched, (l: Lab) => l.id == id);
    }

    /** `deleteLab`: the lab and, by cascade, everything that belongs to it; `true` whatever happened. */
    method DeleteLab(id: int) returns (deleted: bool)
      requires Valid()
      modifies this
      ensures Valid() && nextId == old(nextId) && deleted
      ensures tables == CascadeDelete(old(tables), id)
    {
      tables := CascadeDelete(tables, id);
      deleted := true;
    }

    /** `addContact`. */
    method AddContact(labId: int, d: ContactInput) returns (c: Contact)
      requires Valid()
      modifies this
      ensures Valid() && c == NewContact(old(nextId), labId, d) && nextId == old(nextId) + 1
      ensures tables == old(tables).(contacts := old(tables.contacts) + [c])
    {
      var id := FreshId();
      c := NewContact(id, labId, d);
      tables := tables.(contacts := tables.contacts + [c]);
    }

    /** `updateContact`: only the contact with that id in that lab. */
    method UpdateContact(labId: int, contactId: int, d: ContactInput) returns (c: Option<Contact>)
      requires Valid()
      modifies this
      ensures Valid() && nextId == old(nextId)
      ensures |tables.contacts| == |old(tables.contacts)|
      ensures forall i :: 0 <= i < |tables.contacts| ==>
        tables.contacts[i] == if ContactIn(old(tables.contacts[i]), labId, contactId)
                              then PatchContact(old(tables.contacts[i]), d) else old(tables.contacts[i])
      ensures tables == old(tables).(contacts := PatchedContacts(old(tables.contacts), labId, contactId, d))
      ensures c.None? <==> forall i :: 0 <= i < |old(tables.contacts)| ==> !ContactIn(old(tables.contacts[i]), labId, contactId)
      ensures c.None? ==> tables == old(tables)
      ensures c == Find(tables.contacts, ContactMatch(labId, contactId))
    {
      var patched := PatchedContacts(tables.contacts, labId, contactId, d);
      tables := tables.(contacts := patched);
      c := Find(patched, ContactMatch(labId, contactId));
    }

    /** `deleteContact`: `true` exactly when a row was removed. */
    method DeleteContact(labId: int, contactId: int) returns (deleted: bool)
      requires Valid()
      modifies this
      ensures Valid() && nextId == old(nextId)
      ensures tables == old(tables).(contacts := Keep(old(tables.contacts), (c: Contact) => !ContactIn(c, labId, contactId)))
      ensures deleted <==> exists i :: 0 <= i < |old(tables.contacts)| && ContactIn(old(tables.contacts)[i], labId, contactId)
      ensures !deleted ==> tables == old(tables)
    {
      var p := (c: Contact) => !ContactIn(c, labId, contactId);
      var kept := Keep(tables.contacts, p);
      KeepDrops(tables.contacts, p);
      if forall i :: 0 <= i < |tables.contacts| ==> p(tables.contacts[i]) {
        KeepAll(tables.contacts, p);
      }
      deleted := |kept| < |tables.contacts|;
      tables := tables.(contacts := kept);
    }

    /** `upsertPolicies`: one policy row per lab, inserted or replaced. */
    method UpsertPolicies(labId: int, d: PolicyInput) returns (p: Policy)
      requires Valid()
      modifies this
      ensures Valid() && nextId == old(nextId) && p == NewPolicy(labId, d)
      ensures tables == old(tables).(policies := Keep(old(tables.policies), OtherLabPolicy(labId)) + [p])
      ensures Keep(tables.policies, LabPolicy(labId)) == [p]
      ensures Keep(tables.policies, OtherLabPolicy(labId)) == Keep(old(tables.policies), OtherLabPolicy(labId))
    {
      p := NewPolicy(labId, d);
      UpsertPolicyRows(tables.policies, p);
      tables := tables.(policies := Keep(tables.policies, OtherLabPolicy(labId)) + [p]);
    }

    /**
     * `setHours`: inside one transaction, delete the lab's hours and insert
     * one row per entry. `rowError` is the database's verdict on each
     * insert; the first refused insert rolls everything back and its error
     * is thrown. The ids the refused attempt drew are not given back.
     * After the commit the lab's rows are read back by ascending weekday.
     */
    method SetHours(labId: int, entries: seq<HoursInput>, rowError: HoursRow -> Option<PgError>)
      returns (result: HoursResult)
      requires Valid()
      modifies this
      ensures Valid()
      ensures result.HoursRefused? ==> tables == old(tables)
      ensures result.HoursRefused? <==> FirstRefusal(old(nextId), labId, entries, rowError).Some?
      ensures result.HoursRefused? ==> FirstRefusal(old(nextId), labId, entries, rowError) == Some(result.error)
      ensures result.HoursSet? ==> nextId == old(nextId) + |entries|
      ensures result.HoursSet? ==>
        tables == old(tables).(hours := Keep(old(tables.hours), OtherLabHours(labId)) + HoursRows(old(nextId), labId, entries))
      ensures result.HoursSet? ==> result.rows == ByWeekday(HoursRows(old(nextId), labId, entries))
    {
      var start := nextId;
      var added, refused, drawn := InsertHours(nextId, labId, entries, rowError);
      nextId := nextId + drawn;
      if refused.Some? {
        return HoursRefused(refused.value);
      }
      assert forall i :: 0 <= i < |added| ==> added[i].id < nextId;
      ReplaceLabHours(labId, added);
      var reread := SortHours(start, labId, entries);
      result := HoursSet(reread);
    }

    /** The committed delete and inserts of `setHours`: the lab's hours become `rows`. */
    method ReplaceLabHours(labId: int, rows: seq<HoursRow>)
      requires Valid()
      requires forall i :: 0 <= i < |rows| ==> rows[i].id < nextId
      modifies this
      ensures Valid() && nextId == old(nextId)
      ensures tables == old(tables).(hours := Keep(old(tables.hours), OtherLabHours(labId)) + rows)
    {
      tables := tables.(hours := Keep(tables.hours, OtherLabHours(labId)) + rows);
    }

    /** `addFixedResource`; the answer carries `status`, equal to the stored `state`. */
    method AddFixedResource(labId: int, d: FixedInput) returns (r: Resource, status: JsValue)
      requires Valid()
      modifies this
      ensures Valid() && r == NewFixed(old(nextId), labId, d) && status == r.state && nextId == old(nextId) + 1
      ensures tables == old(tables).(resources := old(tables.resources) + [r])
    {
      var id := FreshId();
      r := NewFixed(id, labId, d);
      status := r.state;
      tables := tables.(resources := tables.resources + [r]);
    }

    /** `updateFixedResource`: only an `EQUIPMENT` resource of that lab. */
    method UpdateFixedResource(labId: int, resourceId: int, d: FixedInput) returns (r: Option<Resource>)
      requires Valid()
      modifies this
      ensures Valid() && nextId == old(nextId)
      ensures |tables.resources| == |old(tables.resources)|
      ensures forall i :: 0 <= i < |tables.resources| ==>
        tables.resources[i] == if FixedIn(old(tables.resources[i]), labId, resourceId)
                               then PatchFixed(old(tables.resources[i]), d) else old(tables.resources[i])
      ensures tables == old(tables).(resources := PatchedFixed(old(tables.resources), labId, resourceId, d))
      ensures r.None? <==> forall i :: 0 <= i < |old(tables.resources)| ==> !FixedIn(old(tables.resources[i]), labId, resourceId)
      ensures r.None? ==> tables == old(tables)
      ensures r == Find(tables.resources, FixedMatch(labId, resourceId))
    {
      var patched := PatchedFixed(tables.resources, labId, resourceId, d);
      tables := tables.(resources := patched);
      r := Find(patched, FixedMatch(labId, resourceId));
    }

    /** Keeps the resources `keep` accepts and, by cascade, drops the stock rows of a removed one. */
    method DeleteResources(resourceId: int, keep: Resource -> bool) returns (deleted: bool)
      requires Valid()
      requires forall r :: !keep(r) ==> r.id == resourceId
      modifies this
      ensures Valid() && nextId == old(nextId)
      ensures deleted <==> exists i :: 0 <= i < |old(tables.resources)| && !keep(old(tables.resources)[i])
      ensures tables == old(tables).(
        resources := Keep(old(tables.resources), keep),
        stock := if deleted then Keep(old(tables.stock), (s: StockRow) => s.resourceId != resourceId)
                 else old(tables.stock))
      ensures !deleted ==> tables == old(tables)
    {
      var kept := Keep(tables.resources, keep);
      KeepDrops(tables.resources, keep);
      if forall i :: 0 <= i < |tables.resources| ==> keep(tables.resources[i]) {
        KeepAll(tables.resources, keep);
      }
      deleted := |kept| < |tables.resources|;
      var stock := if deleted then Keep(tables.stock, (s: StockRow) => s.resourceId != resourceId) else tables.stock;
      tables := tables.(resources := kept, stock := stock);
    }

    /** `deleteFixedResource`: any resource of that lab and id; `true` exactly when one was removed. */
    method DeleteFixedResource(labId: int, resourceId: int) returns (deleted: bool)
      requires Valid()
      modifies this
      ensures Valid() && nextId == old(nextId)
      ensures deleted <==> exists i :: 0 <= i < |old(tables.resources)| && AnyResourceIn(old(tables.resources)[i], labId, resourceId)
      ensures tables == old(tables).(
        resources := Keep(old(tables.resources), (r: Resource) => !AnyResourceIn(r, labId, resourceId)),
        stock := if deleted then Keep(old(tables.stock), (s: StockRow) => s.resourceId != resourceId)
                 else old(tables.stock))
      ensures !deleted ==> tables == old(tables)
    {
      deleted := DeleteResources(resourceId, (r: Resource) => !AnyResourceIn(r, labId, resourceId));
    }

    /** `deleteConsumable`: only a `CONSUMABLE` of that lab; its stock row goes with it. */
    method DeleteConsumable(labId: int, resourceId: int) returns (deleted: bool)
      requires Valid()
      modifies this
      ensures Valid() && nextId == old(nextId)
      ensures deleted <==> exists i :: 0 <= i < |old(tables.resources)| && ConsumableIn(old(tables.resources)[i], labId, resourceId)
      ensures tables == old(tables).(
        resources := Keep(old(tables.resources), (r: Resource) => !ConsumableIn(r, labId, resourceId)),
        stock := if deleted then Keep(old(tables.stock), (s: StockRow) => s.resourceId != resourceId)
                 else old(tables.stock))
      ensures !deleted ==> tables == old(tables)
    {
      deleted := DeleteResources(resourceId, (r: Resource) => !ConsumableIn(r, labId, resourceId));
    }

    /** `addConsumable`: a resource row and its stock row, answered with `quantity == qty_available`. */
    method AddConsumable(labId: int, d: ConsumableInput) returns (r: Resource, s: StockRow, quantity: JsValue)
      requires Valid()
      modifies this
      ensures Valid() && r == NewConsumable(old(nextId), labId, d) && s == NewStock(r.id, d) && nextId == old(nextId) + 1
      ensures quantity == s.qtyAvailable
      ensures tables == old(tables).(resources := old(tables.resources) + [r], stock := old(tables.stock) + [s])
    {
      var id := FreshId();
      r := NewConsumable(id, labId, d);
      s := NewStock(id, d);
      quantity := s.qtyAvailable;
      tables := tables.(resources := tables.resources + [r], stock := tables.stock + [s]);
    }

    /** `updateConsumable` as the code sends it: the tables after a commit, or unchanged after a rollback. */
    method UpdateConsumable(labId: int, id: int, d: ConsumableInput) returns (run: UpdateRun)
      requires Valid()
      modifies this
      ensures Valid() && nextId == old(nextId)
      ensures run == UpdateConsumableAsWritten(old(tables), labId, id, d)
      ensures run.RolledBack? ==> tables == old(tables)
      ensures run.Committed? ==> tables == old(tables).(resources := run.update.resources)
    {
      run := UpdateConsumableAsWritten(tables, labId, id, d);
      if run.Committed? {
        assert forall i :: 0 <= i < |run.update.resources| ==> run.update.resources[i].id == tables.resources[i].id;
        tables := tables.(resources := run.update.resources);
      }
    }

    /**
     * `addHistory` for a lab that exists. The handlers that log after
     * changing a lab take a refusal of this insert as their `fault`;
     * `AddHistoryChecked` is the insert with the key check.
     */
    method AddHistory(labId: int, userId: JsValue, action: string, detail: Detail) returns (h: HistoryRow)
      requires Valid()
      modifies this
      ensures Valid() && h == NewHistory(old(nextId), labId, userId, action, detail) && nextId == old(nextId) + 1
      ensures tables == old(tables).(history := old(tables.history) + [h])
    {
      var id := FreshId();
      h := NewHistory(id, labId, userId, action, detail);
      tables := tables.(history := tables.history + [h]);
    }

    /**
     * `addHistory` as the database runs it: the row's id is drawn from the
     * sequence first, and the row is then refused under
     * `lab_history_lab_id_fkey` when no lab has that id.
     */
    method AddHistoryChecked(labId: int, userId: JsValue, action: string, detail: Detail) returns (h: HistoryInsert)
      requires Valid()
      modifies this
      ensures Valid() && nextId == old(nextId) + 1
      ensures h.HistoryRefused? <==> !HasLab(old(tables), labId)
      ensures h.HistoryRefused? ==> h.error == HistoryKeyViolation && tables == old(tables)
      ensures h.HistoryAdded? ==> h.row == NewHistory(old(nextId), labId, userId, action, detail)
      ensures h.HistoryAdded? ==> tables == old(tables).(history := old(tables.history) + [h.row])
    {
      if HasLab(tables, labId) {
        var row := AddHistory(labId, userId, action, detail);
        h := HistoryAdded(row);
      } else {
        var _ := FreshId();
        h := HistoryRefused(HistoryKeyViolation);
      }
    }
  }

  // ----- the labs of a user -----

  /** One condition of `getUserLabs`, holding the number of its placeholder. */
  datatype LabCondition = ResponsibleEmail(slot: nat) | Department(slot: nat)

  /** The SQL text of a condition. */
  function ConditionText(c: LabCondition): string {
    match c
    case ResponsibleEmail(k) =>
      "EXISTS (SELECT 1 FROM lab_responsible lr WHERE lr.lab_id = l.id AND LOWER(lr.email) = LOWER("
        + Placeholder(k) + "))"
    case Department(k) => "l.school_dept_id = " + Placeholder(k)
  }

  /** What `getUserLabs` runs: every lab, nothing, or the labs meeting any of the conditions. */
  datatype LabsQuery = AllLabs | NoLabs | AnyOf(conditions: seq<LabCondition>, params: seq<JsValue>)

  /** The `WHERE` text: the conditions joined by `OR`. */
  function WhereText(q: LabsQuery): string
    requires q.AnyOf?
  {
    Join(seq(|q.conditions|, i requires 0 <= i < |q.conditions| => ConditionText(q.conditions[i])), " OR ")
  }

  /**
   * A responsible of the lab has that e-mail, compared without regard to
   * case. A `NULL` e-mail never compares equal in SQL.
   */
  predicate HasResponsible(lab: Lab, contacts: seq<Contact>, email: JsValue) {
    exists i :: 0 <= i < |contacts| && contacts[i].labId == lab.id && !Nullish(contacts[i].email)
                && Lower(ToJsString(contacts[i].email)) == Lower(ToJsString(email))
  }

  /**
   * `l.school_dept_id = $k`: both sides are the integers PostgreSQL reads,
   * so a lab stored with department `"3"` belongs to department `3`.
   */
  predicate InDepartment(lab: Lab, deptId: JsValue) {
    IntParamOf(deptId).IntValue? && IntParamOf(lab.departmentId) == IntParamOf(deptId)
  }

  /**
   * The `JOIN school_department` of both lab listings keeps only labs with
   * a department; the foreign key makes every stored department exist.
   */
  predicate HasDepartment(lab: Lab) {
    IntParamOf(lab.departmentId).IntValue?
  }

  /** How the database evaluates one condition, reading its parameter from `params[slot - 1]`. */
  predicate ConditionHolds(c: LabCondition, params: seq<JsValue>, lab: Lab, contacts: seq<Contact>) {
    1 <= c.slot <= |params| &&
    match c
    case ResponsibleEmail(k) => HasResponsible(lab, contacts, params[k - 1])
    case Department(k) => InDepartment(lab, params[k - 1])
  }

  /**
   * The database refuses the whole statement (SQLSTATE 22P02) when a
   * department parameter is not an integer.
   */
  predicate Refused(q: LabsQuery) {
    q.AnyOf? && exists i :: 0 <= i < |q.conditions| && RefusedCondition(q.conditions[i], q.params)
  }

  /** A department condition whose parameter the database cannot read as an integer. */
  predicate RefusedCondition(c: LabCondition, params: seq<JsValue>) {
    c.Department? && 1 <= c.slot <= |params| && IntParamOf(params[c.slot - 1]).BadInteger?
  }

  /** The labs a query that is not refused returns. */
  predicate Selects(q: LabsQuery, lab: Lab, contacts: seq<Contact>) {
    match q
    case AllLabs => HasDepartment(lab)
    case NoLabs => false
    case AnyOf(cs, ps) => HasDepartment(lab) && exists i :: 0 <= i < |cs| && ConditionHolds(cs[i], ps, lab, contacts)
  }

  predicate IsAdminRole(role: JsValue) { role == Str("Administrador") || role == Str("ADMIN") }

  /**
   * `getUserLabs`: administrators see every lab with a department;
   * otherwise a lab with a department is selected when one of its
   * responsibles has the user's e-mail (any case) or it belongs to the
   * user's department, each test applying only when that datum is
   * present; with neither, no query is run. A department the database
   * cannot read as an integer makes it refuse the query. The conditions
   * number their placeholders `$1, $2, ...` in order.
   */
  method UserLabsQuery(email: JsValue, role: JsValue, deptId: JsValue) returns (q: LabsQuery)
    ensures IsAdminRole(role) ==> q == AllLabs
    ensures !IsAdminRole(role) && !Truthy(email) && !Truthy(deptId) ==> q == NoLabs
    ensures !IsAdminRole(role) && (Truthy(email) || Truthy(deptId)) ==>
      q.AnyOf? && |q.conditions| == |q.params|
      && (forall i :: 0 <= i < |q.conditions| ==> q.conditions[i].slot == i + 1)
    ensures Refused(q) <==> !IsAdminRole(role) && Truthy(deptId) && IntParamOf(deptId).BadInteger?
    ensures IsAdminRole(role) ==> forall lab: Lab, contacts: seq<Contact> :: Selects(q, lab, contacts) <==> HasDepartment(lab)
    ensures !IsAdminRole(role) ==> forall lab: Lab, contacts: seq<Contact> ::
      Selects(q, lab, contacts) <==>
        HasDepartment(lab)
        && ((Truthy(email) && HasResponsible(lab, contacts, email)) || (Truthy(deptId) && InDepartment(lab, deptId)))
  {
    if IsAdminRole(role) {
      return AllLabs;
    }
    var conditions: seq<LabCondition> := [];
    var params: seq<JsValue> := [];
    var paramIndex := 1;
    if Truthy(email) {
      conditions := conditions + [ResponsibleEmail(paramIndex)];
      params := params + [email];
      paramIndex := paramIndex + 1;
    }
    if Truthy(deptId) {
      conditions := conditions + [Department(paramIndex)];
      params := params + [deptId];
      paramIndex := paramIndex + 1;
    }
    if |conditions| == 0 {
      return NoLabs;
    }
    q := AnyOf(conditions, params);
    forall lab: Lab, contacts: seq<Contact>
      ensures Selects(q, lab, contacts) <==>
        HasDepartment(lab)
        && ((Truthy(email) && HasResponsible(lab, contacts, email)) || (Truthy(deptId) && InDepartment(lab, deptId)))
    {
      if Truthy(email) {
        assert ConditionHolds(conditions[0], params, lab, contacts) <==> HasResponsible(lab, contacts, email);
      }
      if Truthy(deptId) {
        var k := |conditions| - 1;
        assert ConditionHolds(conditions[k], params, lab, contacts) <==> InDepartment(lab, deptId);
      }
    }
    if Truthy(deptId) && IntParamOf(deptId).BadInteger? {
      var k := |conditions| - 1;
      assert RefusedCondition(conditions[k], params);
    }
  }

  /** A lab stored with its department as text belongs to that department given as a number. */
  lemma TextDepartmentMatches(lab: Lab, n: int)
    requires lab.departmentId == Str(IntToString(n))
    ensures InDepartment(lab, Num(n)) && HasDepartment(lab)
  {
    IntParamOfPrinted(n);
  }
}
