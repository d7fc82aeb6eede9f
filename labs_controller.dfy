/**
 * The HTTP layer over the lab tables: the translation of database errors
 * into responses, the department check in front of the lab insert, the
 * renaming of `quantity` to `qty_available` in consumable bodies, the one
 * history row every successful change appends, and the filter the
 * controller defines for lab history lists.
 */
module LabsController {
  import opened Wrappers
  import opened Text
  import opened Seqs
  import opened Js
  import opened Sql
  import opened LabsModel

  // ----- handlePgError -----

  /** A response, or the error handed on to the application's error handler. */
  datatype Reply =
    | Ok(status: int)
    | Fail(status: int, error: string)
    | Conflict(detail: JsValue, constraint: JsValue)
    | PassedOn

  const ForeignKeyViolation := "23503"
  const UniqueViolation := "23505"
  const DepartmentFk := "labs_department_id_fkey"
  /** The foreign keys from the lab's dependent tables to the lab. */
  const LabFks := ["lab_contacts_lab_id_fkey", "lab_policies_lab_id_fkey", "lab_hours_lab_id_fkey",
                   "resources_fixed_lab_id_fkey", "consumables_lab_id_fkey", "lab_history_lab_id_fkey"]

  const ErrDepartmentRequired := "department_id es requerido"
  const ErrDepartmentInvalid := "department_id inválido: no existe en departments"
  const ErrLabMissing := "Lab no encontrado (lab_id inválido)"
  const ErrLabNotFound := "Lab not found"
  const ErrContactNotFound := "Contacto no encontrado"
  const ErrFixedNotFound := "Recurso fijo no encontrado"
  const ErrConsumableNotFound := "Consumible no encontrado"

  predicate NamesLabFk(c: string) {
    exists k :: 0 <= k < |LabFks| && Contains(c, LabFks[k])
  }

  /**
   * `handlePgError`: a foreign-key violation on the department becomes 400,
   * one on a lab reference 404, a unique violation 409 carrying
   * `detail || message` and the constraint; anything else is passed on.
   * The constraint is matched as a substring of `String(e.constraint || '')`.
   */
  function HandlePgError(e: PgError): (r: Reply)
    ensures r.Fail? && r.status == 400 <==>
      e.code == ForeignKeyViolation && Contains(ToJsString(Or(e.constraint, Str(""))), DepartmentFk)
    ensures r.Fail? && r.status == 404 <==>
      e.code == ForeignKeyViolation && !Contains(ToJsString(Or(e.constraint, Str(""))), DepartmentFk)
      && NamesLabFk(ToJsString(Or(e.constraint, Str(""))))
    ensures r.Conflict? <==> e.code == UniqueViolation
    ensures r.Conflict? ==> r.detail == Or(e.detail, Str(e.message)) && r.constraint == Or(e.constraint, Undefined)
    ensures r.PassedOn? <==> ((e.code != ForeignKeyViolation && e.code != UniqueViolation)
      || (e.code == ForeignKeyViolation && !Contains(ToJsString(Or(e.constraint, Str(""))), DepartmentFk)
          && !NamesLabFk(ToJsString(Or(e.constraint, Str(""))))))
    ensures !r.Ok?
  {
    if e.code == ForeignKeyViolation then
      var c := ToJsString(Or(e.constraint, Str("")));
      if Contains(c, DepartmentFk) then Fail(400, ErrDepartmentInvalid)
      else if NamesLabFk(c) then Fail(404, ErrLabMissing)
      else PassedOn
    else if e.code == UniqueViolation then
      Conflict(Or(e.detail, Str(e.message)), Or(e.constraint, Undefined))
    else PassedOn
  }

  /** A constraint naming both the department key and a lab key is a department error: that test comes first. */
  lemma DepartmentKeyWins(e: PgError)
    requires e.code == ForeignKeyViolation && e.constraint == Str(DepartmentFk + " " + LabFks[0])
    ensures HandlePgError(e) == Fail(400, ErrDepartmentInvalid)
  {
    var c := DepartmentFk + " " + LabFks[0];
    assert ToJsString(Or(e.constraint, Str(""))) == c;
    assert c[..|DepartmentFk|] == DepartmentFk;
    assert OccursAt(c, DepartmentFk, 0);
  }

  // ----- department check -----

  /**
   * `assertDepartmentExists`: `false` for a falsy id without asking the
   * database; otherwise whether a department has the integer the database
   * reads from the id. `None` when the database refuses the id as an
   * integer (text such as `"abc"` or `"1e2"`, or `true`), so that the
   * query throws.
   */
  function DepartmentExists(departments: set<int>, id: JsValue): (r: Option<bool>)
    ensures !Truthy(id) ==> r == Some(false)
    ensures r.None? <==> Truthy(id) && IntParamOf(id).BadInteger?
    ensures r == Some(true) <==> Truthy(id) && IntParamOf(id).IntValue? && IntParamOf(id).n in departments
  {
    if !Truthy(id) then Some(false)
    else match IntParamOf(id)
      case IntValue(n) => Some(n in departments)
      case _ => None
  }

  /** The error of a lookup whose id the database cannot read as an integer. */
  const BadIdError := PgError(InvalidTextRepresentation, Undefined, Undefined, "invalid input syntax for type integer")

  /** `handlePgError` rethrows that error, so the `catch` hands it on. */
  lemma BadIdIsPassedOn()
    ensures HandlePgError(BadIdError) == PassedOn
  {
    assert InvalidTextRepresentation[1] != ForeignKeyViolation[1];
    assert InvalidTextRepresentation[1] != UniqueViolation[1];
  }

  /** A department id sent as text is looked up as the integer it spells; other text is refused. */
  lemma DepartmentTextIds(departments: set<int>, n: nat)
    requires n != 0
    ensures DepartmentExists(departments, Str(NatToString(n))) == Some(n in departments)
    ensures DepartmentExists(departments, Str("1e2")).None?
    ensures DepartmentExists(departments, Bool(true)).None?
  {
    IntParamOfPrinted(n);
    assert IntToString(n) == NatToString(n);
    IntParamRefusesOtherText();
  }

  // ----- request bodies -----

  function LabInputOf(body: JsValue): LabInput {
    LabInput(Get(body, "department_id"), Get(body, "code"), Get(body, "name"), Get(body, "location"),
             Get(body, "description"))
  }

  function ContactInputOf(body: JsValue): ContactInput {
    ContactInput(Get(body, "name"), Get(body, "role"), Get(body, "phone"), Get(body, "email"))
  }

  function PolicyInputOf(body: JsValue): PolicyInput {
    PolicyInput(Get(body, "academic_requirements"), Get(body, "safety_requirements"), Get(body, "capacity_max"))
  }

  function HoursInputOf(entry: JsValue): HoursInput {
    HoursInput(Get(entry, "day_of_week"), Get(entry, "weekday"), Get(entry, "opens"), Get(entry, "time_start"),
               Get(entry, "closes"), Get(entry, "time_end"))
  }

  /** An element of `hours` on which `h.day_of_week` throws: `null` or `undefined`. */
  predicate HasNullishEntry(hs: JsValue) {
    hs.Arr? && exists i :: 0 <= i < |hs.elems| && Nullish(hs.elems[i])
  }

  /**
   * `for (const h of req.body?.hours || [])`: a falsy value has no entries,
   * an array one per element, a string one per character (a character has
   * none of the fields, so each reads `undefined`). Any other value cannot
   * be iterated, and reading `h.day_of_week` of a `null` or `undefined`
   * element throws; either `TypeError` ends the transaction, shown as `None`.
   */
  function HoursOf(body: JsValue): (r: Option<seq<HoursInput>>)
    ensures !Truthy(Get(body, "hours")) ==> r == Some([])
    ensures r.None? <==>
      Truthy(Get(body, "hours")) && ((!Get(body, "hours").Arr? && !Get(body, "hours").Str?)
                                     || HasNullishEntry(Get(body, "hours")))
    ensures Get(body, "hours").Arr? && !HasNullishEntry(Get(body, "hours")) ==>
      r.Some? && |r.value| == |Get(body, "hours").elems|
      && forall i :: 0 <= i < |r.value| ==> r.value[i] == HoursInputOf(Get(body, "hours").elems[i])
    ensures Get(body, "hours").Str? ==>
      r.Some? && |r.value| == |Get(body, "hours").s|
      && forall i :: 0 <= i < |r.value| ==>
           r.value[i] == HoursInput(Undefined, Undefined, Undefined, Undefined, Undefined, Undefined)
  {
    var hs := Get(body, "hours");
    if !Truthy(hs) then Some([])
    else if HasNullishEntry(hs) then None
    else if hs.Arr? then Some(seq(|hs.elems|, i requires 0 <= i < |hs.elems| => HoursInputOf(hs.elems[i])))
    else if hs.Str? then Some(seq(|hs.s|, i requires 0 <= i < |hs.s| => HoursInputOf(Str([hs.s[i]]))))
    else None
  }

  function FixedInputOf(body: JsValue): FixedInput {
    FixedInput(Get(body, "name"), Get(body, "inventory_code"), Get(body, "status"),
               Get(body, "last_maintenance_date"), Get(body, "description"))
  }

  function ConsumableInputOf(body: JsValue): ConsumableInput {
    ConsumableInput(Get(body, "name"), Get(body, "unit"), Get(body, "reorder_point"), Get(body, "qty_available"),
                    Get(body, "description"))
  }

  // ----- the quantity remap of the consumable handlers -----

  /** `obj[key] = v` on an object copy: an existing field is overwritten in place, a new one goes last. */
  function SetField(fs: seq<Member>, key: string, v: JsValue): (r: seq<Member>)
    ensures Get(Obj(r), key) == v
    ensures forall k :: k != key ==> Get(Obj(r), k) == Get(Obj(fs), k)
    decreases |fs|
  {
    if |fs| == 0 then [Member(key, v)]
    else if fs[0].key == key then [Member(key, v)] + fs[1..]
    else
      var rest := SetField(fs[1..], key, v);
      assert Get(Obj([fs[0]] + rest), key) == Get(Obj(rest), key) by { assert ([fs[0]] + rest)[1..] == rest; }
      assert forall k :: k != fs[0].key ==> Get(Obj([fs[0]] + rest), k) == Get(Obj(rest), k) by {
        assert ([fs[0]] + rest)[1..] == rest;
      }
      [fs[0]] + rest
  }

  /** `delete obj[key]`: every field of that name goes. */
  function DeleteField(fs: seq<Member>, key: string): (r: seq<Member>)
    ensures Get(Obj(r), key) == Undefined
    ensures forall k :: k != key ==> Get(Obj(r), k) == Get(Obj(fs), k)
    decreases |fs|
  {
    if |fs| == 0 then []
    else if fs[0].key == key then
      var rest := DeleteField(fs[1..], key);
      assert forall k :: k != key ==> Get(Obj(fs), k) == Get(Obj(fs[1..]), k);
      rest
    else
      var rest := DeleteField(fs[1..], key);
      assert ([fs[0]] + rest)[1..] == rest;
      [fs[0]] + rest
  }

  /**
   * `const data = { ...req.body }; if (data.quantity !== undefined) { ... }`:
   * the value of `quantity` moves to `qty_available`.
   */
  function RemapQuantity(body: seq<Member>): (r: seq<Member>)
    ensures Get(Obj(body), "quantity") == Undefined ==> r == body
    ensures Get(Obj(body), "quantity") != Undefined ==>
      Get(Obj(r), "quantity") == Undefined && Get(Obj(r), "qty_available") == Get(Obj(body), "quantity")
    ensures forall k :: k != "quantity" && k != "qty_available" ==> Get(Obj(r), k) == Get(Obj(body), k)
  {
    var q := Get(Obj(body), "quantity");
    if q != Undefined then DeleteField(SetField(body, "qty_available", q), "quantity") else body
  }

  /** The body the model receives: the remapped fields when the request body is an object. */
  function ConsumableBody(body: JsValue): JsValue {
    if body.Obj? then Obj(RemapQuantity(body.fields)) else body
  }

  /** The quantity the frontend sends as `quantity` reaches the model as the stock's `qty_available`. */
  lemma QuantityReachesStock(fs: seq<Member>)
    requires Get(Obj(fs), "quantity") != Undefined
    ensures ConsumableInputOf(ConsumableBody(Obj(fs))).qtyAvailable == Get(Obj(fs), "quantity")
    ensures ConsumableInputOf(ConsumableBody(Obj(fs))).name == Get(Obj(fs), "name")
  {
  }

  // ----- handlers -----

  /**
   * Which statement of a handler the database refuses, if any: the change
   * (or a lookup in front of it), so that nothing is written, or the
   * history insert after a change that went through. The history insert
   * runs outside any transaction, so a refused one keeps the change.
   */
  datatype Fault = NoFault | ChangeFails(error: PgError) | HistoryFails(error: PgError)

  /** The tables after the history insert: with the row, or without it when the insert is refused. */
  function Logged(t: Tables, h: HistoryRow, fault: Fault): (r: Tables)
    ensures fault.HistoryFails? ==> r == t
    ensures !fault.HistoryFails? ==> r == t.(history := t.history + [h])
  {
    if fault.HistoryFails? then t else t.(history := t.history + [h])
  }

  /** The answer after a change went through: the success, or what the `catch` makes of a refused statement. */
  function Answer(fault: Fault, success: Reply): (r: Reply)
    ensures fault.NoFault? ==> r == success
    ensures !fault.NoFault? ==> r == HandlePgError(fault.error)
  {
    if fault.NoFault? then success else HandlePgError(fault.error)
  }

  /** `await Labs.addHistory(lab_id, ...)` with no acting user, then the answer. */
  method Log(db: LabsDb, labId: int, action: string, detail: Detail, fault: Fault, success: Reply) returns (reply: Reply)
    requires db.Valid() && !fault.ChangeFails?
    modifies db
    ensures db.Valid()
    ensures db.tables == Logged(old(db.tables), NewHistory(old(db.nextId), labId, Undefined, action, detail), fault)
    ensures reply == Answer(fault, success)
  {
    if fault.HistoryFails? {
      return HandlePgError(fault.error);
    }
    var _ := db.AddHistory(labId, Undefined, action, detail);
    reply := success;
  }

  /**
   * `create`: the department id must be present and must exist, both
   * checked before the lab insert; an id the database cannot read as an
   * integer makes the lookup throw, and `handlePgError` hands that error
   * on. Then the lab and its `CREATE_LAB` history row. No history row
   * names the acting user.
   */
  method Create(db: LabsDb, departments: set<int>, body: JsValue, fault: Fault) returns (reply: Reply)
    requires db.Valid()
    modifies db
    ensures db.Valid()
    ensures !Truthy(Get(body, "department_id")) ==>
      reply == Fail(400, ErrDepartmentRequired) && db.tables == old(db.tables)
    ensures DepartmentExists(departments, Get(body, "department_id")).None? ==>
      reply == PassedOn && db.tables == old(db.tables)
    ensures Truthy(Get(body, "department_id")) && DepartmentExists(departments, Get(body, "department_id")).Some?
            && fault.ChangeFails? ==>
      reply == HandlePgError(fault.error) && db.tables == old(db.tables)
    ensures Truthy(Get(body, "department_id")) && !fault.ChangeFails?
            && DepartmentExists(departments, Get(body, "department_id")) == Some(false) ==>
      reply == Fail(400, ErrDepartmentInvalid) && db.tables == old(db.tables)
    ensures DepartmentExists(departments, Get(body, "department_id")) == Some(true) && !fault.ChangeFails? ==>
      var lab := NewLab(old(db.nextId), LabInputOf(body));
      reply == Answer(fault, Ok(201)) && db.tables == Logged(old(db.tables).(labs := old(db.tables.labs) + [lab]),
        NewHistory(old(db.nextId) + 1, lab.id, Undefined, "CREATE_LAB", LabDetail(lab)), fault)
  {
    var depId := Get(body, "department_id");
    if !Truthy(depId) {
      return Fail(400, ErrDepartmentRequired);
    }
    var found := DepartmentExists(departments, depId);
    if found.None? {
      BadIdIsPassedOn();
      return HandlePgError(BadIdError);
    }
    if fault.ChangeFails? {
      return HandlePgError(fault.error);
    }
    if !found.value {
      return Fail(400, ErrDepartmentInvalid);
    }
    var lab := db.CreateLab(LabInputOf(body));
    reply := Log(db, lab.id, "CREATE_LAB", LabDetail(lab), fault, Ok(201));
  }

  /**
   * `update`: a department id that is given must exist (one the database
   * cannot read as an integer is handed on); an unknown lab is
   * 404 and writes no history; otherwise one `UPDATE_LAB` row recording
   * the request body.
   */
  method Update(db: LabsDb, departments: set<int>, id: int, body: JsValue, fault: Fault) returns (reply: Reply)
    requires db.Valid()
    modifies db
    ensures db.Valid()
    ensures DepartmentExists(departments, Get(body, "department_id")).None? ==>
      reply == PassedOn && db.tables == old(db.tables)
    ensures DepartmentExists(departments, Get(body, "department_id")).Some? && fault.ChangeFails? ==>
      reply == HandlePgError(fault.error) && db.tables == old(db.tables)
    ensures !fault.ChangeFails? && Truthy(Get(body, "department_id"))
            && DepartmentExists(departments, Get(body, "department_id")) == Some(false) ==>
      reply == Fail(400, ErrDepartmentInvalid) && db.tables == old(db.tables)
    ensures !fault.ChangeFails?
            && (!Truthy(Get(body, "department_id")) || DepartmentExists(departments, Get(body, "department_id")) == Some(true)) ==>
      if forall i :: 0 <= i < |old(db.tables.labs)| ==> old(db.tables.labs)[i].id != id
      then reply == Fail(404, ErrLabNotFound) && db.tables == old(db.tables)
      else reply == Answer(fault, Ok(200)) && db.tables == Logged(
        old(db.tables).(labs := PatchedLabs(old(db.tables.labs), id, LabInputOf(body))),
        NewHistory(old(db.nextId), id, Undefined, "UPDATE_LAB", BodyDetail(body)), fault)
  {
    var depId := Get(body, "department_id");
    var found := DepartmentExists(departments, depId);
    if found.None? {
      BadIdIsPassedOn();
      return HandlePgError(BadIdError);
    }
    if fault.ChangeFails? {
      return HandlePgError(fault.error);
    }
    if Truthy(depId) && !found.value {
      return Fail(400, ErrDepartmentInvalid);
    }
    var lab := db.UpdateLab(id, LabInputOf(body));
    if lab.None? {
      return Fail(404, ErrLabNotFound);
    }
    reply := Log(db, lab.value.id, "UPDATE_LAB", BodyDetail(body), fault, Ok(200));
  }

  /**
   * `remove`: `id` is `Number(req.params.id)`. The delete removes the lab
   * and, by cascade, everything that belongs to it; the `DELETE_LAB` row
   * that follows names the lab just deleted (or one that never existed),
   * so the database refuses it under `lab_history_lab_id_fkey` and the
   * `catch` hands that error on. The 204 after it is never reached. A
   * `NaN` id reaches the integer column as the text `NaN`, which the
   * database refuses before anything is deleted.
   */
  method Remove(db: LabsDb, id: JsValue, fault: Fault) returns (reply: Reply)
    requires db.Valid()
    requires id.Num? || id.NaN?
    modifies db
    ensures db.Valid()
    ensures reply == PassedOn
    ensures fault.ChangeFails? || id.NaN? ==> db.tables == old(db.tables)
    ensures !fault.ChangeFails? && id.Num? ==> db.tables == CascadeDelete(old(db.tables), id.n)
    ensures !fault.ChangeFails? && id.Num? ==>
      forall i :: 0 <= i < |db.tables.history| ==> db.tables.history[i].labId != id.n
  {
    if fault.ChangeFails? || id.NaN? {
      return PassedOn;
    }
    var _ := db.DeleteLab(id.n);
    var logged := db.AddHistoryChecked(id.n, Undefined, "DELETE_LAB", IdDetail("id", id.n));
    reply := if logged.HistoryAdded? then Ok(204) else PassedOn;
  }

  /**
   * `remove` as evidently intended: the lab and everything that belongs to
   * it deleted, then 204. No `DELETE_LAB` row is written, since the cascade
   * would take one written before the delete away again
   * (`LogBeforeDeleteIsErased`) and one written after it is refused.
   */
  method RemoveWithoutLog(db: LabsDb, id: JsValue, fault: Fault) returns (reply: Reply)
    requires db.Valid()
    requires id.Num? || id.NaN?
    modifies db
    ensures db.Valid()
    ensures reply == if fault.ChangeFails? || id.NaN? then PassedOn else Ok(204)
    ensures fault.ChangeFails? || id.NaN? ==> db.tables == old(db.tables)
    ensures !fault.ChangeFails? && id.Num? ==> db.tables == CascadeDelete(old(db.tables), id.n)
    ensures !fault.ChangeFails? && id.Num? ==> !HasLab(db.tables, id.n)
  {
    if fault.ChangeFails? || id.NaN? {
      return PassedOn;
    }
    var _ := db.DeleteLab(id.n);
    reply := Ok(204);
  }

  /** `addContact`. */
  method AddContact(db: LabsDb, labId: int, body: JsValue, fault: Fault) returns (reply: Reply)
    requires db.Valid()
    modifies db
    ensures db.Valid()
    ensures fault.ChangeFails? ==> reply == HandlePgError(fault.error) && db.tables == old(db.tables)
    ensures !fault.ChangeFails? ==>
      var c := NewContact(old(db.nextId), labId, ContactInputOf(body));
      reply == Answer(fault, Ok(201)) && db.tables == Logged(old(db.tables).(contacts := old(db.tables.contacts) + [c]),
        NewHistory(old(db.nextId) + 1, labId, Undefined, "ADD_CONTACT", ContactDetail(c)), fault)
  {
    if fault.ChangeFails? {
      return HandlePgError(fault.error);
    }
    var c := db.AddContact(labId, ContactInputOf(body));
    reply := Log(db, labId, "ADD_CONTACT", ContactDetail(c), fault, Ok(201));
  }

  /** `updateContact`: 404 and no history row when the lab has no contact with that id. */
  method UpdateContact(db: LabsDb, labId: int, contactId: int, body: JsValue, fault: Fault) returns (reply: Reply)
    requires db.Valid()
    modifies db
    ensures db.Valid()
    ensures fault.ChangeFails? ==> reply == HandlePgError(fault.error) && db.tables == old(db.tables)
    ensures !fault.ChangeFails? ==>
      var patched := PatchedContacts(old(db.tables.contacts), labId, contactId, ContactInputOf(body));
      if forall i :: 0 <= i < |old(db.tables.contacts)| ==> !ContactIn(old(db.tables.contacts)[i], labId, contactId)
      then reply == Fail(404, ErrContactNotFound) && db.tables == old(db.tables)
      else (Find(patched, ContactMatch(labId, contactId)).Some?
        && reply == Answer(fault, Ok(200)) && db.tables == Logged(old(db.tables).(contacts := patched),
             NewHistory(old(db.nextId), labId, Undefined, "UPDATE_CONTACT",
                        ContactDetail(Find(patched, ContactMatch(labId, contactId)).value)), fault))
  {
    if fault.ChangeFails? {
      return HandlePgError(fault.error);
    }
    var c := db.UpdateContact(labId, contactId, ContactInputOf(body));
    if c.None? {
      return Fail(404, ErrContactNotFound);
    }
    reply := Log(db, labId, "UPDATE_CONTACT", ContactDetail(c.value), fault, Ok(200));
  }

  /** `deleteContact`: 404 and no history row when nothing was removed. */
  method DeleteContact(db: LabsDb, labId: int, contactId: int, fault: Fault) returns (reply: Reply)
    requires db.Valid()
    modifies db
    ensures db.Valid()
    ensures fault.ChangeFails? ==> reply == HandlePgError(fault.error) && db.tables == old(db.tables)
    ensures !fault.ChangeFails? ==>
      if forall i :: 0 <= i < |old(db.tables.contacts)| ==> !ContactIn(old(db.tables.contacts)[i], labId, contactId)
      then reply == Fail(404, ErrContactNotFound) && db.tables == old(db.tables)
      else reply == Answer(fault, Ok(204)) && db.tables == Logged(
        old(db.tables).(contacts := Keep(old(db.tables.contacts), (c: Contact) => !ContactIn(c, labId, contactId))),
        NewHistory(old(db.nextId), labId, Undefined, "DELETE_CONTACT", IdDetail("contact_id", contactId)), fault)
  {
    if fault.ChangeFails? {
      return HandlePgError(fault.error);
    }
    var deleted := db.DeleteContact(labId, contactId);
    if !deleted {
      return Fail(404, ErrContactNotFound);
    }
    reply := Log(db, labId, "DELETE_CONTACT", IdDetail("contact_id", contactId), fault, Ok(204));
  }

  /** `upsertPolicies`: the lab's one policy row, inserted or replaced, then its `UPSERT_POLICIES` row. */
  method UpsertPolicies(db: LabsDb, labId: int, body: JsValue, fault: Fault) returns (reply: Reply)
    requires db.Valid()
    modifies db
    ensures db.Valid()
    ensures fault.ChangeFails? ==> reply == HandlePgError(fault.error) && db.tables == old(db.tables)
    ensures !fault.ChangeFails? ==>
      var p := NewPolicy(labId, PolicyInputOf(body));
      reply == Answer(fault, Ok(200)) && Keep(db.tables.policies, LabPolicy(labId)) == [p]
      && db.tables == Logged(old(db.tables).(policies := Keep(old(db.tables.policies), OtherLabPolicy(labId)) + [p]),
           NewHistory(old(db.nextId), labId, Undefined, "UPSERT_POLICIES", PolicyDetail(p)), fault)
  {
    if fault.ChangeFails? {
      return HandlePgError(fault.error);
    }
    var p := db.UpsertPolicies(labId, PolicyInputOf(body));
    reply := Log(db, labId, "UPSERT_POLICIES", PolicyDetail(p), fault, Ok(200));
  }

  /**
   * What `setHours` does with hours it could iterate: the first insert the
   * database refuses goes through `handlePgError` and leaves the tables as
   * they were; otherwise the lab's hours are replaced by one row per entry
   * and the `SET_HOURS` row lists them by ascending weekday, as the reread
   * returns them.
   */
  function HoursStep(t: Tables, next: int, labId: int, entries: seq<HoursInput>,
                     rowError: HoursRow -> Option<PgError>, fault: Fault): (Reply, Tables)
  {
    var refused := FirstRefusal(next, labId, entries, rowError);
    var rows := HoursRows(next, labId, entries);
    if refused.Some? then (HandlePgError(refused.value), t)
    else (Answer(fault, Ok(200)), Logged(t.(hours := Keep(t.hours, OtherLabHours(labId)) + rows),
      NewHistory(next + |entries|, labId, Undefined, "SET_HOURS", HoursDetail(ByWeekday(rows))), fault))
  }

  /** The `SET_HOURS` row lists exactly what rereading the lab's hours after the change returns. */
  lemma HoursStepLogsReread(t: Tables, next: int, labId: int, entries: seq<HoursInput>,
                            rowError: HoursRow -> Option<PgError>, fault: Fault)
    requires FirstRefusal(next, labId, entries, rowError).None? && !fault.HistoryFails?
    ensures var after := HoursStep(t, next, labId, entries, rowError, fault).1;
      after.history == t.history + [NewHistory(next + |entries|, labId, Undefined, "SET_HOURS",
                                                HoursDetail(ByWeekday(Keep(after.hours, LabHours(labId)))))]
  {
    SetHoursRereadsInserted(t.hours, next, labId, entries);
  }

  /**
   * `setHours`: a body whose hours cannot be iterated, or the first insert
   * the database refuses, rolls the hours back and writes no history; the
   * `TypeError` of the former is handed on, the error of the latter goes
   * through `handlePgError`. `fault` stands for the statements around the
   * inserts (the connection, `BEGIN`, the delete, the reread). The rows
   * logged (and answered) are the reread ones, by ascending weekday.
   */
  method SetHours(db: LabsDb, labId: int, body: JsValue, rowError: HoursRow -> Option<PgError>, fault: Fault)
    returns (reply: Reply)
    requires db.Valid()
    modifies db
    ensures db.Valid()
    ensures fault.ChangeFails? ==> reply == HandlePgError(fault.error) && db.tables == old(db.tables)
    ensures !fault.ChangeFails? && HoursOf(body).None? ==> reply == PassedOn && db.tables == old(db.tables)
    ensures !fault.ChangeFails? && HoursOf(body).Some? ==>
      (reply, db.tables) == HoursStep(old(db.tables), old(db.nextId), labId, HoursOf(body).value, rowError, fault)
  {
    if fault.ChangeFails? {
      return HandlePgError(fault.error);
    }
    var entries := HoursOf(body);
    if entries.None? {
      return PassedOn;
    }
    reply := ReplaceHours(db, labId, entries.value, rowError, fault);
  }

  /** The transaction of `setHours` for hours that could be iterated, and its `SET_HOURS` row. */
  method ReplaceHours(db: LabsDb, labId: int, entries: seq<HoursInput>, rowError: HoursRow -> Option<PgError>,
                      fault: Fault) returns (reply: Reply)
    requires db.Valid() && !fault.ChangeFails?
    modifies db
    ensures db.Valid()
    ensures (reply, db.tables) == HoursStep(old(db.tables), old(db.nextId), labId, entries, rowError, fault)
  {
    var result := db.SetHours(labId, entries, rowError);
    if result.HoursRefused? {
      return HandlePgError(result.error);
    }
    reply := Log(db, labId, "SET_HOURS", HoursDetail(result.rows), fault, Ok(200));
  }

  /** `addFixedResource`. */
  method AddFixedResource(db: LabsDb, labId: int, body: JsValue, fault: Fault) returns (reply: Reply)
    requires db.Valid()
    modifies db
    ensures db.Valid()
    ensures fault.ChangeFails? ==> reply == HandlePgError(fault.error) && db.tables == old(db.tables)
    ensures !fault.ChangeFails? ==>
      var r := NewFixed(old(db.nextId), labId, FixedInputOf(body));
      reply == Answer(fault, Ok(201)) && db.tables == Logged(old(db.tables).(resources := old(db.tables.resources) + [r]),
        NewHistory(old(db.nextId) + 1, labId, Undefined, "ADD_FIXED_RESOURCE", ResourceDetail(r)), fault)
  {
    if fault.ChangeFails? {
      return HandlePgError(fault.error);
    }
    var r, _ := db.AddFixedResource(labId, FixedInputOf(body));
    reply := Log(db, labId, "ADD_FIXED_RESOURCE", ResourceDetail(r), fault, Ok(201));
  }

  /** `updateFixedResource`: 404 and no change when the lab has no equipment with that id. */
  method UpdateFixedResource(db: LabsDb, labId: int, resourceId: int, body: JsValue, fault: Fault) returns (reply: Reply)
    requires db.Valid()
    modifies db
    ensures db.Valid()
    ensures fault.ChangeFails? ==> reply == HandlePgError(fault.error) && db.tables == old(db.tables)
    ensures !fault.ChangeFails? ==>
      var patched := PatchedFixed(old(db.tables.resources), labId, resourceId, FixedInputOf(body));
      if forall i :: 0 <= i < |old(db.tables.resources)| ==> !FixedIn(old(db.tables.resources)[i], labId, resourceId)
      then reply == Fail(404, ErrFixedNotFound) && db.tables == old(db.tables)
      else (Find(patched, FixedMatch(labId, resourceId)).Some?
        && reply == Answer(fault, Ok(200)) && db.tables == Logged(old(db.tables).(resources := patched),
             NewHistory(old(db.nextId), labId, Undefined, "UPDATE_FIXED_RESOURCE",
                        ResourceDetail(Find(patched, FixedMatch(labId, resourceId)).value)), fault))
  {
    if fault.ChangeFails? {
      return HandlePgError(fault.error);
    }
    var r := db.UpdateFixedResource(labId, resourceId, FixedInputOf(body));
    if r.None? {
      return Fail(404, ErrFixedNotFound);
    }
    reply := Log(db, labId, "UPDATE_FIXED_RESOURCE", ResourceDetail(r.value), fault, Ok(200));
  }

  /** `deleteFixedResource`: 404 and no history row when nothing was removed; the stock row goes by cascade. */
  method DeleteFixedResource(db: LabsDb, labId: int, resourceId: int, fault: Fault) returns (reply: Reply)
    requires db.Valid()
    modifies db
    ensures db.Valid()
    ensures fault.ChangeFails? ==> reply == HandlePgError(fault.error) && db.tables == old(db.tables)
    ensures !fault.ChangeFails? ==>
      if forall i :: 0 <= i < |old(db.tables.resources)| ==> !AnyResourceIn(old(db.tables.resources)[i], labId, resourceId)
      then reply == Fail(404, ErrFixedNotFound) && db.tables == old(db.tables)
      else reply == Answer(fault, Ok(204)) && db.tables == Logged(old(db.tables).(
          resources := Keep(old(db.tables.resources), (r: Resource) => !AnyResourceIn(r, labId, resourceId)),
          stock := Keep(old(db.tables.stock), (s: StockRow) => s.resourceId != resourceId)),
        NewHistory(old(db.nextId), labId, Undefined, "DELETE_FIXED_RESOURCE", IdDetail("resource_id", resourceId)), fault)
  {
    if fault.ChangeFails? {
      return HandlePgError(fault.error);
    }
    var deleted := db.DeleteFixedResource(labId, resourceId);
    if !deleted {
      return Fail(404, ErrFixedNotFound);
    }
    reply := Log(db, labId, "DELETE_FIXED_RESOURCE", IdDetail("resource_id", resourceId), fault, Ok(204));
  }

  /** `deleteConsumable`: only a consumable of that lab; 404 and no history row when nothing was removed. */
  method DeleteConsumable(db: LabsDb, labId: int, consumableId: int, fault: Fault) returns (reply: Reply)
    requires db.Valid()
    modifies db
    ensures db.Valid()
    ensures fault.ChangeFails? ==> reply == HandlePgError(fault.error) && db.tables == old(db.tables)
    ensures !fault.ChangeFails? ==>
      if forall i :: 0 <= i < |old(db.tables.resources)| ==> !ConsumableIn(old(db.tables.resources)[i], labId, consumableId)
      then reply == Fail(404, ErrConsumableNotFound) && db.tables == old(db.tables)
      else reply == Answer(fault, Ok(204)) && db.tables == Logged(old(db.tables).(
          resources := Keep(old(db.tables.resources), (r: Resource) => !ConsumableIn(r, labId, consumableId)),
          stock := Keep(old(db.tables.stock), (s: StockRow) => s.resourceId != consumableId)),
        NewHistory(old(db.nextId), labId, Undefined, "DELETE_CONSUMABLE", IdDetail("consumable_id", consumableId)), fault)
  {
    if fault.ChangeFails? {
      return HandlePgError(fault.error);
    }
    var deleted := db.DeleteConsumable(labId, consumableId);
    if !deleted {
      return Fail(404, ErrConsumableNotFound);
    }
    reply := Log(db, labId, "DELETE_CONSUMABLE", IdDetail("consumable_id", consumableId), fault, Ok(204));
  }

  /** `addConsumable`: the remapped body, one transaction for the resource and its stock row, then `ADD_CONSUMABLE`. */
  method AddConsumable(db: LabsDb, labId: int, body: JsValue, fault: Fault) returns (reply: Reply)
    requires db.Valid()
    modifies db
    ensures db.Valid()
    ensures fault.ChangeFails? ==> reply == HandlePgError(fault.error) && db.tables == old(db.tables)
    ensures !fault.ChangeFails? ==>
      var d := ConsumableInputOf(ConsumableBody(body));
      var r := NewConsumable(old(db.nextId), labId, d);
      var s := NewStock(r.id, d);
      reply == Answer(fault, Ok(201)) && db.tables == Logged(
        old(db.tables).(resources := old(db.tables.resources) + [r], stock := old(db.tables.stock) + [s]),
        NewHistory(old(db.nextId) + 1, labId, Undefined, "ADD_CONSUMABLE", ConsumableDetail(r, s)), fault)
  {
    if fault.ChangeFails? {
      return HandlePgError(fault.error);
    }
    var r, s, _ := db.AddConsumable(labId, ConsumableInputOf(ConsumableBody(body)));
    reply := Log(db, labId, "ADD_CONSUMABLE", ConsumableDetail(r, s), fault, Ok(201));
  }

  /**
   * `updateConsumable`: the remapped body. A body that reaches the stock
   * makes the database refuse the statement, which is rolled back and
   * handed on; otherwise 404 and no history row when the lookup finds
   * nothing, else the `UPDATE_CONSUMABLE` row.
   */
  method UpdateConsumable(db: LabsDb, labId: int, id: int, body: JsValue, fault: Fault) returns (reply: Reply)
    requires db.Valid()
    modifies db
    ensures db.Valid()
    ensures fault.ChangeFails? ==> reply == HandlePgError(fault.error) && db.tables == old(db.tables)
    ensures !fault.ChangeFails? ==>
      var run := UpdateConsumableAsWritten(old(db.tables), labId, id, ConsumableInputOf(ConsumableBody(body)));
      (run.RolledBack? ==> reply == PassedOn && db.tables == old(db.tables))
      && (run.Committed? && run.update.result.None? ==>
            reply == Fail(404, ErrConsumableNotFound) && db.tables == old(db.tables).(resources := run.update.resources))
      && (run.Committed? && run.update.result.Some? ==>
            reply == Answer(fault, Ok(200)) && db.tables == Logged(old(db.tables).(resources := run.update.resources),
              NewHistory(old(db.nextId), labId, Undefined, "UPDATE_CONSUMABLE", ResourceDetail(run.update.result.value)), fault))
  {
    if fault.ChangeFails? {
      return HandlePgError(fault.error);
    }
    var run := db.UpdateConsumable(labId, id, ConsumableInputOf(ConsumableBody(body)));
    if run.RolledBack? {
      return HandlePgError(PgError(run.code, Undefined, Undefined, "could not determine data type of parameter $1"));
    }
    if run.update.result.None? {
      return Fail(404, ErrConsumableNotFound);
    }
    reply := Log(db, labId, "UPDATE_CONSUMABLE", ResourceDetail(run.update.result.value), fault, Ok(200));
  }

  // ----- applyHistoryFilters -----

  /** A history item as the filter reads it; empty texts are the falsy ones. */
  datatype HistoryItem = HistoryItem(createdAt: Option<int>, date: Option<int>, action: string,
                                     actionType: string, userName: string, user: string)

  /** A date of the query: absent, unparseable (an invalid `Date`), or a day number. */
  datatype QueryDate = NoDate | BadDate | Day(day: int)

  datatype HistoryQuery = HistoryQuery(dateFrom: QueryDate, dateTo: QueryDate, action: string, user: string)

  const MsPerDay := 86_400_000
  /** `setHours(23, 59, 59)`: 23:59:59.000 of the day. */
  const EndOfDayMs := 86_399_000

  /** `new Date(h.created_at || h.date)`; no date at all is an invalid date. */
  function ItemTime(h: HistoryItem): Option<int> {
    if h.createdAt.Some? then h.createdAt else h.date
  }

  /** `h.action || h.action_type || ''`. */
  function ItemAction(h: HistoryItem): string {
    if h.action != "" then h.action else h.actionType
  }

  /** `h.user_name || h.user || ''`. */
  function ItemUser(h: HistoryItem): string {
    if h.userName != "" then h.userName else h.user
  }

  /** An invalid date compares false with everything, so it keeps nothing. */
  predicate FromPasses(q: HistoryQuery, h: HistoryItem) {
    match q.dateFrom
    case NoDate => true
    case BadDate => false
    case Day(d) => ItemTime(h).Some? && ItemTime(h).value >= d * MsPerDay
  }

  predicate ToPasses(q: HistoryQuery, h: HistoryItem) {
    match q.dateTo
    case NoDate => true
    case BadDate => false
    case Day(d) => ItemTime(h).Some? && ItemTime(h).value <= d * MsPerDay + EndOfDayMs
  }

  /** Case-sensitive. */
  predicate ActionPasses(q: HistoryQuery, h: HistoryItem) {
    q.action == "" || Contains(ItemAction(h), q.action)
  }

  /** Case-insensitive. */
  predicate UserPasses(q: HistoryQuery, h: HistoryItem) {
    q.user == "" || Contains(Lower(ItemUser(h)), Lower(q.user))
  }

  predicate ItemMatches(q: HistoryQuery, h: HistoryItem) {
    FromPasses(q, h) && ToPasses(q, h) && ActionPasses(q, h) && UserPasses(q, h)
  }

  predicate NoQuery(q: HistoryQuery) {
    q.dateFrom.NoDate? && q.dateTo.NoDate? && q.action == "" && q.user == ""
  }

  predicate PassesDates(q: HistoryQuery, h: HistoryItem) { FromPasses(q, h) && ToPasses(q, h) }

  predicate PassesAction(q: HistoryQuery, h: HistoryItem) { PassesDates(q, h) && ActionPasses(q, h) }

  lemma FromStage(s: seq<HistoryItem>, q: HistoryQuery)
    ensures q.dateFrom.NoDate? ==> Keep(s, h => FromPasses(q, h)) == s
  {
    if q.dateFrom.NoDate? {
      KeepAll(s, h => FromPasses(q, h));
    }
  }

  lemma ToStage(s: seq<HistoryItem>, q: HistoryQuery)
    ensures Keep(Keep(s, h => FromPasses(q, h)), h => ToPasses(q, h)) == Keep(s, h => PassesDates(q, h))
    ensures q.dateTo.NoDate? ==> Keep(s, h => FromPasses(q, h)) == Keep(s, h => PassesDates(q, h))
  {
    KeepThen(s, h => FromPasses(q, h), h => ToPasses(q, h), h => PassesDates(q, h));
    if q.dateTo.NoDate? {
      KeepExt(s, h => FromPasses(q, h), h => PassesDates(q, h));
    }
  }

  lemma ActionStage(s: seq<HistoryItem>, q: HistoryQuery)
    ensures Keep(Keep(s, h => PassesDates(q, h)), h => ActionPasses(q, h)) == Keep(s, h => PassesAction(q, h))
    ensures q.action == "" ==> Keep(s, h => PassesDates(q, h)) == Keep(s, h => PassesAction(q, h))
  {
    KeepThen(s, h => PassesDates(q, h), h => ActionPasses(q, h), h => PassesAction(q, h));
    if q.action == "" {
      KeepExt(s, h => PassesDates(q, h), h => PassesAction(q, h));
    }
  }

  lemma UserStage(s: seq<HistoryItem>, q: HistoryQuery)
    ensures q.user != "" ==>
      Keep(Keep(s, h => PassesAction(q, h)), h => Contains(Lower(ItemUser(h)), Lower(q.user)))
      == Keep(s, h => ItemMatches(q, h))
    ensures q.user == "" ==> Keep(s, h => PassesAction(q, h)) == Keep(s, h => ItemMatches(q, h))
  {
    if q.user != "" {
      KeepThen(s, h => PassesAction(q, h), h => Contains(Lower(ItemUser(h)), Lower(q.user)), h => ItemMatches(q, h));
    } else {
      KeepExt(s, h => PassesAction(q, h), h => ItemMatches(q, h));
    }
  }

  /**
   * `applyHistoryFilters`: narrows a copy of the list filter by filter;
   * the result keeps exactly the items every given filter passes, in
   * their order, and is the whole list when no filter is given.
   */
  method ApplyHistoryFilters(history: seq<HistoryItem>, q: HistoryQuery) returns (filtered: seq<HistoryItem>)
    ensures filtered == Keep(history, h => ItemMatches(q, h))
    ensures NoQuery(q) ==> filtered == history
  {
    filtered := history;
    FromStage(history, q);
    if !q.dateFrom.NoDate? {
      filtered := Keep(filtered, h => FromPasses(q, h));
    }
    ToStage(history, q);
    if !q.dateTo.NoDate? {
      filtered := Keep(filtered, h => ToPasses(q, h));
    }
    ActionStage(history, q);
    if q.action != "" {
      filtered := Keep(filtered, h => ActionPasses(q, h));
    }
    UserStage(history, q);
    if q.user != "" {
      var userLower := Lower(q.user);
      filtered := Keep(filtered, h => Contains(Lower(ItemUser(h)), userLower));
    }
    if NoQuery(q) {
      KeepAll(history, h => ItemMatches(q, h));
    }
  }

  /** The filtered list is an order-preserving part of the input. */
  lemma HistoryFiltersShape(history: seq<HistoryItem>, q: HistoryQuery)
    ensures IsSubseq(Keep(history, h => ItemMatches(q, h)), history)
  {
    KeepIsSubseq(history, h => ItemMatches(q, h));
  }

  /** `dateTo` takes in its whole day up to 23:59:59 and nothing of the next day. */
  lemma DateToWholeDay(q: HistoryQuery, h: HistoryItem)
    requires q.dateTo.Day? && ItemTime(h).Some?
    ensures ItemTime(h).value == q.dateTo.day * MsPerDay + EndOfDayMs ==> ToPasses(q, h)
    ensures ItemTime(h).value >= (q.dateTo.day + 1) * MsPerDay ==> !ToPasses(q, h)
  {
  }

  /** An unparseable date keeps no item at all. */
  lemma BadDateKeepsNothing(history: seq<HistoryItem>, q: HistoryQuery)
    requires q.dateFrom.BadDate? || q.dateTo.BadDate?
    ensures Keep(history, h => ItemMatches(q, h)) == []
  {
    KeepNone(history, h => ItemMatches(q, h));
  }
}
