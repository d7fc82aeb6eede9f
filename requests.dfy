/**
 * The reservation workflow of the requests controller: the guard chain of
 * `create` and `preview`, the all-or-nothing write of a request with its
 * items and calendar slots, review by `setStatus`, `cancel`, and the
 * message thread of a request.
 *
 * The tables are fields of `ReservationDb`; timestamps are milliseconds and
 * the current time is a parameter. The availability check, the requirement
 * check and the notification service are not part of this model: they are
 * passed in as functions (availability, requirements) or as their outcome
 * (whether notifying succeeded).
 */
module Requests {
  import opened Wrappers
  import opened Text
  import opened Seqs
  import opened Js
  import opened Sql

  const FiveMinutesMs := 5 * 60 * 1000
  const MsPerHour := 1000 * 60 * 60
  /** 30 minutes, the shortest reservation. */
  const MinDurationMs := MsPerHour / 2
  /** 720 hours (30 days), the longest reservation. */
  const MaxDurationMs := 720 * MsPerHour

  // ----- error texts of the controller -----
  const ErrMissingFields := "Campos obligatorios faltantes"
  const ErrMissingRequester := "Datos del solicitante incompletos"
  const ErrMissingDates := "Las fechas de inicio y fin son obligatorias"
  const ErrBadDate := "Formato de fecha inválido"
  const ErrPast := "No se pueden crear solicitudes con fechas pasadas"
  const ErrOrder := "La fecha de inicio debe ser anterior a la fecha de fin"
  const ErrTooLong := "La duración máxima de una reserva es de 30 días"
  const ErrTooShort := "La duración mínima de una reserva es de 30 minutos"
  const ErrNoLab := "El laboratorio especificado no existe"
  const ErrLabInactive := "El laboratorio no está activo actualmente"
  const ErrNoResource := "Uno o más recursos especificados no existen"
  const ErrPreviewFields := "Faltan campos"

  datatype Status = Pendiente | EnRevision | NecesitaInfo | Aprobada | Rechazada | Cancelada

  function StatusName(s: Status): string {
    match s
    case Pendiente => "PENDIENTE"
    case EnRevision => "EN_REVISION"
    case NecesitaInfo => "NECESITA_INFO"
    case Aprobada => "APROBADA"
    case Rechazada => "RECHAZADA"
    case Cancelada => "CANCELADA"
  }

  /** A date field of a request body: absent or falsy, present but not a date, or an instant. */
  datatype DateArg = Missing | Invalid | At(ms: int)

  /** Who is calling: `req.user?.id` and `req.auth?.user?.id`. */
  datatype Caller = Caller(userId: Option<int>, authUserId: Option<int>)

  datatype ItemIn = ItemIn(resourceId: Option<int>, qty: Option<int>)

  datatype CreateBody = CreateBody(
    labId: Option<int>, purpose: string, items: seq<ItemIn>, requesterRole: string,
    userId: Option<int>, startsAt: DateArg, endsAt: DateArg, reason: string)

  datatype PreviewBody = PreviewBody(
    labId: Option<int>, items: seq<ItemIn>, from: DateArg, to: DateArg, userId: Option<int>)

  datatype Lab = Lab(name: string, isActive: bool)
  datatype Resource = Resource(name: string, state: string, rtype: string)

  /** What `checkAvailability` answers. */
  datatype Availability = Availability(ok: bool, conflicts: seq<int>)
  /** What `requirementsOk` answers. */
  datatype Requirements = Requirements(ok: bool, missing: seq<string>)

  datatype Request = Request(
    id: int, requesterId: Option<int>, roleSnapshot: string, labId: int, objective: string,
    requirementsOk: bool, status: Status, reviewerNote: Option<string>,
    requestedFrom: Option<int>, requestedTo: Option<int>)

  datatype RequestItem = RequestItem(
    requestId: int, resourceId: Option<int>, itemType: string, qty: int, useStart: int, useEnd: int)

  datatype Slot = Slot(
    labId: int, resourceId: Option<int>, startsAt: Option<int>, endsAt: Option<int>,
    status: string, title: Option<string>, reason: string, createdBy: Option<int>)

  /** A `lab_history` row; `detail` is the value whose `JSON.stringify` text is stored. */
  datatype HistoryRow = HistoryRow(labId: int, actor: Option<int>, actionType: string, detail: JsValue)

  datatype Message = Message(requestId: int, sender: string, text: string)

  datatype Offender = Offender(id: int, name: string, state: string)

  datatype Validation = Validation(
    availabilityOk: bool, availabilityConflicts: seq<int>, requirementsOk: bool, missingRequirements: seq<string>)

  datatype CreateOutcome =
    | Rejected(code: int, error: string)
    | Unavailable(offenders: seq<Offender>)
    | Conflict(conflicts: seq<int>)
    | Created(request: Request, validation: Validation)
    | ServerError

  function CreateCode(o: CreateOutcome): int {
    match o
    case Rejected(code, _) => code
    case Unavailable(_) => 400
    case Conflict(_) => 409
    case Created(_, _) => 201
    case ServerError => 500
  }

  // ---------------------------------------------------------------------
  // Caller identity
  // ---------------------------------------------------------------------

  /** An optional id as a JavaScript value: the number, or `null` when absent. */
  function IdValue(x: Option<int>): (r: JsValue)
    ensures Truthy(r) <==> TruthyId(x)
    ensures r.Null? <==> x.None?
  {
    if x.Some? then Num(x.value) else Null
  }

  /**
   * `userIdFrom(req)`: the user of the token, else of the auth context, else
   * the body's `user_id` as it was sent, else `null`.
   */
  function UserIdFrom(caller: Caller, bodyUserId: JsValue): (r: JsValue)
    ensures r.Null? <==> !TruthyId(caller.userId) && !TruthyId(caller.authUserId) && !Truthy(bodyUserId)
    ensures !r.Null? ==> Truthy(r)
    ensures TruthyId(caller.userId) ==> r == Num(caller.userId.value)
    ensures !TruthyId(caller.userId) && TruthyId(caller.authUserId) ==> r == Num(caller.authUserId.value)
    ensures !TruthyId(caller.userId) && !TruthyId(caller.authUserId) && Truthy(bodyUserId) ==> r == bodyUserId
  {
    Or(IdValue(caller.userId), Or(IdValue(caller.authUserId), Or(bodyUserId, Null)))
  }

  /**
   * The caller id of `create` and `preview`, whose body `user_id` is a
   * number here: `userIdFrom` of that number, as an optional id.
   */
  function NumericUserId(caller: Caller, bodyUserId: Option<int>): (r: Option<int>)
    ensures IdValue(r) == UserIdFrom(caller, IdValue(bodyUserId))
    ensures r.None? <==> !TruthyId(caller.userId) && !TruthyId(caller.authUserId) && !TruthyId(bodyUserId)
    ensures r.Some? ==> r.value != 0
  {
    match UserIdFrom(caller, IdValue(bodyUserId))
    case Num(n) => Some(n)
    case _ => None
  }

  /** `create` prefers the body's `user_id` over the caller. */
  function CreateUid(b: CreateBody, caller: Caller): (r: Option<int>)
    ensures TruthyId(b.userId) ==> r == b.userId
    ensures !TruthyId(b.userId) ==> r == NumericUserId(caller, b.userId)
  {
    if TruthyId(b.userId) then b.userId else NumericUserId(caller, b.userId)
  }

  // ---------------------------------------------------------------------
  // The guard chain of create
  // ---------------------------------------------------------------------

  /**
   * The checks on the window, in the controller's order. The controller
   * measures the duration in hours as a fraction; the contract states the
   * same bounds in milliseconds.
   */
  function WindowError(start: int, end: int, now: int): (r: Option<string>)
    ensures r.None? <==> now - FiveMinutesMs <= start < end && MinDurationMs <= end - start <= MaxDurationMs
    ensures start < now - FiveMinutesMs ==> r == Some(ErrPast)
    ensures r == Some(ErrTooShort) ==> now - FiveMinutesMs <= start < end && end - start < MinDurationMs
  {
    var durationHours := (end - start) as real / (MsPerHour as real);
    if start < now - FiveMinutesMs then Some(ErrPast)
    else if start >= end then Some(ErrOrder)
    else if durationHours > 720.0 then Some(ErrTooLong)
    else if durationHours < 0.5 then Some(ErrTooShort)
    else None
  }

  /** The checks that need neither the database nor the oracles. */
  function FieldError(b: CreateBody, now: int): (r: Option<string>)
    ensures r.None? ==> TruthyId(b.labId) && b.purpose != "" && b.requesterRole != ""
                        && b.startsAt.At? && b.endsAt.At?
                        && WindowError(b.startsAt.ms, b.endsAt.ms, now).None?
    ensures (!TruthyId(b.labId) || b.purpose == "") ==> r == Some(ErrMissingFields)
  {
    if !TruthyId(b.labId) || b.purpose == "" then Some(ErrMissingFields)
    else if b.requesterRole == "" then Some(ErrMissingRequester)
    else if b.startsAt.Missing? || b.endsAt.Missing? then Some(ErrMissingDates)
    else if b.startsAt.Invalid? || b.endsAt.Invalid? then Some(ErrBadDate)
    else WindowError(b.startsAt.ms, b.endsAt.ms, now)
  }

  predicate HasResource(it: ItemIn) {
    TruthyId(it.resourceId)
  }

  /** `items.filter(i => i.resource_id).map(i => i.resource_id)`. */
  function ResourceIds(items: seq<ItemIn>): (r: seq<int>)
    ensures |r| == Count(items, HasResource)
    ensures forall k :: 0 <= k < |r| ==> r[k] != 0
  {
    var ks := Keep(items, HasResource);
    seq(|ks|, k requires 0 <= k < |ks| => ks[k].resourceId.value)
  }

  /** The id at position `k` comes from an item that names it. */
  lemma ResourceIdFrom(items: seq<ItemIn>, k: nat)
    requires k < |ResourceIds(items)|
    ensures exists j :: 0 <= j < |items| && HasResource(items[j]) && items[j].resourceId == Some(ResourceIds(items)[k])
  {
    var ks := Keep(items, HasResource);
    assert ks[k] in items && HasResource(ks[k]) && ResourceIds(items)[k] == ks[k].resourceId.value;
    var j :| 0 <= j < |items| && items[j] == ks[k];
    assert HasResource(items[j]) && items[j].resourceId == Some(ResourceIds(items)[k]);
  }

  /** An item that names a resource has its id listed. */
  lemma ResourceIdOf(items: seq<ItemIn>, j: nat)
    requires j < |items| && HasResource(items[j])
    ensures items[j].resourceId.value in ResourceIds(items)
  {
    var ks := Keep(items, HasResource);
    var k :| 0 <= k < |ks| && ks[k] == items[j];
    assert ResourceIds(items)[k] == items[j].resourceId.value;
  }

  /** The ids are exactly those of the items that name a resource. */
  lemma {:induction false} ResourceIdsMembers(items: seq<ItemIn>)
    ensures forall id :: id in ResourceIds(items) ==>
      exists j :: 0 <= j < |items| && HasResource(items[j]) && items[j].resourceId == Some(id)
    ensures forall j :: 0 <= j < |items| && HasResource(items[j]) ==> items[j].resourceId.value in ResourceIds(items)
  {
    forall id | id in ResourceIds(items)
      ensures exists j :: 0 <= j < |items| && HasResource(items[j]) && items[j].resourceId == Some(id)
    {
      var k :| 0 <= k < |ResourceIds(items)| && ResourceIds(items)[k] == id;
      ResourceIdFrom(items, k);
    }
    forall j | 0 <= j < |items| && HasResource(items[j]) {
      ResourceIdOf(items, j);
    }
  }

  /** The number of rows `WHERE id = ANY(ids)` returns: each existing id once. */
  function FoundCount(ids: seq<int>, resources: map<int, Resource>): nat {
    |set x | x in ids && x in resources|
  }

  /** The rows of resources that are not `DISPONIBLE`, as `{id, name, state}`. */
  function Offenders(ids: seq<int>, resources: map<int, Resource>): (r: seq<Offender>)
    requires forall k :: 0 <= k < |ids| ==> ids[k] in resources
    ensures |r| == 0 <==> forall k :: 0 <= k < |ids| ==> resources[ids[k]].state == "DISPONIBLE"
    ensures forall j :: 0 <= j < |r| ==>
      r[j].id in resources && r[j] == Offender(r[j].id, resources[r[j].id].name, resources[r[j].id].state)
      && r[j].state != "DISPONIBLE"
    ensures forall k :: 0 <= k < |ids| && resources[ids[k]].state != "DISPONIBLE" ==>
      Offender(ids[k], resources[ids[k]].name, resources[ids[k]].state) in r
  {
    var bad := Keep(ids, id => id in resources && resources[id].state != "DISPONIBLE");
    assert |bad| > 0 ==> bad[0] in ids && resources[bad[0]].state != "DISPONIBLE";
    var r := seq(|bad|, j requires 0 <= j < |bad| => Offender(bad[j], resources[bad[j]].name, resources[bad[j]].state));
    forall k | 0 <= k < |ids| && resources[ids[k]].state != "DISPONIBLE"
      ensures Offender(ids[k], resources[ids[k]].name, resources[ids[k]].state) in r
    {
      var j :| 0 <= j < |bad| && bad[j] == ids[k];
      assert r[j] == Offender(ids[k], resources[ids[k]].name, resources[ids[k]].state);
    }
    r
  }

  /** The verdict of the checks before the transaction. */
  datatype Verdict = Admit(avail: Availability, reqs: Requirements) | Refuse(out: CreateOutcome)

  predicate HardConflict(a: Availability) {
    !a.ok && |a.conflicts| > 0
  }

  function RequirementsFor(labId: int, uid: Option<int>, requirementsOk: (int, int) -> Requirements): (r: Requirements)
    ensures !TruthyId(uid) ==> r == Requirements(true, [])
  {
    if TruthyId(uid) then requirementsOk(labId, uid.value) else Requirements(true, [])
  }

  function Admission(
    b: CreateBody, uid: Option<int>, now: int, labs: map<int, Lab>, resources: map<int, Resource>,
    checkAvailability: (int, seq<int>, int, int) -> Availability,
    requirementsOk: (int, int) -> Requirements): (r: Verdict)
    ensures FieldError(b, now).Some? ==> r == Refuse(Rejected(400, FieldError(b, now).value))
    ensures r.Admit? ==> r.reqs == RequirementsFor(b.labId.value, uid, requirementsOk)
    ensures r.Refuse? ==> !r.out.Created? && !r.out.ServerError?
  {
    match FieldError(b, now)
    case Some(e) => Refuse(Rejected(400, e))
    case None =>
      var lab := b.labId.value;
      var ids := ResourceIds(b.items);
      if lab !in labs then Refuse(Rejected(404, ErrNoLab))
      else if !labs[lab].isActive then Refuse(Rejected(400, ErrLabInactive))
      else if |ids| > 0 && FoundCount(ids, resources) != |ids| then Refuse(Rejected(404, ErrNoResource))
      else
        assert FoundCount(ids, resources) == |ids| ==> forall k :: 0 <= k < |ids| ==> ids[k] in resources by {
          if FoundCount(ids, resources) == |ids| { FoundAll(ids, resources); }
        }
        if |ids| > 0 && |Offenders(ids, resources)| > 0 then Refuse(Unavailable(Offenders(ids, resources)))
        else
          var avail := checkAvailability(lab, ids, b.startsAt.ms, b.endsAt.ms);
          if HardConflict(avail) then Refuse(Conflict(avail.conflicts))
          else Admit(avail, RequirementsFor(lab, uid, requirementsOk))
  }

  /**
   * The refusals after the field checks, in the order the handler makes
   * them: an unknown lab (404), an inactive lab (400), a requested resource
   * that is not found (404), resources that are not available (400 with
   * their rows), a hard conflict (409 with the conflicting ids).
   */
  lemma AdmissionRefusals(
    b: CreateBody, uid: Option<int>, now: int, labs: map<int, Lab>, resources: map<int, Resource>,
    checkAvailability: (int, seq<int>, int, int) -> Availability,
    requirementsOk: (int, int) -> Requirements)
    requires FieldError(b, now).None?
    ensures var r := Admission(b, uid, now, labs, resources, checkAvailability, requirementsOk);
      var lab := b.labId.value;
      var ids := ResourceIds(b.items);
      var avail := checkAvailability(lab, ids, b.startsAt.ms, b.endsAt.ms);
      (lab !in labs ==> r == Refuse(Rejected(404, ErrNoLab)))
      && (lab in labs && !labs[lab].isActive ==> r == Refuse(Rejected(400, ErrLabInactive)))
      && (lab in labs && labs[lab].isActive && |ids| > 0 && FoundCount(ids, resources) != |ids| ==>
            r == Refuse(Rejected(404, ErrNoResource)))
      && (lab in labs && labs[lab].isActive && FoundCount(ids, resources) == |ids|
          && (forall k :: 0 <= k < |ids| ==> ids[k] in resources) ==>
            (|Offenders(ids, resources)| > 0 ==> r == Refuse(Unavailable(Offenders(ids, resources))))
            && (|Offenders(ids, resources)| == 0 && HardConflict(avail) ==> r == Refuse(Conflict(avail.conflicts)))
            && (|Offenders(ids, resources)| == 0 && !HardConflict(avail) ==>
                  r == Admit(avail, RequirementsFor(lab, uid, requirementsOk))))
  {
  }

  /**
   * A request is admitted exactly when its fields are well formed, the lab
   * exists and is active, every submitted resource exists, is unique and is
   * available, and the availability oracle reports no hard conflict.
   */
  lemma AdmissionIff(
    b: CreateBody, uid: Option<int>, now: int, labs: map<int, Lab>, resources: map<int, Resource>,
    checkAvailability: (int, seq<int>, int, int) -> Availability,
    requirementsOk: (int, int) -> Requirements)
    ensures Admission(b, uid, now, labs, resources, checkAvailability, requirementsOk).Admit? <==>
      FieldError(b, now).None? && b.labId.value in labs && labs[b.labId.value].isActive
      && (forall k :: 0 <= k < |ResourceIds(b.items)| ==>
            ResourceIds(b.items)[k] in resources && resources[ResourceIds(b.items)[k]].state == "DISPONIBLE")
      && FoundCount(ResourceIds(b.items), resources) == |ResourceIds(b.items)|
      && !HardConflict(checkAvailability(b.labId.value, ResourceIds(b.items), b.startsAt.ms, b.endsAt.ms))
  {
    var ids := ResourceIds(b.items);
    if FieldError(b, now).None? && FoundCount(ids, resources) == |ids| {
      FoundAll(ids, resources);
    }
    if |ids| == 0 {
      assert FoundCount(ids, resources) == 0 by {
        assert (set x | x in ids && x in resources) == {};
      }
    }
  }

  /**
   * The resource check compares a row count with the number of submitted ids:
   * it passes exactly when every id exists and no id is repeated.
   */
  lemma FoundCountIff(ids: seq<int>, resources: map<int, Resource>)
    ensures FoundCount(ids, resources) == |ids| <==>
              Distinct(ids) && forall k :: 0 <= k < |ids| ==> ids[k] in resources
  {
    var found := set x | x in ids && x in resources;
    assert found <= ToSet(ids);
    CardToSet(ids);
    if FoundCount(ids, resources) == |ids| {
      FoundAll(ids, resources);
      assert found == ToSet(ids);
    }
    if forall k :: 0 <= k < |ids| ==> ids[k] in resources {
      assert found == ToSet(ids);
    }
  }

  lemma FoundAll(ids: seq<int>, resources: map<int, Resource>)
    requires FoundCount(ids, resources) == |ids|
    ensures forall k :: 0 <= k < |ids| ==> ids[k] in resources
  {
    var found := set x | x in ids && x in resources;
    CardToSet(ids);
    forall k | 0 <= k < |ids| ensures ids[k] in resources {
      if ids[k] !in resources {
        assert ids[k] in ToSet(ids);
        SubsetCard(found, ToSet(ids) - {ids[k]});
      }
    }
  }

  /** A repeated resource id makes `create` answer 404, even when the resource exists and is free. */
  lemma DuplicateResourceIsNotFound(
    b: CreateBody, uid: Option<int>, now: int, labs: map<int, Lab>, resources: map<int, Resource>,
    checkAvailability: (int, seq<int>, int, int) -> Availability, requirementsOk: (int, int) -> Requirements)
    requires FieldError(b, now).None? && b.labId.value in labs && labs[b.labId.value].isActive
    requires !Distinct(ResourceIds(b.items))
    ensures Admission(b, uid, now, labs, resources, checkAvailability, requirementsOk)
            == Refuse(Rejected(404, ErrNoResource))
  {
    FoundCountIff(ResourceIds(b.items), resources);
  }

  // ---------------------------------------------------------------------
  // The rows a successful create writes
  // ---------------------------------------------------------------------

  function QtyOrOne(q: Option<int>): (r: int)
    ensures TruthyId(q) ==> r == q.value
    ensures !TruthyId(q) ==> r == 1
  {
    if TruthyId(q) then q.value else 1
  }

  function ItemRow(requestId: int, it: ItemIn, resources: map<int, Resource>, start: int, end: int): RequestItem {
    var rid := if HasResource(it) then it.resourceId else None;
    var itemType := if HasResource(it) && it.resourceId.value in resources then resources[it.resourceId.value].rtype
                    else "LAB_SPACE";
    RequestItem(requestId, rid, itemType, QtyOrOne(it.qty), start, end)
  }

  /** One `request_item` per submitted item, in order. */
  function ItemRows(requestId: int, items: seq<ItemIn>, resources: map<int, Resource>, start: int, end: int): (r: seq<RequestItem>)
    ensures |r| == |items|
    ensures forall k :: 0 <= k < |r| ==> r[k].requestId == requestId && r[k].useStart == start && r[k].useEnd == end
    ensures forall k :: 0 <= k < |r| ==> (r[k].itemType == "LAB_SPACE" || HasResource(items[k]))
    ensures forall k :: 0 <= k < |r| ==> (r[k].resourceId.Some? <==> HasResource(items[k]))
    ensures forall k :: 0 <= k < |r| && HasResource(items[k]) ==> r[k].resourceId == items[k].resourceId
    ensures forall k :: 0 <= k < |r| ==> r[k].qty == QtyOrOne(items[k].qty)
    ensures forall k :: 0 <= k < |r| && HasResource(items[k]) && items[k].resourceId.value in resources ==>
      r[k].itemType == resources[items[k].resourceId.value].rtype
    ensures forall k :: 0 <= k < |r| && !(HasResource(items[k]) && items[k].resourceId.value in resources) ==>
      r[k].itemType == "LAB_SPACE"
  {
    seq(|items|, k requires 0 <= k < |items| => ItemRow(requestId, items[k], resources, start, end))
  }

  function ResourceSlot(labId: int, resourceId: int, start: int, end: int, reason: string, uid: Option<int>): Slot {
    Slot(labId, Some(resourceId), Some(start), Some(end), "RESERVADO", None, reason, uid)
  }

  /** The slots of the items that name a resource, in item order. */
  function ItemSlots(labId: int, items: seq<ItemIn>, start: int, end: int, reason: string, uid: Option<int>): (r: seq<Slot>)
    ensures |r| == |ResourceIds(items)|
    ensures forall k :: 0 <= k < |r| ==> r[k] == ResourceSlot(labId, ResourceIds(items)[k], start, end, reason, uid)
  {
    if |items| == 0 then []
    else
      var init := items[..|items| - 1];
      var last := items[|items| - 1];
      assert items == init + [last];
      KeepAppend(init, [last], HasResource);
      ItemSlots(labId, init, start, end, reason, uid)
      + (if HasResource(last) then [ResourceSlot(labId, last.resourceId.value, start, end, reason, uid)] else [])
  }

  /** `reason || purpose`. */
  function SlotReason(b: CreateBody): string {
    if b.reason != "" then b.reason else b.purpose
  }

  /** The lab's own slot first, then one per item that names a resource. */
  function CreatedSlots(b: CreateBody, uid: Option<int>): (r: seq<Slot>)
    requires b.labId.Some? && b.startsAt.At? && b.endsAt.At?
    ensures |r| == 1 + Count(b.items, HasResource)
    ensures r[0].resourceId.None?
    ensures forall k :: 1 <= k < |r| ==> r[k].resourceId == Some(ResourceIds(b.items)[k - 1])
    ensures forall k :: 0 <= k < |r| ==>
      r[k].labId == b.labId.value && r[k].status == "RESERVADO"
      && r[k].startsAt == Some(b.startsAt.ms) && r[k].endsAt == Some(b.endsAt.ms)
      && r[k].reason == SlotReason(b) && r[k].createdBy == uid
  {
    [Slot(b.labId.value, None, Some(b.startsAt.ms), Some(b.endsAt.ms), "RESERVADO", None, SlotReason(b), uid)]
    + ItemSlots(b.labId.value, b.items, b.startsAt.ms, b.endsAt.ms, SlotReason(b), uid)
  }

  function NewRequest(id: int, b: CreateBody, uid: Option<int>, reqs: Requirements): Request
    requires b.labId.Some?
  {
    Request(id, uid, b.requesterRole, b.labId.value, b.purpose, reqs.ok, Pendiente, None, None, None)
  }

  // ---------------------------------------------------------------------
  // preview
  // ---------------------------------------------------------------------

  /** What `preview` answers: 400 with a message, 500 from its own `catch`, or the validation. */
  datatype PreviewOutcome =
    | PreviewRejected(error: string)
    | PreviewFailed
    | PreviewResult(validation: Validation)

  /**
   * `preview`: the checks of `create` up to the order of start and end,
   * then both oracles; an oracle that rejects (`oracleFails`, a refused
   * query inside it) is answered 500 by the handler's `catch`.
   */
  function Preview(
    b: PreviewBody, caller: Caller, now: int,
    checkAvailability: (int, seq<int>, int, int) -> Availability,
    requirementsOk: (int, int) -> Requirements, oracleFails: bool): (r: PreviewOutcome)
    ensures r.PreviewRejected? <==>
      !(TruthyId(b.labId) && b.from.At? && b.to.At? && now - FiveMinutesMs <= b.from.ms < b.to.ms)
    ensures r.PreviewFailed? <==> !r.PreviewRejected? && oracleFails
    ensures r.PreviewResult? ==>
      var avail := checkAvailability(b.labId.value, ResourceIds(b.items), b.from.ms, b.to.ms);
      var reqs := RequirementsFor(b.labId.value, NumericUserId(caller, b.userId), requirementsOk);
      r.validation == Validation(avail.ok, avail.conflicts, reqs.ok, reqs.missing)
    ensures r.PreviewResult? && !TruthyId(NumericUserId(caller, b.userId)) ==>
      r.validation.requirementsOk && r.validation.missingRequirements == []
    ensures (!TruthyId(b.labId) || b.from.Missing? || b.to.Missing?) ==> r == PreviewRejected(ErrPreviewFields)
  {
    if !TruthyId(b.labId) || b.from.Missing? || b.to.Missing? then PreviewRejected(ErrPreviewFields)
    else if b.from.Invalid? || b.to.Invalid? then PreviewRejected(ErrBadDate)
    else if b.from.ms < now - FiveMinutesMs then PreviewRejected(ErrPast)
    else if b.from.ms >= b.to.ms then PreviewRejected(ErrOrder)
    else if oracleFails then PreviewFailed
    else
      var uid := NumericUserId(caller, b.userId);
      var avail := checkAvailability(b.labId.value, ResourceIds(b.items), b.from.ms, b.to.ms);
      var reqs := RequirementsFor(b.labId.value, uid, requirementsOk);
      PreviewResult(Validation(avail.ok, avail.conflicts, reqs.ok, reqs.missing))
  }

  /**
   * `preview` is more lenient than `create`: whatever window `create`
   * accepts, `preview` accepts too, and a ten-minute window shows that
   * the converse fails (preview has no duration bounds).
   */
  lemma PreviewAcceptsWhatCreateAccepts(
    b: CreateBody, caller: Caller, now: int,
    checkAvailability: (int, seq<int>, int, int) -> Availability, requirementsOk: (int, int) -> Requirements)
    requires FieldError(b, now).None?
    ensures Preview(PreviewBody(b.labId, b.items, b.startsAt, b.endsAt, b.userId), caller, now,
                    checkAvailability, requirementsOk, false).PreviewResult?
    ensures var shortEnd := b.startsAt.ms + 10 * 60 * 1000;
            FieldError(b.(endsAt := At(shortEnd)), now) == Some(ErrTooShort)
            && Preview(PreviewBody(b.labId, b.items, b.startsAt, At(shortEnd), b.userId), caller, now,
                       checkAvailability, requirementsOk, false).PreviewResult?
  {
  }

  // ---------------------------------------------------------------------
  // Review, cancellation and messages
  // ---------------------------------------------------------------------

  /** The statuses a review may set: `APROBADA`, `RECHAZADA`, `NECESITA_INFO`. */
  function ReviewStatus(s: string): (r: Option<Status>)
    ensures r.Some? <==> s in {"APROBADA", "RECHAZADA", "NECESITA_INFO"}
    ensures r.Some? ==> StatusName(r.value) == s
  {
    if s == "APROBADA" then Some(Aprobada)
    else if s == "RECHAZADA" then Some(Rechazada)
    else if s == "NECESITA_INFO" then Some(NecesitaInfo)
    else None
  }

  /** The row after the review update: new status, and the note unless none was given. */
  function ReviewedRow(r: Request, s: Status, note: string): (u: Request)
    ensures u.status == s
    ensures u.reviewerNote == (if note == "" then r.reviewerNote else Some(note))
    ensures u == r.(status := u.status, reviewerNote := u.reviewerNote)
  {
    r.(status := s, reviewerNote := if note != "" then Some(note) else r.reviewerNote)
  }

  function ApprovalTitle(id: int): string {
    "Reserva #" + IntToString(id)
  }

  function ApprovalItemSlot(r: Request, it: RequestItem, actor: Option<int>): Slot
    requires it.resourceId.Some?
  {
    Slot(r.labId, it.resourceId, r.requestedFrom, r.requestedTo, "RESERVADO",
         Some(ApprovalTitle(r.id)), "Recurso reservado", actor)
  }

  predicate ItemOf(id: int, it: RequestItem) {
    it.requestId == id
  }

  /** `SELECT ... FROM request_item WHERE request_id = $1`, in table order. */
  function ItemsOf(id: int, items: seq<RequestItem>): (r: seq<RequestItem>)
    ensures forall k :: 0 <= k < |r| ==> r[k].requestId == id
  {
    Keep(items, it => ItemOf(id, it))
  }

  predicate ItemHasResource(it: RequestItem) {
    TruthyId(it.resourceId)
  }

  /** The slots approval adds for the given items, in item order. */
  function ApprovalItemSlots(r: Request, its: seq<RequestItem>, actor: Option<int>): (out: seq<Slot>)
  {
    if |its| == 0 then []
    else
      ApprovalItemSlots(r, its[..|its| - 1], actor)
      + (if ItemHasResource(its[|its| - 1]) then [ApprovalItemSlot(r, its[|its| - 1], actor)] else [])
  }

  /** One reserved slot per item that names a resource, over the request's window and titled after it. */
  lemma {:induction false} ApprovalItemSlotsShape(r: Request, its: seq<RequestItem>, actor: Option<int>)
    ensures var out := ApprovalItemSlots(r, its, actor);
      |out| == Count(its, ItemHasResource)
      && forall k :: 0 <= k < |out| ==>
           out[k].labId == r.labId && out[k].resourceId.Some? && out[k].status == "RESERVADO"
           && out[k].startsAt == r.requestedFrom && out[k].endsAt == r.requestedTo
           && out[k].title == Some(ApprovalTitle(r.id)) && out[k].reason == "Recurso reservado"
           && out[k].resourceId == Keep(its, ItemHasResource)[k].resourceId && out[k].createdBy == actor
  {
    if |its| > 0 {
      var init := its[..|its| - 1];
      var last := its[|its| - 1];
      assert its == init + [last];
      KeepAppend(init, [last], ItemHasResource);
      ApprovalItemSlotsShape(r, init, actor);
    }
  }

  function ApprovalLabSlot(r: Request, actor: Option<int>): Slot {
    Slot(r.labId, None, r.requestedFrom, r.requestedTo, "RESERVADO", Some(ApprovalTitle(r.id)), "Reserva aprobada", actor)
  }

  /** Approving a request adds its lab slot and one slot per item that names a resource. */
  function ApprovalSlots(r: Request, items: seq<RequestItem>, actor: Option<int>): (out: seq<Slot>)
    ensures |out| == 1 + Count(ItemsOf(r.id, items), ItemHasResource)
    ensures out[0].resourceId.None? && out[0].reason == "Reserva aprobada"
    ensures forall k :: 0 <= k < |out| ==> out[k].startsAt == r.requestedFrom && out[k].endsAt == r.requestedTo
    ensures forall k :: 1 <= k < |out| ==>
      out[k].resourceId == Keep(ItemsOf(r.id, items), ItemHasResource)[k - 1].resourceId
      && out[k].labId == r.labId && out[k].title == Some(ApprovalTitle(r.id))
  {
    var tail := ApprovalItemSlots(r, ItemsOf(r.id, items), actor);
    ApprovalItemSlotsShape(r, ItemsOf(r.id, items), actor);
    var out := [ApprovalLabSlot(r, actor)] + tail;
    assert forall k :: 1 <= k < |out| ==> out[k] == tail[k - 1];
    out
  }

  /** A request as `create` writes it has no requested window, so approving it yields slots without one. */
  lemma ApprovedCreatedRequestHasNoWindow(
    id: int, b: CreateBody, uid: Option<int>, reqs: Requirements, items: seq<RequestItem>, actor: Option<int>)
    requires b.labId.Some?
    ensures var slots := ApprovalSlots(NewRequest(id, b, uid, reqs), items, actor);
            forall k :: 0 <= k < |slots| ==> slots[k].startsAt.None? && slots[k].endsAt.None?
  {
  }

  /** The statuses from which a request may be cancelled. */
  predicate Cancellable(s: Status) {
    s == Pendiente || s == EnRevision || s == NecesitaInfo
  }

  /**
   * The row id `cancel` looks up: `Number(req.params.id)` as PostgreSQL's
   * integer input reads it. `NaN`, which the driver sends as the text `NaN`,
   * is refused with 22P02, so there is no id.
   */
  function CancelKey(pathId: string): (r: Option<int>)
    ensures r.None? <==> StringToNumber(pathId).NaN?
    ensures r.Some? ==> StringToNumber(pathId) == Num(r.value)
  {
    match IntParamOf(StringToNumber(pathId))
    case IntValue(n) => Some(n)
    case _ => None
  }

  /**
   * The ownership check of `cancel`, `r.requester_id && uid && r.requester_id !== uid`:
   * both must be truthy, and the stored number is strictly equal only to the same number.
   */
  predicate CancelForbidden(requesterId: Option<int>, uid: JsValue) {
    TruthyId(requesterId) && Truthy(uid) && uid != Num(requesterId.value)
  }

  /** The `actor_user_id` the history insert stores: `uid` read as an integer, `null` as NULL. */
  function ActorOf(uid: JsValue): (r: Option<int>)
    requires !IntParamOf(uid).BadInteger?
    ensures r.None? <==> Nullish(uid)
    ensures uid.Num? ==> r == Some(uid.n)
  {
    match IntParamOf(uid)
    case IntValue(n) => Some(n)
    case _ => None
  }

  /** The history detail of a cancellation: the object `{ request_id: id }`. */
  function CancelDetail(id: int): (r: JsValue)
    ensures Get(r, "request_id") == Num(id)
  {
    Obj([Member("request_id", Num(id))])
  }

  /** The stored text of the cancellation detail is `{"request_id":<id>}`. */
  lemma CancelDetailText(id: int)
    ensures Stringify(CancelDetail(id)) == Some("{" + Quote("request_id") + ":" + IntToString(id) + "}")
  {
    StringifyOneNumber("request_id", id);
  }

  datatype ReviewOutcome = BadStatus | ReviewNotFound | Updated(row: Request) | ReviewFailed

  function ReviewCode(o: ReviewOutcome): int {
    match o
    case BadStatus => 400
    case ReviewNotFound => 404
    case Updated(_) => 200
    case ReviewFailed => 500
  }

  datatype CancelOutcome = CancelNotFound | CancelForbiddenOutcome | NotCancellable | Cancelled(row: Request) | CancelFailed

  function CancelCode(o: CancelOutcome): int {
    match o
    case CancelNotFound => 404
    case CancelForbiddenOutcome => 403
    case NotCancellable => 400
    case Cancelled(_) => 200
    case CancelFailed => 500
  }

  /**
   * Where a cancellation can fail besides its parameters: the lookup, the
   * update, and the history insert run as three statements outside a
   * transaction.
   */
  datatype CancelFault = NoFault | SelectFails | UpdateFails | HistoryInsertFails

  /** What `setStatus` answers and which tables it rewrites. */
  datatype ReviewEffect = ReviewEffect(out: ReviewOutcome, requests: map<int, Request>, slots: seq<Slot>)

  /**
   * The effect of `setStatus` on the request and slot tables: a bad status
   * (400) or an unknown id (404) change nothing; a failing statement rolls
   * back (500); otherwise the row is rewritten, approval adds the slots, and
   * a failed notification turns the answer into 500 after the commit.
   */
  function ReviewStep(
    requests: map<int, Request>, items: seq<RequestItem>, slots: seq<Slot>,
    id: int, status: string, note: string, actor: Option<int>, dbFails: bool, notifyOk: bool): (e: ReviewEffect)
    ensures ReviewStatus(status).None? ==> e == ReviewEffect(BadStatus, requests, slots)
    ensures ReviewStatus(status).Some? && id !in requests ==> e == ReviewEffect(ReviewNotFound, requests, slots)
    ensures e.out.Updated? <==> ReviewStatus(status).Some? && id in requests && !dbFails && notifyOk
    ensures e.requests.Keys == requests.Keys
    ensures forall k :: k in requests && k != id ==> e.requests[k] == requests[k]
    ensures ReviewStatus(status).Some? && id in requests && !dbFails ==>
              e.requests[id].status == ReviewStatus(status).value
              && e.requests[id].id == requests[id].id
              && (e.out.Updated? ==> e.out.row == e.requests[id])
    ensures e.requests == requests ==> e.slots == slots || ReviewStatus(status) == Some(Aprobada)
    ensures |e.slots| >= |slots| && e.slots[..|slots|] == slots
    ensures |e.slots| > |slots| <==> ReviewStatus(status) == Some(Aprobada) && id in requests && !dbFails
    ensures ReviewStatus(status).Some? && id in requests && dbFails ==> e == ReviewEffect(ReviewFailed, requests, slots)
    ensures ReviewStatus(status).Some? && id in requests && !dbFails ==>
      e.requests == requests[id := ReviewedRow(requests[id], ReviewStatus(status).value, note)]
      && e.slots == slots + (if ReviewStatus(status) == Some(Aprobada) then ApprovalSlots(requests[id], items, actor) else [])
  {
    match ReviewStatus(status)
    case None => ReviewEffect(BadStatus, requests, slots)
    case Some(s) =>
      if id !in requests then ReviewEffect(ReviewNotFound, requests, slots)
      else if dbFails then ReviewEffect(ReviewFailed, requests, slots)
      else
        var up := ReviewedRow(requests[id], s, note);
        var added := if s == Aprobada then ApprovalSlots(requests[id], items, actor) else [];
        ReviewEffect(if notifyOk then Updated(up) else ReviewFailed, requests[id := up], slots + added)
  }

  /** What `cancel` answers and which tables it rewrites. */
  datatype CancelEffect = CancelEffect(out: CancelOutcome, requests: map<int, Request>, history: seq<HistoryRow>)

  /**
   * The effect of `cancel` for the looked-up key `key` (`CancelKey` of the
   * path id) and the caller id `uid`: a refused lookup (500), 404, 403 and
   * 400 change nothing; the status update and the history insert are two
   * separate statements, so a refused insert, for instance of a `uid` that
   * is not an integer, leaves the request cancelled while answering 500.
   */
  function CancelStep(requests: map<int, Request>, history: seq<HistoryRow>, key: Option<int>, uid: JsValue,
                      fault: CancelFault): (e: CancelEffect)
    ensures key.None? || fault == SelectFails ==> e == CancelEffect(CancelFailed, requests, history)
    ensures key.Some? && fault != SelectFails && key.value !in requests ==>
              e == CancelEffect(CancelNotFound, requests, history)
    ensures key.Some? && fault != SelectFails && key.value in requests
            && CancelForbidden(requests[key.value].requesterId, uid) ==>
              e == CancelEffect(CancelForbiddenOutcome, requests, history)
    ensures e.out.Cancelled? <==>
              key.Some? && key.value in requests
              && !CancelForbidden(requests[key.value].requesterId, uid)
              && Cancellable(requests[key.value].status)
              && fault == NoFault && !IntParamOf(uid).BadInteger?
    ensures e.out.Cancelled? ==>
              var id := key.value;
              e.out.row == requests[id].(status := Cancelada)
              && e.requests == requests[id := e.out.row]
              && e.history == history + [HistoryRow(requests[id].labId, ActorOf(uid), "REQUEST_CANCEL", CancelDetail(id))]
    ensures !e.out.Cancelled? ==> e.history == history
    ensures e.requests.Keys == requests.Keys
    ensures forall k :: k in requests && Some(k) != key ==> e.requests[k] == requests[k]
    ensures e.requests != requests ==>
              key.Some? && e.requests == requests[key.value := requests[key.value].(status := Cancelada)]
              && (e.out.Cancelled? || fault == HistoryInsertFails || IntParamOf(uid).BadInteger?)
  {
    match key
    case None => CancelEffect(CancelFailed, requests, history)
    case Some(id) =>
      if fault == SelectFails then CancelEffect(CancelFailed, requests, history)
      else if id !in requests then CancelEffect(CancelNotFound, requests, history)
      else
        var r := requests[id];
        if CancelForbidden(r.requesterId, uid) then CancelEffect(CancelForbiddenOutcome, requests, history)
        else if !Cancellable(r.status) then CancelEffect(NotCancellable, requests, history)
        else
          var done := r.(status := Cancelada);
          match fault
          case UpdateFails => CancelEffect(CancelFailed, requests, history)
          case HistoryInsertFails => CancelEffect(CancelFailed, requests[id := done], history)
          case NoFault =>
            if IntParamOf(uid).BadInteger? then CancelEffect(CancelFailed, requests[id := done], history)
            else
              CancelEffect(Cancelled(done), requests[id := done],
                           history + [HistoryRow(r.labId, ActorOf(uid), "REQUEST_CANCEL", CancelDetail(id))])
  }

  /** Once cancelled, a request cannot be cancelled again. */
  lemma CancelTwice(requests: map<int, Request>, history: seq<HistoryRow>, key: Option<int>, uid: JsValue)
    requires CancelStep(requests, history, key, uid, NoFault).out.Cancelled?
    ensures var e := CancelStep(requests, history, key, uid, NoFault);
            CancelStep(e.requests, e.history, key, uid, NoFault).out == NotCancellable
  {
  }

  /** An approved request can no longer be cancelled by anyone. */
  lemma ApprovedIsNotCancellable(
    requests: map<int, Request>, items: seq<RequestItem>, slots: seq<Slot>, history: seq<HistoryRow>,
    id: int, note: string, actor: Option<int>, notifyOk: bool, uid: JsValue, fault: CancelFault)
    requires id in requests
    ensures var e := ReviewStep(requests, items, slots, id, "APROBADA", note, actor, false, notifyOk);
            !CancelStep(e.requests, history, Some(id), uid, fault).out.Cancelled?
  {
    assert ReviewStatus("APROBADA") == Some(Aprobada);
  }

  /**
   * The owner who sends their id as text in the body, with no token, is
   * refused, as `"7" !== 7`; the same id sent as a number is not.
   */
  lemma TextUserIdIsForbidden(requests: map<int, Request>, history: seq<HistoryRow>, id: int, n: int)
    requires n != 0
    requires id in requests && requests[id].requesterId == Some(n)
    ensures var uid := UserIdFrom(Caller(None, None), Str(IntToString(n)));
            CancelStep(requests, history, Some(id), uid, NoFault) == CancelEffect(CancelForbiddenOutcome, requests, history)
    ensures var uid := UserIdFrom(Caller(None, None), Num(n));
            CancelStep(requests, history, Some(id), uid, NoFault).out != CancelForbiddenOutcome
  {
    assert Truthy(Str(IntToString(n)));
  }

  /**
   * The key of a decimal path id is its number; a path id that is not a
   * whole number (`abc`, `1.5`) has none, so the lookup is refused and
   * `cancel` answers 500 with nothing changed.
   */
  lemma CancelKeyExamples(n: nat)
    ensures CancelKey(NatToString(n)) == Some(n)
    ensures CancelKey("abc") == None
    ensures CancelKey("1.5") == None
  {
    NumberOfPrintedNat(n);
    NoLeadingDigitIsNaN("abc");
    FractionIsNaN("1.5");
  }

  const MessageSenders: set<string> := {"USUARIO", "ENCARGADO"}

  /** The validation of `addMessage`: a known sender and a message that is not blank. */
  function MessageText(sender: string, message: Option<string>): (r: Option<string>)
    ensures r.Some? <==> sender in MessageSenders && message.Some? && Trim(message.value) != ""
    ensures r.Some? ==> r.value == Trim(message.value) && |r.value| > 0
                        && !IsWs(r.value[0]) && !IsWs(r.value[|r.value| - 1])
  {
    if sender in MessageSenders && message.Some? && Trim(message.value) != "" then Some(Trim(message.value)) else None
  }

  /** The `requirements_ok` filter of `list`: only a single query value is read, as `=== 'true'`. */
  function RequirementsOkFilter(q: JsValue): (r: Option<bool>)
    ensures r.Some? <==> q.Str?
    ensures r == Some(true) <==> q == Str("true")
  {
    if q.Str? then Some(q.s == "true") else None
  }

  /** The `lab_id` and `type_id` filters of `list`: `Number(v)` when truthy, absent otherwise. */
  function NumericFilter(q: JsValue): (r: Option<JsValue>)
    ensures r.None? <==> !Truthy(q)
    ensures r.Some? ==> r.value.Num? || r.value.NaN?
  {
    if Truthy(q) then Some(ToNumber(q)) else None
  }

  // ---------------------------------------------------------------------
  // The insert loops
  // ---------------------------------------------------------------------

  /** The `request_item` insert loop of `create`. */
  method BuildItemRows(requestId: int, items: seq<ItemIn>, resources: map<int, Resource>, start: int, end: int)
    returns (rows: seq<RequestItem>)
    ensures rows == ItemRows(requestId, items, resources, start, end)
  {
    rows := [];
    var i := 0;
    while i < |items|
      invariant 0 <= i <= |items|
      invariant rows == ItemRows(requestId, items[..i], resources, start, end)
    {
      var it := items[i];
      var itemType := "LAB_SPACE";
      if HasResource(it) && it.resourceId.value in resources {
        itemType := resources[it.resourceId.value].rtype;
      }
      var rid := if HasResource(it) then it.resourceId else None;
      rows := rows + [RequestItem(requestId, rid, itemType, QtyOrOne(it.qty), start, end)];
      assert ItemRows(requestId, items[..i + 1], resources, start, end)
          == ItemRows(requestId, items[..i], resources, start, end) + [ItemRow(requestId, it, resources, start, end)];
      i := i + 1;
    }
    assert items[..|items|] == items;
  }

  /** The `calendar_slot` inserts of `create`: the lab first, then each item with a resource. */
  method BuildCreatedSlots(b: CreateBody, uid: Option<int>) returns (ss: seq<Slot>)
    requires b.labId.Some? && b.startsAt.At? && b.endsAt.At?
    ensures ss == CreatedSlots(b, uid)
  {
    var lab, start, end, reason := b.labId.value, b.startsAt.ms, b.endsAt.ms, SlotReason(b);
    var acc: seq<Slot> := [];
    var i := 0;
    while i < |b.items|
      invariant 0 <= i <= |b.items|
      invariant acc == ItemSlots(lab, b.items[..i], start, end, reason, uid)
    {
      var it := b.items[i];
      ItemSlotsSnoc(lab, b.items, i, start, end, reason, uid);
      if HasResource(it) {
        acc := acc + [ResourceSlot(lab, it.resourceId.value, start, end, reason, uid)];
      }
      i := i + 1;
    }
    assert b.items[..|b.items|] == b.items;
    ss := [Slot(lab, None, Some(start), Some(end), "RESERVADO", None, reason, uid)] + acc;
  }

  lemma ItemSlotsSnoc(labId: int, items: seq<ItemIn>, i: nat, start: int, end: int, reason: string, uid: Option<int>)
    requires i < |items|
    ensures ItemSlots(labId, items[..i + 1], start, end, reason, uid) == ItemSlots(labId, items[..i], start, end, reason, uid)
      + (if HasResource(items[i]) then [ResourceSlot(labId, items[i].resourceId.value, start, end, reason, uid)] else [])
  {
    assert items[..i + 1][..i] == items[..i];
  }

  lemma ApprovalItemSlotsSnoc(r: Request, its: seq<RequestItem>, i: nat, actor: Option<int>)
    requires i < |its|
    ensures ApprovalItemSlots(r, its[..i + 1], actor) == ApprovalItemSlots(r, its[..i], actor)
      + (if ItemHasResource(its[i]) then [ApprovalItemSlot(r, its[i], actor)] else [])
  {
    assert its[..i + 1][..i] == its[..i];
  }

  /** The `calendar_slot` inserts of an approval. */
  method BuildApprovalSlots(r: Request, items: seq<RequestItem>, actor: Option<int>) returns (ss: seq<Slot>)
    ensures ss == ApprovalSlots(r, items, actor)
  {
    var its := ItemsOf(r.id, items);
    var acc: seq<Slot> := [];
    var i := 0;
    while i < |its|
      invariant 0 <= i <= |its|
      invariant acc == ApprovalItemSlots(r, its[..i], actor)
    {
      ApprovalItemSlotsSnoc(r, its, i, actor);
      if ItemHasResource(its[i]) {
        acc := acc + [ApprovalItemSlot(r, its[i], actor)];
      }
      i := i + 1;
    }
    assert its[..|its|] == its;
    ss := [ApprovalLabSlot(r, actor)] + acc;
  }

  // ---------------------------------------------------------------------
  // The tables
  // ---------------------------------------------------------------------

  /**
   * Every request is stored under its own id, which the sequence has already
   * handed out, and every item belongs to a stored request.
   */
  ghost predicate TablesValid(requests: map<int, Request>, items: seq<RequestItem>, nextId: int) {
    (forall k :: k in requests ==> requests[k].id == k && k < nextId)
    && (forall i :: 0 <= i < |items| ==> items[i].requestId in requests)
  }

  /** Rewriting a stored request without changing its id keeps the tables valid. */
  lemma UpdateKeepsValid(requests: map<int, Request>, items: seq<RequestItem>, nextId: int, r: Request)
    requires TablesValid(requests, items, nextId)
    requires r.id in requests
    ensures TablesValid(requests[r.id := r], items, nextId)
  {
    assert requests[r.id := r].Keys == requests.Keys;
  }

  /** Storing a request under the next id, with items of its own, keeps the tables valid. */
  lemma InsertKeepsValid(requests: map<int, Request>, items: seq<RequestItem>, nextId: int,
                         r: Request, added: seq<RequestItem>)
    requires TablesValid(requests, items, nextId)
    requires r.id == nextId
    requires forall i :: 0 <= i < |added| ==> added[i].requestId == nextId
    ensures TablesValid(requests[nextId := r], items + added, nextId + 1)
  {
    var rs := requests[nextId := r];
    var its := items + added;
    forall i | 0 <= i < |its|
      ensures its[i].requestId in rs
    {
      if i < |items| { assert its[i] == items[i]; } else { assert its[i] == added[i - |items|]; }
    }
  }

  class ReservationDb {
    var labs: map<int, Lab>
    var resources: map<int, Resource>
    var requests: map<int, Request>
    var items: seq<RequestItem>
    var slots: seq<Slot>
    var history: seq<HistoryRow>
    var messages: seq<Message>
    /** The next value of the `request.id` sequence. */
    var nextId: int

    ghost predicate Valid()
      reads this
    {
      TablesValid(requests, items, nextId)
    }

    constructor (labs: map<int, Lab>, resources: map<int, Resource>)
      ensures Valid()
      ensures this.labs == labs && this.resources == resources
      ensures requests == map[] && items == [] && slots == [] && history == [] && messages == []
    {
      this.labs := labs;
      this.resources := resources;
      requests := map[];
      items := [];
      slots := [];
      history := [];
      messages := [];
      nextId := 1;
    }

    /**
     * `create`: the guard chain, then one transaction writing the request,
     * its items and its slots. An oracle that rejects (`oracleFails`)
     * turns what the guards after it would decide into status 500; a
     * failing statement inside the transaction (`dbFails`) rolls
     * everything back and is answered 500 too.
     */
    method Create(
      b: CreateBody, caller: Caller, now: int,
      checkAvailability: (int, seq<int>, int, int) -> Availability,
      requirementsOk: (int, int) -> Requirements,
      oracleFails: bool, dbFails: bool) returns (out: CreateOutcome)
      requires Valid()
      modifies this
      ensures Valid()
      ensures var uid := CreateUid(b, caller);
              var v := Admission(b, uid, now, old(labs), old(resources), checkAvailability, requirementsOk);
              if v.Refuse? && !(oracleFails && v.out.Conflict?) then out == v.out && unchanged(this)
              else if oracleFails || dbFails then out == ServerError && unchanged(this)
              else
                var req := NewRequest(old(nextId), b, uid, v.reqs);
                out == Created(req, Validation(v.avail.ok, v.avail.conflicts, v.reqs.ok, v.reqs.missing))
                && requests == old(requests)[old(nextId) := req]
                && nextId == old(nextId) + 1
                && items == old(items) + ItemRows(old(nextId), b.items, old(resources), b.startsAt.ms, b.endsAt.ms)
                && slots == old(slots) + CreatedSlots(b, uid)
                && labs == old(labs) && resources == old(resources)
                && history == old(history) && messages == old(messages)
    {
      var uid := CreateUid(b, caller);
      var v := Admission(b, uid, now, labs, resources, checkAvailability, requirementsOk);
      if v.Refuse? && !(oracleFails && v.out.Conflict?) {
        return v.out;
      }
      if oracleFails || dbFails {
        return ServerError;
      }
      var id := nextId;
      var req := NewRequest(id, b, uid, v.reqs);
      var newItems := BuildItemRows(id, b.items, resources, b.startsAt.ms, b.endsAt.ms);
      var newSlots := BuildCreatedSlots(b, uid);
      Insert(req, newItems, newSlots);
      out := Created(req, Validation(v.avail.ok, v.avail.conflicts, v.reqs.ok, v.reqs.missing));
    }

    /** The committed transaction of `create`: the request row, its items and its slots. */
    method Insert(req: Request, newItems: seq<RequestItem>, newSlots: seq<Slot>)
      requires Valid()
      requires req.id == nextId
      requires forall i :: 0 <= i < |newItems| ==> newItems[i].requestId == nextId
      modifies this
      ensures Valid()
      ensures requests == old(requests)[old(nextId) := req] && nextId == old(nextId) + 1
      ensures items == old(items) + newItems && slots == old(slots) + newSlots
      ensures labs == old(labs) && resources == old(resources)
      ensures history == old(history) && messages == old(messages)
    {
      InsertKeepsValid(requests, items, nextId, req, newItems);
      requests := requests[nextId := req];
      nextId := nextId + 1;
      items := items + newItems;
      slots := slots + newSlots;
    }

    /**
     * `setStatus`: any of the three review statuses, whatever the current one.
     * The update (and, on approval, the slots) are committed before the
     * notification is sent; a failed notification still answers 500.
     */
    method SetStatus(id: int, status: string, note: string, actor: Option<int>, dbFails: bool, notifyOk: bool)
      returns (out: ReviewOutcome)
      requires Valid()
      modifies this
      ensures Valid()
      ensures ReviewEffect(out, requests, slots)
              == ReviewStep(old(requests), old(items), old(slots), id, status, note, actor, dbFails, notifyOk)
      ensures labs == old(labs) && resources == old(resources) && items == old(items)
      ensures history == old(history) && messages == old(messages) && nextId == old(nextId)
    {
      var s := ReviewStatus(status);
      if s.None? {
        return BadStatus;
      }
      if id !in requests {
        return ReviewNotFound;
      }
      if dbFails {
        return ReviewFailed;
      }
      var r := requests[id];
      var up := ReviewedRow(r, s.value, note);
      var added: seq<Slot> := [];
      if s.value == Aprobada {
        added := BuildApprovalSlots(r, items, actor);
      }
      Rewrite(up, added);
      out := if notifyOk then Updated(up) else ReviewFailed;
    }

    /** Stores a new version of a request under its id and appends slots. */
    method Rewrite(up: Request, added: seq<Slot>)
      requires Valid()
      requires up.id in requests
      modifies this
      ensures Valid()
      ensures requests == old(requests)[up.id := up] && slots == old(slots) + added
      ensures labs == old(labs) && resources == old(resources) && items == old(items)
      ensures history == old(history) && messages == old(messages) && nextId == old(nextId)
    {
      UpdateKeepsValid(requests, items, nextId, up);
      requests := requests[up.id := up];
      slots := slots + added;
    }

    /**
     * `cancel`: the owner (or a caller or request without an id) may cancel a
     * request that is still pending, in review or waiting for information.
     * Slots are not touched.
     */
    method Cancel(pathId: string, caller: Caller, bodyUserId: JsValue, fault: CancelFault) returns (out: CancelOutcome)
      requires Valid()
      modifies this
      ensures Valid()
      ensures CancelEffect(out, requests, history)
              == CancelStep(old(requests), old(history), CancelKey(pathId), UserIdFrom(caller, bodyUserId), fault)
      ensures slots == old(slots) && items == old(items) && labs == old(labs) && resources == old(resources)
      ensures messages == old(messages) && nextId == old(nextId)
    {
      var key := CancelKey(pathId);
      var uid := UserIdFrom(caller, bodyUserId);
      if key.None? || fault == SelectFails {
        return CancelFailed;
      }
      var id := key.value;
      if id !in requests {
        return CancelNotFound;
      }
      var r := requests[id];
      if CancelForbidden(r.requesterId, uid) {
        return CancelForbiddenOutcome;
      }
      if !Cancellable(r.status) {
        return NotCancellable;
      }
      if fault == UpdateFails {
        return CancelFailed;
      }
      var done := r.(status := Cancelada);
      Rewrite(done, []);
      if fault == HistoryInsertFails || IntParamOf(uid).BadInteger? {
        return CancelFailed;
      }
      history := history + [HistoryRow(r.labId, ActorOf(uid), "REQUEST_CANCEL", CancelDetail(id))];
      out := Cancelled(done);
    }

    /** `addMessage`: appends the trimmed message, or refuses with 400. */
    method AddMessage(id: int, sender: string, message: Option<string>) returns (ok: bool)
      modifies this
      ensures ok <==> MessageText(sender, message).Some?
      ensures ok ==> messages == old(messages) + [Message(id, sender, MessageText(sender, message).value)]
      ensures !ok ==> messages == old(messages)
      ensures requests == old(requests) && items == old(items) && slots == old(slots) && history == old(history)
      ensures labs == old(labs) && resources == old(resources) && nextId == old(nextId)
    {
      var text := MessageText(sender, message);
      ok := text.Some?;
      if ok {
        messages := messages + [Message(id, sender, text.value)];
      }
    }

    /** `listMessages`: the messages of one request, oldest first. */
    function ListMessages(id: int): (r: seq<Message>)
      reads this
      ensures IsSubseq(r, messages)
      ensures forall k :: 0 <= k < |r| ==> r[k].requestId == id
      ensures forall k :: 0 <= k < |messages| && messages[k].requestId == id ==> messages[k] in r
      ensures forall m :: multiset(r)[m] == if m.requestId == id then multiset(messages)[m] else 0
    {
      KeepIsSubseq(messages, (m: Message) => m.requestId == id);
      KeepMultiset(messages, (m: Message) => m.requestId == id);
      Keep(messages, (m: Message) => m.requestId == id)
    }
  }
}
