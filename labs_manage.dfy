/**
 * The lab-management page apart from its policy texts: the stock badge of a
 * consumable and the stock filter, the guards of the save forms, the hours
 * and capacity payload of `savePolicies`, and the list filters over the
 * page's lists of history entries, fixed resources and consumables.
 *
 * Quantities are already parsed numbers (`real`); a date picker value is a
 * day number, the instant of its midnight being `day * MsPerDay`.
 */
module LabsManage {
  import opened Wrappers
  import opened Text
  import opened Seqs
  import opened Js

  const MsPerDay := 86_400_000
  /** `toDate.setHours(23, 59, 59)` on a midnight: 23:59:59.000 of that day. */
  const EndOfDayMs := 86_399_000

  // ===== Stock =====

  /**
   * A consumable row. `qtyAvailable` and `quantity` are the two names the
   * quantity goes by; `None` is a missing value.
   */
  datatype Consumable = Consumable(name: string, qtyAvailable: Option<real>, quantity: Option<real>,
                                   reorderPoint: Option<real>)

  /** `x || y` over optional numbers: absent and `0` are falsy. */
  function NumOr(x: Option<real>, y: real): (r: real)
    ensures x.Some? && x.value != 0.0 ==> r == x.value
    ensures (x.None? || x.value == 0.0) ==> r == y
  {
    if x.Some? && x.value != 0.0 then x.value else y
  }

  /** `parseFloat(c.qty_available || c.quantity || 0)`. */
  function QuantityOf(c: Consumable): real {
    NumOr(c.qtyAvailable, NumOr(c.quantity, 0.0))
  }

  /** `parseFloat(c.reorder_point || 0)`. */
  function ReorderOf(c: Consumable): real {
    NumOr(c.reorderPoint, 0.0)
  }

  datatype Stock = Out | Low | Normal

  /** The badge of the consumables table: out at zero, low up to the reorder point, normal above it. */
  function StockBadge(quantity: real, reorder: real): (s: Stock)
    ensures s == Out <==> quantity == 0.0
    ensures s == Low <==> quantity != 0.0 && quantity <= reorder
    ensures s == Normal <==> quantity != 0.0 && quantity > reorder
  {
    if quantity == 0.0 then Out
    else if quantity <= reorder then Low
    else Normal
  }

  function StockText(s: Stock): string {
    match s
    case Out => "Agotado"
    case Low => "Bajo Stock"
    case Normal => "Normal"
  }

  function StockClass(s: Stock): string {
    match s
    case Out => "badge-error"
    case Low => "badge-warning"
    case Normal => "badge-success"
  }

  /** The stock test of `filterConsumables` for the selected value; an unknown value keeps everything. */
  predicate StockFilter(status: string, quantity: real, reorder: real) {
    if status == "out" then quantity == 0.0
    else if status == "low" then quantity > 0.0 && quantity <= reorder
    else if status == "normal" then quantity > reorder
    else true
  }

  function StockKey(s: Stock): string {
    match s
    case Out => "out"
    case Low => "low"
    case Normal => "normal"
  }

  /**
   * For non-negative numbers exactly one of the three stock filters keeps a
   * consumable, and it is the one named after its badge.
   */
  lemma StockFilterMatchesBadge(quantity: real, reorder: real)
    requires quantity >= 0.0 && reorder >= 0.0
    ensures forall s: Stock :: StockFilter(StockKey(s), quantity, reorder) <==> s == StockBadge(quantity, reorder)
  {
    forall s: Stock
      ensures StockFilter(StockKey(s), quantity, reorder) <==> s == StockBadge(quantity, reorder)
    {
      match s
      case Out =>
      case Low =>
      case Normal =>
    }
  }

  /** With a negative reorder point an empty item is both out and "normal". */
  lemma NegativeReorderBreaksFilter()
    ensures StockBadge(0.0, -1.0) == Out
    ensures StockFilter("out", 0.0, -1.0) && StockFilter("normal", 0.0, -1.0)
  {
  }

  /** What `filterConsumables` keeps for one consumable: the stock test and a name search. */
  predicate ConsumableMatches(status: string, search: string, c: Consumable) {
    (status == "" || StockFilter(status, QuantityOf(c), ReorderOf(c)))
    && (search == "" || Contains(Lower(c.name), Lower(search)))
  }

  // ===== Form guards =====

  datatype Verb = Post | Put

  /** `contactId ? 'PUT' : 'POST'` for a form's hidden id field. */
  function VerbFor(id: string): (v: Verb)
    ensures v == Put <==> id != ""
  {
    if id != "" then Put else Post
  }

  /** The contact form's fields (`Object.fromEntries(formData)`; a blank input is `""`). */
  datatype ContactForm = ContactForm(id: string, name: string, position: string, phone: string, email: string)

  /** What the contacts endpoint is sent: the position goes as `role`, an empty phone as `null`. */
  datatype ContactPayload = ContactPayload(name: string, role: string, phone: Option<string>, email: string)

  datatype Submit<P> = Rejected(message: string) | Send(verb: Verb, payload: P)

  const ErrRequired := "Por favor completa todos los campos obligatorios"
  const ErrInstitutional := "El correo debe ser institucional del TEC (@tec.ac.cr o @estudiantec.cr)"
  const ErrNegative := "Las cantidades no pueden ser negativas"

  /** `email.match(/@(tec\.ac\.cr|estudiantec\.cr)$/)`. */
  predicate InstitutionalEmail(email: string) {
    EndsWith(email, "@tec.ac.cr") || EndsWith(email, "@estudiantec.cr")
  }

  function SaveContact(f: ContactForm): (r: Submit<ContactPayload>)
    ensures r.Send? <==> f.name != "" && f.position != "" && f.email != "" && InstitutionalEmail(f.email)
    ensures r.Send? ==> r.payload == ContactPayload(f.name, f.position, if f.phone == "" then None else Some(f.phone), f.email)
                        && r.verb == VerbFor(f.id)
    ensures r.Rejected? && (f.name == "" || f.position == "" || f.email == "") ==> r.message == ErrRequired
  {
    if f.name == "" || f.position == "" || f.email == "" then Rejected(ErrRequired)
    else if !InstitutionalEmail(f.email) then Rejected(ErrInstitutional)
    else Send(VerbFor(f.id), ContactPayload(f.name, f.position, if f.phone == "" then None else Some(f.phone), f.email))
  }

  /** A look-alike domain does not pass: the address must end with `@` and the domain. */
  lemma ContactDomainIsAnchored()
    ensures !InstitutionalEmail("ana@notec.ac.cr.com")
    ensures InstitutionalEmail("ana@estudiantec.cr")
  {
    assert "ana@estudiantec.cr"[3..] == "@estudiantec.cr";
  }

  /** The consumable form's fields, sent as they are once they pass. */
  datatype ConsumableForm = ConsumableForm(id: string, name: string, quantity: string, unit: string, reorderPoint: string)

  /** `parseFloat(x) < 0`; `NaN < 0` is false. */
  predicate NegativeNumber(x: string) {
    ParseFloatSign(x) == FNegative
  }

  function SaveConsumable(f: ConsumableForm): (r: Submit<ConsumableForm>)
    ensures r.Send? <==> f.name != "" && f.quantity != "" && f.unit != "" && f.reorderPoint != ""
                         && !NegativeNumber(f.quantity) && !NegativeNumber(f.reorderPoint)
    ensures r.Send? ==> r.payload == f && r.verb == VerbFor(f.id)
    ensures r.Rejected? && f.name != "" && f.quantity != "" && f.unit != "" && f.reorderPoint != "" ==>
              r.message == ErrNegative
  {
    if f.name == "" || f.quantity == "" || f.unit == "" || f.reorderPoint == "" then Rejected(ErrRequired)
    else if NegativeNumber(f.quantity) || NegativeNumber(f.reorderPoint) then Rejected(ErrNegative)
    else Send(VerbFor(f.id), f)
  }

  /** A quantity without a minus sign is never rejected as negative. */
  lemma NoMinusNotNegative(x: string)
    requires forall i :: 0 <= i < |x| ==> x[i] != '-'
    ensures !NegativeNumber(x)
  {
  }

  /** The lab profile form: name, code, location and department are required. */
  datatype ProfileForm = ProfileForm(name: string, code: string, location: string, departmentId: string)

  function SaveLabProfile(f: ProfileForm): (r: Submit<ProfileForm>)
    ensures r.Send? <==> f.name != "" && f.code != "" && f.location != "" && f.departmentId != ""
    ensures r.Send? ==> r.verb == Put && r.payload == f
  {
    if f.name == "" || f.code == "" || f.location == "" || f.departmentId == "" then Rejected(ErrRequired)
    else Send(Put, f)
  }

  /** The fixed-resource form: inventory code, name and status are required. */
  datatype FixedForm = FixedForm(id: string, inventoryCode: string, name: string, status: string)

  function SaveFixedResource(f: FixedForm): (r: Submit<FixedForm>)
    ensures r.Send? <==> f.inventoryCode != "" && f.name != "" && f.status != ""
    ensures r.Send? ==> r.verb == VerbFor(f.id) && r.payload == f
  {
    if f.inventoryCode == "" || f.name == "" || f.status == "" then Rejected(ErrRequired)
    else Send(VerbFor(f.id), f)
  }

  // ===== Hours and capacity =====

  datatype HoursEntry = HoursEntry(dayOfWeek: string, opens: string, closes: string)

  /** One entry per checked day, in the order of the checkboxes, all with the same times. */
  function HoursPayload(days: seq<string>, opening: string, closing: string): (r: seq<HoursEntry>)
    ensures |r| == |days|
    ensures forall i :: 0 <= i < |r| ==> r[i].dayOfWeek == days[i]
    ensures forall i :: 0 <= i < |r| ==> r[i].opens == (if opening == "" then "08:00" else opening)
    ensures forall i :: 0 <= i < |r| ==> r[i].closes == (if closing == "" then "17:00" else closing)
  {
    var o := if opening == "" then "08:00" else opening;
    var c := if closing == "" then "17:00" else closing;
    seq(|days|, i requires 0 <= i < |days| => HoursEntry(days[i], o, c))
  }

  /** `parseInt(formData.get('max_capacity')) || 1`. */
  function CapacityMax(text: string): (r: int)
    ensures r != 0
    ensures ParseInt(text).Num? && ParseInt(text).n != 0 ==> r == ParseInt(text).n
    ensures ParseInt(text).NaN? ==> r == 1
  {
    match ParseInt(text)
    case Num(n) => if n != 0 then n else 1
    case _ => 1
  }

  /** A capacity typed as a positive number is kept; an empty field becomes 1. */
  lemma CapacityExamples(n: nat)
    requires n > 0
    ensures CapacityMax(NatToString(n)) == n
    ensures CapacityMax("") == 1
  {
    ParseIntOfPrinted(n);
  }

  // ===== Status classes =====

  /** `getStatusClass`: the three known fixed-resource states, anything else `badge-secondary`. */
  function StatusClass(status: string): (r: string)
    ensures status !in {"Disponible", "En mantenimiento", "Inactivo"} ==> r == "badge-secondary"
    ensures status == "Disponible" ==> r == "badge-success"
    ensures status == "En mantenimiento" ==> r == "badge-warning"
    ensures status == "Inactivo" ==> r == "badge-error"
  {
    if status == "Disponible" then "badge-success"
    else if status == "En mantenimiento" then "badge-warning"
    else if status == "Inactivo" then "badge-error"
    else "badge-secondary"
  }

  // ===== History and fixed-resource filters =====

  /**
   * A history entry: `createdAt`/`date` are the instants of `created_at`
   * and `date` (`None` when absent or not a date); missing texts are `""`.
   */
  datatype HistoryEntry = HistoryEntry(createdAt: Option<int>, date: Option<int>, action: string,
                                       userName: string, user: string)

  /** `new Date(h.created_at || h.date)`: `None` is an invalid date, which fails every comparison. */
  function EntryTime(h: HistoryEntry): Option<int> {
    if h.createdAt.Some? then h.createdAt else h.date
  }

  /** `h.user_name || h.user || ''`. */
  function EntryUser(h: HistoryEntry): string {
    if h.userName != "" then h.userName else h.user
  }

  /** The four filter inputs; `None`/`""` is an empty input. */
  datatype HistoryFilter = HistoryFilter(dateFrom: Option<int>, dateTo: Option<int>, action: string, user: string)

  predicate FromOk(f: HistoryFilter, h: HistoryEntry) {
    f.dateFrom.None? || (EntryTime(h).Some? && EntryTime(h).value >= f.dateFrom.value * MsPerDay)
  }

  predicate ToOk(f: HistoryFilter, h: HistoryEntry) {
    f.dateTo.None? || (EntryTime(h).Some? && EntryTime(h).value <= f.dateTo.value * MsPerDay + EndOfDayMs)
  }

  predicate ActionOk(f: HistoryFilter, h: HistoryEntry) {
    f.action == "" || Contains(h.action, f.action)
  }

  predicate UserOk(f: HistoryFilter, h: HistoryEntry) {
    Lower(f.user) == "" || Contains(Lower(EntryUser(h)), Lower(f.user))
  }

  /** What `filterHistory` keeps: every filter that is set passes. */
  predicate HistoryMatches(f: HistoryFilter, h: HistoryEntry) {
    FromOk(f, h) && ToOk(f, h) && ActionOk(f, h) && UserOk(f, h)
  }

  predicate NoHistoryFilter(f: HistoryFilter) {
    f.dateFrom.None? && f.dateTo.None? && f.action == "" && f.user == ""
  }

  /** The last instant that `dateTo` lets through is 23:59:59 of that day. */
  lemma DateToBoundary(f: HistoryFilter, h: HistoryEntry)
    requires f.dateTo.Some? && EntryTime(h).Some?
    ensures EntryTime(h).value == f.dateTo.value * MsPerDay + EndOfDayMs ==> ToOk(f, h)
    ensures EntryTime(h).value > f.dateTo.value * MsPerDay + EndOfDayMs ==> !ToOk(f, h)
    ensures EntryTime(h).value == (f.dateTo.value + 1) * MsPerDay ==> !ToOk(f, h)
  {
  }

  /** The user filter ignores letter case on both sides. */
  lemma UserFilterIgnoresCase(f: HistoryFilter, h: HistoryEntry)
    ensures UserOk(f, h) == UserOk(f.(user := Lower(f.user)), h.(userName := Lower(h.userName), user := Lower(h.user)))
  {
    LowerIdempotent(f.user);
    LowerIdempotent(h.userName);
    LowerIdempotent(h.user);
    assert Lower(h.userName) == "" <==> h.userName == "";
    assert EntryUser(h.(userName := Lower(h.userName), user := Lower(h.user))) == Lower(EntryUser(h));
  }

  // The filters of `filterHistory` in the order it applies them: each step
  // narrows the list kept by the steps before it.

  predicate UpToTo(f: HistoryFilter, h: HistoryEntry) { FromOk(f, h) && ToOk(f, h) }

  predicate UpToAction(f: HistoryFilter, h: HistoryEntry) { UpToTo(f, h) && ActionOk(f, h) }

  lemma FromStep(s: seq<HistoryEntry>, f: HistoryFilter)
    ensures f.dateFrom.None? ==> Keep(s, h => FromOk(f, h)) == s
  {
    if f.dateFrom.None? {
      KeepAll(s, h => FromOk(f, h));
    }
  }

  lemma ToStep(s: seq<HistoryEntry>, f: HistoryFilter)
    ensures Keep(Keep(s, h => FromOk(f, h)), h => ToOk(f, h)) == Keep(s, h => UpToTo(f, h))
    ensures f.dateTo.None? ==> Keep(s, h => FromOk(f, h)) == Keep(s, h => UpToTo(f, h))
  {
    KeepThen(s, h => FromOk(f, h), h => ToOk(f, h), h => UpToTo(f, h));
    if f.dateTo.None? {
      KeepExt(s, h => FromOk(f, h), h => UpToTo(f, h));
    }
  }

  lemma ActionStep(s: seq<HistoryEntry>, f: HistoryFilter)
    ensures Keep(Keep(s, h => UpToTo(f, h)), h => ActionOk(f, h)) == Keep(s, h => UpToAction(f, h))
    ensures f.action == "" ==> Keep(s, h => UpToTo(f, h)) == Keep(s, h => UpToAction(f, h))
  {
    KeepThen(s, h => UpToTo(f, h), h => ActionOk(f, h), h => UpToAction(f, h));
    if f.action == "" {
      KeepExt(s, h => UpToTo(f, h), h => UpToAction(f, h));
    }
  }

  lemma UserStep(s: seq<HistoryEntry>, f: HistoryFilter)
    ensures Lower(f.user) != "" ==>
      Keep(Keep(s, h => UpToAction(f, h)), h => Contains(Lower(EntryUser(h)), Lower(f.user)))
      == Keep(s, h => HistoryMatches(f, h))
    ensures Lower(f.user) == "" ==> Keep(s, h => UpToAction(f, h)) == Keep(s, h => HistoryMatches(f, h))
  {
    if Lower(f.user) != "" {
      KeepThen(s, h => UpToAction(f, h), h => Contains(Lower(EntryUser(h)), Lower(f.user)), h => HistoryMatches(f, h));
    } else {
      KeepExt(s, h => UpToAction(f, h), h => HistoryMatches(f, h));
    }
  }

  /** The history filter keeps an order-preserving part of the list, all of it when no filter is set. */
  lemma HistoryFilterShape(history: seq<HistoryEntry>, f: HistoryFilter)
    ensures IsSubseq(Keep(history, h => HistoryMatches(f, h)), history)
    ensures NoHistoryFilter(f) ==> Keep(history, h => HistoryMatches(f, h)) == history
  {
    KeepIsSubseq(history, h => HistoryMatches(f, h));
    if NoHistoryFilter(f) {
      KeepAll(history, h => HistoryMatches(f, h));
    }
  }

  /** A fixed resource row; missing texts are `""`. */
  datatype FixedResource = FixedResource(id: int, inventoryCode: string, name: string, status: string)

  /** What `filterFixedResources` keeps: the exact status and a search on code or name. */
  predicate FixedMatches(status: string, search: string, r: FixedResource) {
    (status == "" || r.status == status)
    && (Lower(search) == "" || Contains(Lower(r.inventoryCode), Lower(search)) || Contains(Lower(r.name), Lower(search)))
  }

  /**
   * The page's lists, loaded from the lab's endpoints and read by the
   * filters.
   */
  class LabPage {
    var contacts: seq<ContactPayload>
    var fixedResources: seq<FixedResource>
    var consumables: seq<Consumable>
    var history: seq<HistoryEntry>

    constructor ()
      ensures contacts == [] && fixedResources == [] && consumables == [] && history == []
    {
      contacts := [];
      fixedResources := [];
      consumables := [];
      history := [];
    }

    /** `filterHistory`: each filter that is set narrows the list once, in the order of the form. */
    method FilterHistory(f: HistoryFilter) returns (filtered: seq<HistoryEntry>)
      ensures filtered == Keep(history, h => HistoryMatches(f, h))
      ensures NoHistoryFilter(f) ==> filtered == history
    {
      var user := Lower(f.user);
      filtered := history;
      FromStep(history, f);
      if f.dateFrom.Some? {
        filtered := Keep(filtered, h => FromOk(f, h));
      }
      ToStep(history, f);
      if f.dateTo.Some? {
        filtered := Keep(filtered, h => ToOk(f, h));
      }
      ActionStep(history, f);
      if f.action != "" {
        filtered := Keep(filtered, h => ActionOk(f, h));
      }
      UserStep(history, f);
      if user != "" {
        filtered := Keep(filtered, h => Contains(Lower(EntryUser(h)), user));
      }
      if NoHistoryFilter(f) {
        KeepAll(history, h => HistoryMatches(f, h));
      }
    }

    /** `filterFixedResources`: the status filter, then the search. */
    method FilterFixedResources(status: string, searchInput: string) returns (filtered: seq<FixedResource>)
      ensures filtered == Keep(fixedResources, r => FixedMatches(status, searchInput, r))
      ensures IsSubseq(filtered, fixedResources)
      ensures status == "" && searchInput == "" ==> filtered == fixedResources
    {
      var search := Lower(searchInput);
      filtered := fixedResources;
      ghost var p: FixedResource -> bool := r => true;
      KeepAll(fixedResources, p);
      if status != "" {
        var q := (r: FixedResource) => r.status == status;
        ghost var p2: FixedResource -> bool := r => p(r) && r.status == status;
        KeepThen(fixedResources, p, q, p2);
        filtered := Keep(filtered, q);
        p := p2;
      }
      if search != "" {
        var q := (r: FixedResource) => Contains(Lower(r.inventoryCode), search) || Contains(Lower(r.name), search);
        ghost var p2: FixedResource -> bool := r => p(r) && q(r);
        KeepThen(fixedResources, p, q, p2);
        filtered := Keep(filtered, q);
        p := p2;
      }
      var spec := r => FixedMatches(status, searchInput, r);
      KeepExt(fixedResources, p, spec);
      KeepIsSubseq(fixedResources, spec);
      if status == "" && searchInput == "" {
        KeepAll(fixedResources, spec);
      }
    }

    /** `filterConsumables`: the stock filter, then the name search. */
    method FilterConsumables(status: string, searchInput: string) returns (filtered: seq<Consumable>)
      ensures filtered == Keep(consumables, c => ConsumableMatches(status, searchInput, c))
      ensures IsSubseq(filtered, consumables)
    {
      var search := Lower(searchInput);
      filtered := consumables;
      ghost var p: Consumable -> bool := c => true;
      KeepAll(consumables, p);
      if status != "" {
        var q := c => StockFilter(status, QuantityOf(c), ReorderOf(c));
        ghost var p2: Consumable -> bool := c => p(c) && q(c);
        KeepThen(consumables, p, q, p2);
        filtered := Keep(filtered, q);
        p := p2;
      }
      if search != "" {
        var q := (c: Consumable) => Contains(Lower(c.name), search);
        ghost var p2: Consumable -> bool := c => p(c) && q(c);
        KeepThen(consumables, p, q, p2);
        filtered := Keep(filtered, q);
        p := p2;
      }
      var spec := c => ConsumableMatches(status, searchInput, c);
      KeepExt(consumables, p, spec);
      KeepIsSubseq(consumables, spec);
    }
  }
}
