/**
 * The maintenance page: the resources and laboratories it lists together,
 * scheduling a maintenance on one of them, marking it available again, the
 * filter over the combined list and the action each row offers.
 */
module Maintenance {
  import opened Wrappers
  import opened Text
  import opened Seqs

  /** What the page records about a maintenance: unset until scheduled, `null` once finished. */
  datatype Info = Unset | Cleared | Planned(start: Option<int>, end: Option<int>, desc: string)

  /**
   * A resource or a laboratory as loaded. Resources carry `lab_name`,
   * laboratories `building` and `room`; the other fields are `""`. Times are
   * milliseconds, `None` for an invalid date.
   */
  datatype Item = Item(id: int, name: string, labName: string, building: string, room: string,
                       status: string, info: Info)

  /** A row of the combined table. */
  datatype Row = Row(id: int, kind: string, name: string, lab: string, status: string)

  function ResourceRow(r: Item): Row {
    Row(r.id, "resource", r.name, r.labName, r.status)
  }

  function LabRow(l: Item): Row {
    Row(l.id, "lab", l.name, l.building + " - " + l.room, l.status)
  }

  function ResourceRows(rs: seq<Item>): (r: seq<Row>)
    ensures |r| == |rs| && forall i :: 0 <= i < |r| ==> r[i] == ResourceRow(rs[i])
  {
    if |rs| == 0 then [] else [ResourceRow(rs[0])] + ResourceRows(rs[1..])
  }

  function LabRows(ls: seq<Item>): (r: seq<Row>)
    ensures |r| == |ls| && forall i :: 0 <= i < |r| ==> r[i] == LabRow(ls[i])
  {
    if |ls| == 0 then [] else [LabRow(ls[0])] + LabRows(ls[1..])
  }

  /** The combined list: the resources' rows, then the laboratories' rows. */
  function Combine(resources: seq<Item>, labs: seq<Item>): seq<Row> {
    ResourceRows(resources) + LabRows(labs)
  }

  /** One row per resource then one per laboratory, in order; a laboratory is placed at `building - room`. */
  lemma CombineShape(resources: seq<Item>, labs: seq<Item>)
    ensures |Combine(resources, labs)| == |resources| + |labs|
    ensures forall i :: 0 <= i < |resources| ==>
      Combine(resources, labs)[i] == Row(resources[i].id, "resource", resources[i].name, resources[i].labName, resources[i].status)
    ensures forall i :: 0 <= i < |labs| ==>
      Combine(resources, labs)[|resources| + i]
        == Row(labs[i].id, "lab", labs[i].name, labs[i].building + " - " + labs[i].room, labs[i].status)
  {
  }

  // ----- finding and updating an item -----

  /** `list.find(i => i.id === id)`, as a position. */
  function FindIndex(items: seq<Item>, id: int): (r: Option<nat>)
    ensures r.Some? ==> r.value < |items| && items[r.value].id == id
                        && forall k :: 0 <= k < r.value ==> items[k].id != id
    ensures r.None? ==> forall k :: 0 <= k < |items| ==> items[k].id != id
  {
    if |items| == 0 then None
    else if items[0].id == id then Some(0)
    else match FindIndex(items[1..], id) {
      case None => None
      case Some(j) => Some(j + 1)
    }
  }

  /** Whether `k` is the first position holding `id` (`None`, a `NaN` id, matches nothing). */
  predicate FirstWithId(items: seq<Item>, id: Option<int>, k: int)
    requires 0 <= k < |items|
  {
    id == Some(items[k].id) && forall j :: 0 <= j < k ==> items[j].id != items[k].id
  }

  /** Whether `list.find` finds an item for the id. */
  predicate Finds(items: seq<Item>, id: Option<int>) {
    id.Some? && FindIndex(items, id.value).Some?
  }

  /** The list after the item found for `id` gets `status` and `info`; the same list when none is found. */
  function Update(items: seq<Item>, id: Option<int>, status: string, info: Info): seq<Item> {
    if id.None? then items
    else match FindIndex(items, id.value) {
      case None => items
      case Some(i) => items[i := items[i].(status := status, info := info)]
    }
  }

  /**
   * Only the first item with the id changes, and only its status and
   * information; every other item stays as it was.
   */
  lemma UpdateMeaning(items: seq<Item>, id: Option<int>, status: string, info: Info)
    ensures |Update(items, id, status, info)| == |items|
    ensures forall k :: 0 <= k < |items| && !FirstWithId(items, id, k) ==> Update(items, id, status, info)[k] == items[k]
    ensures forall k :: 0 <= k < |items| && FirstWithId(items, id, k) ==>
      Update(items, id, status, info)[k] == items[k].(status := status, info := info)
  {
  }

  /** An id no item has, or a `NaN` id, changes nothing. */
  lemma UpdateUnknownId(items: seq<Item>, id: Option<int>, status: string, info: Info)
    requires forall k :: 0 <= k < |items| ==> Some(items[k].id) != id
    ensures Update(items, id, status, info) == items
  {
  }

  // ----- scheduling -----

  /**
   * The status a scheduled maintenance gets: `maintenance` once its start
   * has come, `scheduled` before; an invalid start never compares and
   * gives `scheduled`.
   */
  function ScheduledStatus(start: Option<int>, now: int): (s: string)
    ensures s == "maintenance" <==> start.Some? && now >= start.value
    ensures s == "maintenance" || s == "scheduled"
  {
    if start.Some? && now >= start.value then "maintenance" else "scheduled"
  }

  /**
   * The save handler's check. The dates are `Date` objects, which are
   * always truthy, so only a description blank after trimming stops it.
   */
  predicate SaveAllowed(start: Option<int>, end: Option<int>, descRaw: string) {
    Trim(descRaw) != ""
  }

  /** Dates left empty or invalid do not stop the save. */
  lemma InvalidDatesStillSave(descRaw: string)
    requires Trim(descRaw) != ""
    ensures SaveAllowed(None, None, descRaw)
    ensures ScheduledStatus(None, 0) == "scheduled"
  {
  }

  /** `markAvailable` and the save button pick the list by type: `lab` picks the laboratories, anything else the resources. */
  predicate PicksLabs(kind: string) {
    kind == "lab"
  }

  // ----- the table -----

  /** `translateStatus(status)` of this page. */
  function TranslateStatus(status: string): (r: string)
    ensures r == "Desconocido" <==> status !in {"available", "maintenance", "scheduled"}
  {
    if status == "available" then "Disponible"
    else if status == "maintenance" then "En Mantenimiento"
    else if status == "scheduled" then "Agendado"
    else "Desconocido"
  }

  /** `getStatusBadge(status)`. */
  function StatusBadge(status: string): (r: string)
    ensures r == "badge-light" <==> status !in {"available", "maintenance", "scheduled"}
  {
    if status == "available" then "badge-success"
    else if status == "maintenance" then "badge-warning"
    else if status == "scheduled" then "badge-secondary"
    else "badge-light"
  }

  /** The action a row offers. */
  datatype Action = Finish(kind: string, id: int) | Schedule(kind: string, id: int)

  /** `Finalizar` (mark available) for an item in maintenance, `Programar` (open the form) otherwise. */
  function RowAction(row: Row): (a: Action)
    ensures a.Finish? <==> row.status == "maintenance"
    ensures a.kind == row.kind && a.id == row.id
  {
    if row.status == "maintenance" then Finish(row.kind, row.id) else Schedule(row.kind, row.id)
  }

  function ButtonText(a: Action): string {
    if a.Finish? then "Finalizar" else "Programar"
  }

  /** The button reads `Finalizar` exactly when the row is in maintenance. */
  lemma FinishButtonIff(row: Row)
    ensures ButtonText(RowAction(row)) == "Finalizar" <==> row.status == "maintenance"
  {
  }

  /** `getCurrentFiltered()`'s test, with the search already lower-cased; an empty search is found in every text. */
  predicate RowMatches(row: Row, kind: string, status: string, search: string) {
    (kind == "" || row.kind == kind)
    && (status == "" || row.status == status)
    && (Contains(Lower(row.name), search) || Contains(Lower(row.lab), search))
  }

  function Matching(kind: string, status: string, search: string): Row -> bool {
    (row: Row) => RowMatches(row, kind, status, search)
  }

  function Filtered(rows: seq<Row>, kind: string, status: string, searchInput: string): seq<Row> {
    Keep(rows, Matching(kind, status, Lower(searchInput)))
  }

  /** The filtered rows are the matching ones, in order, and with no type, status or search all rows are kept. */
  lemma FilteredMeaning(rows: seq<Row>, kind: string, status: string, searchInput: string)
    ensures IsSubseq(Filtered(rows, kind, status, searchInput), rows)
    ensures forall row :: (row in Filtered(rows, kind, status, searchInput)
                           <==> row in rows && RowMatches(row, kind, status, Lower(searchInput)))
  {
    KeepIsSubseq(rows, Matching(kind, status, Lower(searchInput)));
  }

  lemma NoFilterKeepsAll(rows: seq<Row>)
    ensures Filtered(rows, "", "", "") == rows
  {
    assert Lower("") == "";
    forall i | 0 <= i < |rows| ensures RowMatches(rows[i], "", "", "") {
      ContainsEmpty(Lower(rows[i].name));
    }
    KeepAll(rows, Matching("", "", ""));
  }

  /** The page's state: the two loaded lists and the combined table. */
  class MaintenancePage {
    var resources: seq<Item>
    var labs: seq<Item>
    var combined: seq<Row>

    /** The combined table shows the two lists as they are. */
    predicate Synced()
      reads this
    {
      combined == Combine(resources, labs)
    }

    constructor ()
      ensures resources == [] && labs == [] && combined == [] && Synced()
    {
      resources, labs, combined := [], [], [];
    }

    /**
     * `loadMaintenanceData()`: the resources are fetched first and stored;
     * if the laboratories then fail to load, the table is not rebuilt.
     */
    method Load(fetchedResources: Option<seq<Item>>, fetchedLabs: Option<seq<Item>>)
      modifies this
      ensures fetchedResources.None? ==> resources == old(resources) && labs == old(labs) && combined == old(combined)
      ensures fetchedResources.Some? ==> resources == fetchedResources.value
      ensures fetchedResources.Some? && fetchedLabs.None? ==> labs == old(labs) && combined == old(combined)
      ensures fetchedResources.Some? && fetchedLabs.Some? ==> labs == fetchedLabs.value && Synced()
    {
      if fetchedResources.None? {
        return;
      }
      resources := fetchedResources.value;
      if fetchedLabs.None? {
        return;
      }
      labs := fetchedLabs.value;
      RebuildCombined();
    }

    /** `rebuildCombined()`. */
    method RebuildCombined()
      modifies this
      ensures resources == old(resources) && labs == old(labs) && Synced()
    {
      combined := ResourceRows(resources) + LabRows(labs);
    }

    /** Sets the status and information of the first item with the id in the list the type picks; reports whether one was found. */
    method SetStatus(kind: string, id: Option<int>, status: string, info: Info) returns (found: bool)
      modifies this
      ensures found <==> Finds(if PicksLabs(kind) then old(labs) else old(resources), id)
      ensures labs == if PicksLabs(kind) then Update(old(labs), id, status, info) else old(labs)
      ensures resources == if PicksLabs(kind) then old(resources) else Update(old(resources), id, status, info)
      ensures combined == old(combined)
    {
      found := false;
      if id.None? {
        return;
      }
      var list := if kind == "lab" then labs else resources;
      var i := FindIndex(list, id.value);
      if i.None? {
        return;
      }
      found := true;
      var item := list[i.value].(status := status, info := info);
      if kind == "lab" {
        labs := labs[i.value := item];
      } else {
        resources := resources[i.value := item];
      }
    }

    /**
     * The save button: a blank description stops it; otherwise the item
     * with the id in the list the type picks gets the scheduled status and
     * `{start, end, desc}`, and the table is rebuilt. An unknown id (or a
     * `NaN` one, from `parseInt`) changes nothing.
     */
    method SaveMaintenance(kind: string, id: Option<int>, start: Option<int>, end: Option<int>, descRaw: string, now: int)
      modifies this
      ensures var info := Planned(start, end, Trim(descRaw));
              var status := ScheduledStatus(start, now);
              SaveAllowed(start, end, descRaw) ==>
                labs == (if PicksLabs(kind) then Update(old(labs), id, status, info) else old(labs))
                && resources == (if PicksLabs(kind) then old(resources) else Update(old(resources), id, status, info))
      ensures !SaveAllowed(start, end, descRaw) ==> labs == old(labs) && resources == old(resources)
      ensures SaveAllowed(start, end, descRaw) && Finds(if PicksLabs(kind) then old(labs) else old(resources), id) ==> Synced()
      ensures !(SaveAllowed(start, end, descRaw) && Finds(if PicksLabs(kind) then old(labs) else old(resources), id))
              ==> combined == old(combined)
    {
      var desc := Trim(descRaw);
      if desc == "" {
        return;
      }
      var found := SetStatus(kind, id, ScheduledStatus(start, now), Planned(start, end, desc));
      if found {
        RebuildCombined();
      }
    }

    /** `markAvailable(type, id)`: the item becomes `available` and its information `null`. */
    method MarkAvailable(kind: string, id: int)
      modifies this
      ensures labs == if PicksLabs(kind) then Update(old(labs), Some(id), "available", Cleared) else old(labs)
      ensures resources == if PicksLabs(kind) then old(resources) else Update(old(resources), Some(id), "available", Cleared)
      ensures Finds(if PicksLabs(kind) then old(labs) else old(resources), Some(id)) ==> Synced()
      ensures !Finds(if PicksLabs(kind) then old(labs) else old(resources), Some(id)) ==> combined == old(combined)
    {
      var found := SetStatus(kind, Some(id), "available", Cleared);
      if found {
        RebuildCombined();
      }
    }

    /** `getCurrentFiltered()`. */
    function CurrentFiltered(kind: string, status: string, searchInput: string): seq<Row>
      reads this
    {
      Filtered(combined, kind, status, searchInput)
    }
  }
}
