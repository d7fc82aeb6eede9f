/**
 * The inventory page: its status labels, the category and status select
 * boxes filled from the loaded resources, the case-insensitive filter and
 * the deletion of a resource from the page's list.
 */
module Inventory {
  import opened Text
  import opened Js
  import opened Seqs
  import opened Order

  /** A resource as the page reads it; a missing text field is `""`. */
  datatype Item = Item(id: int, name: string, category: string, status: string, labName: string)

  /** The four statuses the page knows. */
  const KnownStatuses := ["available", "maintenance", "reserved", "out"]

  predicate IsKnownStatus(status: JsValue) {
    exists i :: 0 <= i < |KnownStatuses| && status == Str(KnownStatuses[i])
  }

  /** `translateStatus(status)`. */
  function TranslateStatus(status: JsValue): string {
    if status == Str("available") then "Disponible"
    else if status == Str("maintenance") then "Mantenimiento"
    else if status == Str("reserved") then "Reservado"
    else if status == Str("out") then "Agotado"
    else "Desconocido"
  }

  /** `getStatusClass(status)`. */
  function StatusClass(status: JsValue): string {
    if status == Str("available") then "badge-success"
    else if status == Str("maintenance") then "badge-warning"
    else if status == Str("reserved") then "badge-info"
    else if status == Str("out") then "badge-error"
    else "badge-light"
  }

  /** A status is unknown exactly when it is labelled `Desconocido`, and exactly when its badge is `badge-light`. */
  lemma UnknownStatus(status: JsValue)
    ensures TranslateStatus(status) == "Desconocido" <==> !IsKnownStatus(status)
    ensures StatusClass(status) == "badge-light" <==> !IsKnownStatus(status)
  {
    if IsKnownStatus(status) {
      var i :| 0 <= i < |KnownStatuses| && status == Str(KnownStatuses[i]);
      assert i == 0 || i == 1 || i == 2 || i == 3;
    } else {
      assert status != Str(KnownStatuses[0]) && status != Str(KnownStatuses[1]);
      assert status != Str(KnownStatuses[2]) && status != Str(KnownStatuses[3]);
    }
  }

  /** The four known statuses have four different labels and four different badges. */
  lemma KnownStatusesDistinct()
    ensures forall i, j :: 0 <= i < j < |KnownStatuses| ==>
      TranslateStatus(Str(KnownStatuses[i])) != TranslateStatus(Str(KnownStatuses[j]))
      && StatusClass(Str(KnownStatuses[i])) != StatusClass(Str(KnownStatuses[j]))
  {
  }

  // ----- the filter select boxes -----

  function TrimAll(values: seq<string>): (r: seq<string>)
    ensures |r| == |values|
    ensures forall i :: 0 <= i < |r| ==> r[i] == Trim(values[i])
  {
    if |values| == 0 then [] else [Trim(values[0])] + TrimAll(values[1..])
  }

  function NonEmpty(): string -> bool { (s: string) => s != "" }

  /**
   * The values offered for one field (`category` or `status`): each trimmed,
   * the repetitions dropped (`new Set`), the empty one dropped
   * (`filter(Boolean)`), then sorted.
   */
  function OptionValues(values: seq<string>): seq<string> {
    SortStrings(Keep(Dedupe(TrimAll(values)), NonEmpty()))
  }

  /** The options are sorted, without repetitions, and are exactly the non-empty trimmed values. */
  lemma OptionValuesMeaning(values: seq<string>)
    ensures SortedBy(OptionValues(values), LexLeq)
    ensures Distinct(OptionValues(values))
    ensures forall x :: x in OptionValues(values) <==> x != "" && exists i :: 0 <= i < |values| && Trim(values[i]) == x
  {
    var trimmed := TrimAll(values);
    var kept := Keep(Dedupe(trimmed), NonEmpty());
    KeepDistinct(Dedupe(trimmed), NonEmpty());
    DistinctPermutation(kept, OptionValues(values));
    forall x ensures x in OptionValues(values) <==> x != "" && exists i :: 0 <= i < |values| && Trim(values[i]) == x {
      assert x in OptionValues(values) <==> x in multiset(kept);
      if x != "" && exists i :: 0 <= i < |values| && Trim(values[i]) == x {
        var i :| 0 <= i < |values| && Trim(values[i]) == x;
        assert trimmed[i] == x && x in ToSet(trimmed);
      }
      if x in kept {
        assert x in ToSet(Dedupe(trimmed));
        var i :| 0 <= i < |trimmed| && trimmed[i] == x;
      }
    }
  }

  /** An `<option>`: its value and its label. */
  datatype SelectOption = SelectOption(value: string, text: string)

  /** The label of a status option: its translation for a known status, the status itself otherwise. */
  function StatusLabel(s: string): (r: string)
    ensures IsKnownStatus(Str(s)) ==> r == TranslateStatus(Str(s))
    ensures !IsKnownStatus(Str(s)) ==> r == s
  {
    UnknownStatus(Str(s));
    if s == "available" then "Disponible"
    else if s == "maintenance" then "Mantenimiento"
    else if s == "reserved" then "Reservado"
    else if s == "out" then "Agotado"
    else s
  }

  function CategoryOption(v: string): SelectOption { SelectOption(v, v) }

  function StatusOption(v: string): SelectOption { SelectOption(v, StatusLabel(v)) }

  function Options(values: seq<string>, toOption: string -> SelectOption): (r: seq<SelectOption>)
    ensures |r| == |values|
    ensures forall i :: 0 <= i < |r| ==> r[i] == toOption(values[i])
  {
    if |values| == 0 then [] else [toOption(values[0])] + Options(values[1..], toOption)
  }

  lemma {:induction false} OptionsSnoc(values: seq<string>, i: nat, toOption: string -> SelectOption)
    requires i < |values|
    ensures Options(values[..i + 1], toOption) == Options(values[..i], toOption) + [toOption(values[i])]
  {
    var a, b := Options(values[..i + 1], toOption), Options(values[..i], toOption) + [toOption(values[i])];
    assert |a| == |b|;
    forall k | 0 <= k < |a| ensures a[k] == b[k] {
      if k < i {
        assert values[..i + 1][k] == values[..i][k];
      }
    }
  }

  /** The first option of a select box (its placeholder), if it has one. */
  function Placeholder(options: seq<SelectOption>): (r: seq<SelectOption>)
    ensures |r| <= 1 && |r| <= |options| && r == options[..|r|]
    ensures |r| == 1 <==> |options| > 0
  {
    if |options| == 0 then [] else options[..1]
  }

  /** A `<select>` element of the filter bar. */
  class Select {
    var options: seq<SelectOption>

    constructor (placeholder: seq<SelectOption>)
      ensures options == placeholder
    {
      options := placeholder;
    }

    /** `while (select.options.length > 1) select.remove(1)`: only the placeholder is left. */
    method KeepPlaceholder()
      modifies this
      ensures options == Placeholder(old(options))
    {
      while |options| > 1
        invariant |options| >= 1 ==> |old(options)| >= 1 && options[..1] == old(options)[..1]
        invariant |options| == 0 ==> old(options) == []
        decreases |options|
      {
        options := options[..1] + options[2..];
      }
    }

    /** Appends one option per value, in order. */
    method AppendOptions(values: seq<string>, toOption: string -> SelectOption)
      modifies this
      ensures options == old(options) + Options(values, toOption)
    {
      var i := 0;
      while i < |values|
        invariant 0 <= i <= |values|
        invariant options == old(options) + Options(values[..i], toOption)
      {
        OptionsSnoc(values, i, toOption);
        options := options + [toOption(values[i])];
        i := i + 1;
      }
      assert values[..|values|] == values;
    }
  }

  function Categories(data: seq<Item>): (r: seq<string>)
    ensures |r| == |data| && forall i :: 0 <= i < |r| ==> r[i] == data[i].category
  {
    if |data| == 0 then [] else [data[0].category] + Categories(data[1..])
  }

  function Statuses(data: seq<Item>): (r: seq<string>)
    ensures |r| == |data| && forall i :: 0 <= i < |r| ==> r[i] == data[i].status
  {
    if |data| == 0 then [] else [data[0].status] + Statuses(data[1..])
  }

  /**
   * `populateFilterOptions(data)`: each select box keeps its placeholder and
   * then lists the field's option values in order.
   */
  method PopulateFilterOptions(data: seq<Item>, categorySelect: Select, statusSelect: Select)
    requires categorySelect != statusSelect
    modifies categorySelect, statusSelect
    ensures categorySelect.options
            == Placeholder(old(categorySelect.options)) + Options(OptionValues(Categories(data)), CategoryOption)
    ensures statusSelect.options
            == Placeholder(old(statusSelect.options)) + Options(OptionValues(Statuses(data)), StatusOption)
  {
    var categories := OptionValues(Categories(data));
    var statuses := OptionValues(Statuses(data));
    categorySelect.KeepPlaceholder();
    statusSelect.KeepPlaceholder();
    categorySelect.AppendOptions(categories, CategoryOption);
    statusSelect.AppendOptions(statuses, StatusOption);
  }

  // ----- the filter -----

  /** `(raw || '').toString().trim().toLowerCase()`. */
  function Normalize(raw: string): string {
    Lower(Trim(raw))
  }

  /** The filter's test on one item, with the three inputs already normalised. */
  predicate ItemMatches(item: Item, category: string, status: string, search: string) {
    (category == "" || Normalize(item.category) == category)
    && (status == "" || Normalize(item.status) == status)
    && (search == "" || Contains(Lower(item.name), search) || Contains(Lower(item.labName), search))
  }

  function Matching(category: string, status: string, search: string): Item -> bool {
    (item: Item) => ItemMatches(item, category, status, search)
  }

  /** The `btnFilter` handler's list. */
  function FilterInventory(items: seq<Item>, categoryRaw: string, statusRaw: string, searchRaw: string): seq<Item> {
    Keep(items, Matching(Normalize(categoryRaw), Normalize(statusRaw), Normalize(searchRaw)))
  }

  /** The filtered list is the matching items in their order, and nothing else. */
  lemma FilterInventoryMeaning(items: seq<Item>, categoryRaw: string, statusRaw: string, searchRaw: string)
    ensures IsSubseq(FilterInventory(items, categoryRaw, statusRaw, searchRaw), items)
    ensures forall item :: (item in FilterInventory(items, categoryRaw, statusRaw, searchRaw)
      <==> item in items && ItemMatches(item, Normalize(categoryRaw), Normalize(statusRaw), Normalize(searchRaw)))
  {
    KeepIsSubseq(items, Matching(Normalize(categoryRaw), Normalize(statusRaw), Normalize(searchRaw)));
  }

  /** Inputs that are blank after trimming filter nothing out, as `btnClear` shows the whole list. */
  lemma BlankFilterKeepsAll(items: seq<Item>, categoryRaw: string, statusRaw: string, searchRaw: string)
    requires Trim(categoryRaw) == "" && Trim(statusRaw) == "" && Trim(searchRaw) == ""
    ensures FilterInventory(items, categoryRaw, statusRaw, searchRaw) == items
  {
    assert Lower("") == "";
    KeepAll(items, Matching(Normalize(categoryRaw), Normalize(statusRaw), Normalize(searchRaw)));
  }

  // ----- the page's list -----

  function WithoutId(id: int): Item -> bool { (item: Item) => item.id != id }

  /** The page's `resources` list. */
  class Inventory {
    var resources: seq<Item>

    constructor ()
      ensures resources == []
    {
      resources := [];
    }

    /** `loadInventory()`: the fetched list replaces the page's list; a failed fetch leaves it. */
    method LoadInventory(fetched: seq<Item>, fetchFails: bool)
      modifies this
      ensures resources == if fetchFails then old(resources) else fetched
    {
      if !fetchFails {
        resources := fetched;
      }
    }

    /** `deleteItem(id)`: once confirmed, every item with that id is dropped. */
    method DeleteItem(id: int, confirmed: bool)
      modifies this
      ensures resources == if confirmed then Deleted(old(resources), id) else old(resources)
    {
      if confirmed {
        resources := Deleted(resources, id);
      }
    }
  }

  function Deleted(items: seq<Item>, id: int): seq<Item> {
    Keep(items, WithoutId(id))
  }

  /** After deleting an id no item has it, every other item stays, and the order is kept. */
  lemma DeletedMeaning(items: seq<Item>, id: int)
    ensures forall item :: item in Deleted(items, id) ==> item.id != id
    ensures forall item :: item in items && item.id != id ==> item in Deleted(items, id)
    ensures IsSubseq(Deleted(items, id), items)
  {
    KeepIsSubseq(items, WithoutId(id));
  }

  /** Deleting an id that is not in the list leaves it as it was. */
  lemma DeleteAbsent(items: seq<Item>, id: int)
    requires forall i :: 0 <= i < |items| ==> items[i].id != id
    ensures Deleted(items, id) == items
  {
    KeepAll(items, WithoutId(id));
  }

  /** The list shrinks exactly when some item has the id. */
  lemma DeleteShrinksIff(items: seq<Item>, id: int)
    ensures |Deleted(items, id)| < |items| <==> exists i :: 0 <= i < |items| && items[i].id == id
  {
    KeepDrops(items, WithoutId(id));
  }
}
