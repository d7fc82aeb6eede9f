/**
 * System settings administration. Two tables are involved: `system_settings`
 * (read by `get`, written by `upsert`, JSON text with the acting user) and
 * `system_setting` (read by `list`, written by `updateMany`, plain text or
 * `NULL`).
 */
module AdminSettings {
  import opened Wrappers
  import opened Text
  import opened Js
  import opened Seqs
  import opened Order

  /** `String(req.params.key || '').trim()`. */
  function SettingKey(param: JsValue): (k: string)
    ensures |k| > 0 ==> !IsWs(k[0]) && !IsWs(k[|k| - 1])
    ensures Truthy(param) && param.Str? ==> k == Trim(param.s)
    ensures !Truthy(param) ==> k == ""
  {
    Trim(ToJsString(Or(param, Str(""))))
  }

  /** A key read back from the table names the same setting again. */
  lemma SettingKeyStable(param: JsValue)
    ensures SettingKey(Str(SettingKey(param))) == SettingKey(param)
  {
    var k := SettingKey(param);
    TrimIdempotent(ToJsString(Or(param, Str(""))));
    if k == "" {
      assert Or(Str(k), Str("")) == Str("");
      assert Trim("") == "";
    } else {
      assert Or(Str(k), Str("")) == Str(k);
    }
  }

  /** `actorId`: the authenticated user's id, or `null`. */
  function ActorId(userId: JsValue, authUserId: JsValue): (r: JsValue)
    ensures Truthy(r) || r == Null
    ensures Truthy(userId) ==> r == userId
    ensures !Truthy(userId) && Truthy(authUserId) ==> r == authUserId
  {
    Or(Or(userId, authUserId), Null)
  }

  /** A `system_settings` row: the value as JSON text and who last wrote it. */
  datatype SettingRow = SettingRow(value: string, updatedBy: JsValue)

  /** A `changelog` row; `detail` is the object whose JSON text is stored. */
  datatype ChangeRow = ChangeRow(entityType: string, entityId: int, userId: JsValue, action: string, detail: JsValue)

  /** One row of the `system_setting` listing. */
  datatype SettingEntry = SettingEntry(key: string, value: Option<string>)

  datatype GetReply = KeyNotFound | Found(key: string, row: SettingRow)
  datatype UpsertReply = ValueRequired | Upserted(key: string, row: SettingRow)
  datatype UpdateManyReply = NotAnArray | NoItems | UpdateFailed | Listed(entries: seq<SettingEntry>)

  // ----- updateMany, item by item -----

  /** The key an item of `updateMany` writes: none for a falsy item or a falsy key, else `String(item.key)`. */
  function ItemKey(item: JsValue): (r: Option<string>)
    ensures r.None? <==> !Truthy(item) || !Truthy(Get(item, "key"))
  {
    if !Truthy(item) || !Truthy(Get(item, "key")) then None else Some(ToJsString(Get(item, "key")))
  }

  /** The value it writes: `String(item.value)`, or `NULL` for `null` and `undefined`. */
  function ItemValue(item: JsValue): (r: Option<string>)
    ensures r.None? <==> Nullish(Get(item, "value"))
    ensures r.Some? ==> r.value == ToJsString(Get(item, "value"))
  {
    var v := Get(item, "value");
    if Nullish(v) then None else Some(ToJsString(v))
  }

  /** The table after the items, applied in order, each an insert-or-update of its key. */
  function ApplyItems(table: map<string, Option<string>>, items: seq<JsValue>): map<string, Option<string>>
    decreases |items|
  {
    if |items| == 0 then table
    else
      var before := ApplyItems(table, items[..|items| - 1]);
      var last := items[|items| - 1];
      if ItemKey(last).None? then before else before[ItemKey(last).value := ItemValue(last)]
  }

  /** The keys after the items are the keys before and the keys the items name. */
  lemma {:induction false} ApplyItemsKeys(table: map<string, Option<string>>, items: seq<JsValue>, k: string)
    ensures k in ApplyItems(table, items) <==> k in table || exists i :: 0 <= i < |items| && ItemKey(items[i]) == Some(k)
    decreases |items|
  {
    if |items| > 0 {
      var init := items[..|items| - 1];
      ApplyItemsKeys(table, init, k);
      if exists i :: 0 <= i < |items| && ItemKey(items[i]) == Some(k) {
        var i :| 0 <= i < |items| && ItemKey(items[i]) == Some(k);
        if i < |init| {
          assert init[i] == items[i];
        }
      }
      if exists i :: 0 <= i < |init| && ItemKey(init[i]) == Some(k) {
        var i :| 0 <= i < |init| && ItemKey(init[i]) == Some(k);
        assert init[i] == items[i];
      }
    }
  }

  /** A key no item names keeps its value. */
  lemma {:induction false} ApplyItemsUnnamed(table: map<string, Option<string>>, items: seq<JsValue>, k: string)
    requires k in table && forall i :: 0 <= i < |items| ==> ItemKey(items[i]) != Some(k)
    ensures k in ApplyItems(table, items) && ApplyItems(table, items)[k] == table[k]
    decreases |items|
  {
    if |items| > 0 {
      var init := items[..|items| - 1];
      assert forall i :: 0 <= i < |init| ==> init[i] == items[i];
      ApplyItemsUnnamed(table, init, k);
    }
  }

  /** The last item naming a key decides its value. */
  lemma {:induction false} ApplyItemsLastWins(table: map<string, Option<string>>, items: seq<JsValue>, i: nat)
    requires i < |items| && ItemKey(items[i]).Some?
    requires forall j :: i < j < |items| ==> ItemKey(items[j]) != ItemKey(items[i])
    ensures ItemKey(items[i]).value in ApplyItems(table, items)
    ensures ApplyItems(table, items)[ItemKey(items[i]).value] == ItemValue(items[i])
    decreases |items|
  {
    if i < |items| - 1 {
      var init := items[..|items| - 1];
      assert init[i] == items[i];
      assert forall j :: i < j < |init| ==> init[j] == items[j];
      ApplyItemsLastWins(table, init, i);
    }
  }

  /** Items that are skipped change nothing. */
  lemma SkippedItem(table: map<string, Option<string>>, items: seq<JsValue>, item: JsValue)
    requires !Truthy(item) || !Truthy(Get(item, "key"))
    ensures ApplyItems(table, items + [item]) == ApplyItems(table, items)
  {
    assert (items + [item])[..|items|] == items;
  }

  /** The keys of a listing are sorted, each listed once, and are exactly the table's keys. */
  predicate IsListing(entries: seq<SettingEntry>, table: map<string, Option<string>>) {
    (forall i, j :: 0 <= i < j < |entries| ==> LexLeq(entries[i].key, entries[j].key) && entries[i].key != entries[j].key)
    && (forall i :: 0 <= i < |entries| ==> entries[i].key in table && entries[i].value == table[entries[i].key])
    && (forall k :: k in table ==> exists i :: 0 <= i < |entries| && entries[i].key == k)
  }

  /** The keys of a table, in some order, each once. */
  method KeysOf(table: map<string, Option<string>>) returns (keys: seq<string>)
    ensures Distinct(keys) && ToSet(keys) == table.Keys
  {
    keys := [];
    var rest := table.Keys;
    while rest != {}
      invariant rest !! ToSet(keys) && rest + ToSet(keys) == table.Keys
      invariant Distinct(keys)
      decreases |rest|
    {
      var k :| k in rest;
      keys := keys + [k];
      rest := rest - {k};
    }
  }

  /** `SELECT key, value FROM system_setting ORDER BY key`. */
  method ListSettings(table: map<string, Option<string>>) returns (entries: seq<SettingEntry>)
    ensures IsListing(entries, table)
  {
    var keys := KeysOf(table);
    var sorted := SortStrings(keys);
    DistinctPermutation(keys, sorted);
    SameElements(keys, sorted);
    KeysInTable(sorted, table);
    entries := [];
    for i := 0 to |sorted|
      invariant EntriesOf(entries, sorted, table, i)
    {
      EntriesSnoc(entries, sorted, table, i);
      entries := entries + [SettingEntry(sorted[i], table[sorted[i]])];
    }
    ListingOfKeys(sorted, table, entries);
  }

  lemma KeysInTable(keys: seq<string>, table: map<string, Option<string>>)
    requires ToSet(keys) == table.Keys
    ensures forall i :: 0 <= i < |keys| ==> keys[i] in table
  {
    forall i | 0 <= i < |keys| ensures keys[i] in table {
      assert keys[i] in ToSet(keys);
    }
  }

  /** The first `n` entries are the first `n` keys, each with its value. */
  predicate EntriesOf(entries: seq<SettingEntry>, keys: seq<string>, table: map<string, Option<string>>, n: nat) {
    n <= |keys| && |entries| == n
    && forall j :: 0 <= j < n ==> keys[j] in table && entries[j] == SettingEntry(keys[j], table[keys[j]])
  }

  lemma EntriesSnoc(entries: seq<SettingEntry>, keys: seq<string>, table: map<string, Option<string>>, i: nat)
    requires EntriesOf(entries, keys, table, i) && i < |keys| && keys[i] in table
    ensures EntriesOf(entries + [SettingEntry(keys[i], table[keys[i]])], keys, table, i + 1)
  {
    var next := entries + [SettingEntry(keys[i], table[keys[i]])];
    forall j | 0 <= j < i ensures next[j] == entries[j] { }
  }

  lemma SameElements(a: seq<string>, b: seq<string>)
    requires multiset(a) == multiset(b)
    ensures ToSet(a) == ToSet(b)
  {
    forall x ensures x in b <==> x in a {
      assert x in b <==> x in multiset(b);
      assert x in a <==> x in multiset(a);
    }
  }

  /** One entry per key, in the keys' order, gives the listing when the keys are the table's, sorted and distinct. */
  lemma ListingOfKeys(keys: seq<string>, table: map<string, Option<string>>, entries: seq<SettingEntry>)
    requires SortedBy(keys, LexLeq) && Distinct(keys) && ToSet(keys) == table.Keys
    requires |entries| == |keys| && forall j :: 0 <= j < |keys| ==> entries[j] == SettingEntry(keys[j], table[keys[j]])
    ensures IsListing(entries, table)
  {
    forall k | k in table ensures exists i :: 0 <= i < |entries| && entries[i].key == k {
      assert k in ToSet(keys);
      var i :| 0 <= i < |keys| && keys[i] == k;
      assert entries[i].key == k;
    }
  }

  /** The settings tables, with the change log `upsert` writes to. */
  class SettingsStore {
    var settings: map<string, SettingRow>
    var setting: map<string, Option<string>>
    var changelog: seq<ChangeRow>

    constructor ()
      ensures settings == map[] && setting == map[] && changelog == []
    {
      settings, setting, changelog := map[], map[], [];
    }

    /** `get`: the row of the trimmed key, 404 when there is none. */
    method GetSetting(keyParam: JsValue) returns (r: GetReply)
      ensures r.KeyNotFound? <==> SettingKey(keyParam) !in settings
      ensures r.Found? ==> r.key == SettingKey(keyParam) && r.row == settings[r.key]
    {
      var key := SettingKey(keyParam);
      if key !in settings {
        return KeyNotFound;
      }
      r := Found(key, settings[key]);
    }

    /**
     * `upsert`: `body.value` must be present (any JSON, `null` included);
     * it is stored as its JSON text under the trimmed key with the actor,
     * and one `UPSERT` change is logged.
     */
    method Upsert(keyParam: JsValue, body: JsValue, actor: JsValue) returns (r: UpsertReply)
      modifies this
      ensures r.ValueRequired? <==> Get(body, "value").Undefined?
      ensures r.ValueRequired? ==> settings == old(settings) && changelog == old(changelog)
      ensures r.Upserted? ==>
        var key := SettingKey(keyParam);
        var value := Get(body, "value");
        r.key == key && r.row == SettingRow(Stringify(value).value, actor)
        && settings == old(settings)[key := r.row]
        && changelog == old(changelog) + [ChangeRow("setting", 0, Or(actor, Null), "UPSERT",
                                                    Obj([Member("key", Str(key)), Member("value", value)]))]
      ensures setting == old(setting)
    {
      var key := SettingKey(keyParam);
      var value := Get(body, "value");
      if value.Undefined? {
        return ValueRequired;
      }
      var row := SettingRow(Stringify(value).value, actor);
      settings := settings[key := row];
      changelog := changelog + [ChangeRow("setting", 0, Or(actor, Null), "UPSERT",
                                          Obj([Member("key", Str(key)), Member("value", value)]))];
      r := Upserted(key, row);
    }

    /** `list`: the `system_setting` rows ordered by key. */
    method List() returns (entries: seq<SettingEntry>)
      ensures IsListing(entries, setting)
    {
      entries := ListSettings(setting);
    }

    /**
     * `updateMany`: the body must be a non-empty array; its items are
     * applied in order inside one transaction, skipping falsy items and
     * falsy keys. `failAt` is the position of an item whose `INSERT` fails,
     * if any: then everything is rolled back and 500 is answered.
     * Otherwise the whole table is listed by key.
     */
    method UpdateMany(items: JsValue, failAt: Option<nat>) returns (r: UpdateManyReply)
      modifies this
      ensures r.NotAnArray? <==> !items.Arr?
      ensures r.NoItems? <==> items.Arr? && |items.elems| == 0
      ensures r.UpdateFailed? <==>
        items.Arr? && failAt.Some? && failAt.value < |items.elems| && ItemKey(items.elems[failAt.value]).Some?
      ensures !r.Listed? ==> setting == old(setting)
      ensures r.Listed? ==> setting == ApplyItems(old(setting), items.elems) && IsListing(r.entries, setting)
      ensures settings == old(settings) && changelog == old(changelog)
    {
      if !items.Arr? {
        return NotAnArray;
      }
      var elems := items.elems;
      if |elems| == 0 {
        return NoItems;
      }
      var staged := setting;
      for i := 0 to |elems|
        invariant staged == ApplyItems(setting, elems[..i])
        invariant failAt.Some? && failAt.value < i ==> ItemKey(elems[failAt.value]).None?
      {
        assert elems[..i + 1][..i] == elems[..i];
        var key := ItemKey(elems[i]);
        if key.None? {
          continue;
        }
        if failAt == Some(i) {
          return UpdateFailed;
        }
        staged := staged[key.value := ItemValue(elems[i])];
      }
      assert elems[..|elems|] == elems;
      setting := staged;
      var entries := ListSettings(setting);
      r := Listed(entries);
    }
  }
}
