/**
 * The activity history of a user: the rows of the user's finished
 * requests, one per request item, grouped into one entry per request with
 * its resources listed and summarised in one `resource_name`.
 *
 * The rows are those the history query returns (the requests of the user
 * whose status is approved, cancelled or rejected, newest first, joined
 * with their lab, items and resources); the query itself runs in the
 * database and is not modelled.
 */
module History {
  import opened Wrappers
  import opened Text
  import opened Seqs
  import opened Js
  import opened Order

  // ----- uid -----

  /** `req.user?.id || req.auth?.user?.id || Number(req.query.user_id) || null`. */
  function Uid(userId: Option<int>, authUserId: Option<int>, queryUserId: JsValue): (r: Option<int>)
    ensures TruthyId(userId) ==> r == userId
    ensures !TruthyId(userId) && TruthyId(authUserId) ==> r == authUserId
    ensures !TruthyId(userId) && !TruthyId(authUserId) ==>
      (r.Some? <==> ToNumber(queryUserId).Num? && ToNumber(queryUserId).n != 0)
    ensures r.Some? ==> r.value != 0
  {
    var fromQuery := ToNumber(queryUserId);
    if TruthyId(userId) then userId
    else if TruthyId(authUserId) then authUserId
    else if fromQuery.Num? && fromQuery.n != 0 then Some(fromQuery.n)
    else None
  }

  // ----- rows and entries -----

  /** A time column: `NULL`, a `Date` the driver built, or text. */
  datatype TimeValue = NoTime | DateValue(ms: int) | TextValue(text: string)

  /** One row of the history query: a request joined with one of its items. */
  datatype Row = Row(id: int, status: string, purpose: JsValue, createdAt: JsValue, labName: JsValue,
                     labId: JsValue, resourceName: JsValue, resourceType: JsValue, qty: JsValue,
                     timeFrom: TimeValue, timeTo: TimeValue, date: JsValue)

  datatype GroupResource = GroupResource(name: JsValue, rtype: JsValue, qty: JsValue)

  /** The header of a request's entry and the resources collected for it. */
  datatype Group = Group(id: int, status: string, labName: JsValue, labId: JsValue, purpose: JsValue,
                         createdAt: JsValue, date: JsValue, timeFrom: Option<string>, timeTo: Option<string>,
                         resources: seq<GroupResource>)

  /** An entry of the answer: the group with its `resource_name`. */
  datatype Entry = Entry(group: Group, resourceName: JsValue)

  const MsPerMinute := 60_000
  const MsPerHour := 3_600_000
  const MsPerDay := 86_400_000

  /** `'APROBADA'` is a completed activity; every other status counts as cancelled. */
  function StatusLabel(status: string): (r: string)
    ensures r == "completed" <==> status == "APROBADA"
    ensures r != "completed" ==> r == "cancelled"
  {
    if status == "APROBADA" then "completed"
    else if status == "CANCELADA" then "cancelled"
    else "cancelled"
  }

  /** `s.substring(a, b)`: both bounds clamped to the string, the smaller one first. */
  function Substring(s: string, a: nat, b: nat): (r: string)
    ensures a <= b && b <= |s| ==> r == s[a..b]
    ensures a <= b && a <= |s| < b ==> r == s[a..]
    ensures a <= b && |s| < a ==> r == ""
  {
    var lo := if a < |s| then a else |s|;
    var hi := if b < |s| then b else |s|;
    if lo <= hi then s[lo..hi] else s[hi..lo]
  }

  /** `hh:mm` of a timestamp, as the first five characters of `toTimeString()` give it, read in UTC. */
  function ClockText(ms: int): (r: string)
    ensures |r| == 5 && r[2] == ':'
  {
    var inDay := ms % MsPerDay;
    Pad2(inDay / MsPerHour) + ":" + Pad2(inDay % MsPerHour / MsPerMinute)
  }

  /** `time ? (time instanceof Date ? hh:mm : String(time).substring(11, 16)) : null`. */
  function TimeText(t: TimeValue): (r: Option<string>)
    ensures t.NoTime? || (t.TextValue? && t.text == "") <==> r.None?
    ensures t.TextValue? && 16 <= |t.text| ==> r == Some(t.text[11..16])
    ensures t.DateValue? ==> r.Some? && |r.value| == 5
  {
    match t
    case NoTime => None
    case DateValue(ms) => Some(ClockText(ms))
    case TextValue(s) => if s == "" then None else Some(Substring(s, 11, 16))
  }

  /** An ISO timestamp `YYYY-MM-DDThh:mm...` shows as `hh:mm`. */
  lemma TimeOfIsoText(day: string, clock: string, rest: string)
    requires |day| == 10 && |clock| == 5
    ensures TimeText(TextValue(day + "T" + clock + rest)) == Some(clock)
  {
    var s := day + "T" + clock + rest;
    assert s[11..16] == clock;
  }

  /** The entry a request gets from the first of its rows, with no resources yet. */
  function Header(row: Row): Group
  {
    Group(row.id, StatusLabel(row.status), row.labName, row.labId, row.purpose, row.createdAt,
          Or(row.date, row.createdAt), TimeText(row.timeFrom), TimeText(row.timeTo), [])
  }

  function ResourceOf(row: Row): GroupResource {
    GroupResource(row.resourceName, row.resourceType, row.qty)
  }

  /**
   * `resource_name`: the only resource's name; the first name and how many
   * more for several; the lab's name when there are none.
   */
  function Summary(resources: seq<GroupResource>, labName: JsValue): (r: JsValue)
    ensures |resources| == 0 ==> r == labName
    ensures |resources| == 1 ==> r == resources[0].name
    ensures |resources| > 1 ==>
      r == Str(ToJsString(resources[0].name) + " (+" + IntToString(|resources| - 1) + " más)")
  {
    if |resources| == 0 then labName
    else if |resources| == 1 then resources[0].name
    else Str(ToJsString(resources[0].name) + " (+" + IntToString(|resources| - 1) + " más)")
  }

  function EntryOf(g: Group): Entry {
    Entry(g, Summary(g.resources, g.labName))
  }

  // ----- grouping -----

  /** One turn of the `forEach`: open the request's group if it is new, then add the row's resource if it has one. */
  function Step(groups: map<int, Group>, row: Row): map<int, Group> {
    var g := if row.id in groups then groups[row.id] else Header(row);
    if Truthy(row.resourceName) then groups[row.id := g.(resources := g.resources + [ResourceOf(row)])]
    else groups[row.id := g]
  }

  /** The groups after the `forEach` has seen `rows`. */
  function GroupsOf(rows: seq<Row>): map<int, Group>
    decreases |rows|
  {
    if |rows| == 0 then map[] else Step(GroupsOf(rows[..|rows| - 1]), rows[|rows| - 1])
  }

  function HasId(id: int): Row -> bool { (r: Row) => r.id == id }

  /** The rows of request `id` that name a resource. */
  function Listed(id: int): Row -> bool { (r: Row) => r.id == id && Truthy(r.resourceName) }

  function ResourcesIn(rows: seq<Row>): (r: seq<GroupResource>)
    ensures |r| == |rows|
    ensures forall i :: 0 <= i < |rows| ==> r[i] == ResourceOf(rows[i])
  {
    seq(|rows|, i requires 0 <= i < |rows| => ResourceOf(rows[i]))
  }

  lemma ResourcesInAppend(a: seq<Row>, b: seq<Row>)
    ensures ResourcesIn(a + b) == ResourcesIn(a) + ResourcesIn(b)
  {
  }

  /** A request has a group exactly when one of the rows is of it. */
  lemma {:induction false} GroupsOfKeys(rows: seq<Row>, id: int)
    ensures id in GroupsOf(rows) <==> Find(rows, HasId(id)).Some?
    decreases |rows|
  {
    if |rows| > 0 {
      var front := rows[..|rows| - 1];
      var row := rows[|rows| - 1];
      assert rows == front + [row];
      GroupsOfKeys(front, id);
      FindSnoc(front, row, HasId(id));
    }
  }

  /** The group a row of an open request lands in: the same header, one more resource when the row names one. */
  lemma StepExisting(groups: map<int, Group>, row: Row)
    requires row.id in groups
    ensures Step(groups, row)[row.id] == groups[row.id].(resources := groups[row.id].resources
      + ResourcesIn(if Listed(row.id)(row) then [row] else []))
  {
    if Truthy(row.resourceName) {
      assert ResourcesIn([row]) == [ResourceOf(row)];
    }
  }

  /** The group a row of a new request opens. */
  lemma StepNew(groups: map<int, Group>, row: Row)
    requires row.id !in groups
    ensures Step(groups, row)[row.id] == Header(row).(resources := ResourcesIn(if Listed(row.id)(row) then [row] else []))
  {
    if Truthy(row.resourceName) {
      assert ResourcesIn([row]) == [ResourceOf(row)];
    }
  }

  /** The group a request should have: the header of its first row, its listed rows as resources. */
  function GroupFor(rows: seq<Row>, id: int): Group
    requires Find(rows, HasId(id)).Some?
  {
    Header(Find(rows, HasId(id)).value).(resources := ResourcesIn(Keep(rows, Listed(id))))
  }

  /** How `GroupFor` changes when one more row comes. */
  lemma GroupForSnoc(front: seq<Row>, row: Row, id: int)
    requires Find(front + [row], HasId(id)).Some?
    ensures Find(front, HasId(id)).Some? ==>
      GroupFor(front + [row], id) == GroupFor(front, id).(resources := GroupFor(front, id).resources
        + ResourcesIn(if Listed(id)(row) then [row] else []))
    ensures Find(front, HasId(id)).None? ==>
      row.id == id && GroupFor(front + [row], id) == Header(row).(resources := ResourcesIn(if Listed(id)(row) then [row] else []))
  {
    FindSnoc(front, row, HasId(id));
    KeepSnoc(front, row, Listed(id));
    var tail := if Listed(id)(row) then [row] else [];
    ResourcesInAppend(Keep(front, Listed(id)), tail);
    if Find(front, HasId(id)).None? {
      KeepNone(front, Listed(id));
    }
  }

  /**
   * A request's group has the header of its first row and, as resources,
   * its rows that name one, in row order.
   */
  lemma {:induction false} GroupsOfMeaning(rows: seq<Row>, id: int)
    requires id in GroupsOf(rows)
    ensures Find(rows, HasId(id)).Some?
    ensures GroupsOf(rows)[id] == GroupFor(rows, id)
    decreases |rows|
  {
    GroupsOfKeys(rows, id);
    var front := rows[..|rows| - 1];
    var row := rows[|rows| - 1];
    assert rows == front + [row];
    assert GroupsOf(rows) == Step(GroupsOf(front), row);
    if id in GroupsOf(front) {
      GroupsOfMeaning(front, id);
    }
    StepMeaning(front, row, id);
  }

  /** One more row keeps a group equal to `GroupFor`, given that it was before the row. */
  lemma StepMeaning(front: seq<Row>, row: Row, id: int)
    requires id in Step(GroupsOf(front), row) && Find(front + [row], HasId(id)).Some?
    requires id in GroupsOf(front) ==> Find(front, HasId(id)).Some? && GroupsOf(front)[id] == GroupFor(front, id)
    ensures Step(GroupsOf(front), row)[id] == GroupFor(front + [row], id)
  {
    var g := GroupsOf(front);
    GroupForSnoc(front, row, id);
    GroupsOfKeys(front, id);
    if id in g {
      if row.id == id {
        StepExisting(g, row);
      } else {
        assert Step(g, row)[id] == g[id];
      }
    } else {
      StepNew(g, row);
    }
  }

  /** The request ids of the rows, in row order. */
  function IdsOf(rows: seq<Row>): (r: seq<int>)
    ensures |r| == |rows|
    ensures forall i :: 0 <= i < |rows| ==> r[i] == rows[i].id
  {
    seq(|rows|, i requires 0 <= i < |rows| => rows[i].id)
  }

  /** Each distinct request id of the rows has a group. */
  lemma GroupsCoverIds(rows: seq<Row>, ids: seq<int>)
    requires ToSet(ids) == ToSet(IdsOf(rows))
    ensures forall k :: 0 <= k < |ids| ==> ids[k] in GroupsOf(rows)
  {
    forall k | 0 <= k < |ids| ensures ids[k] in GroupsOf(rows) {
      var id := ids[k];
      assert id in ToSet(IdsOf(rows));
      var j :| 0 <= j < |rows| && IdsOf(rows)[j] == id;
      GroupsOfKeys(rows, id);
      assert HasId(id)(rows[j]);
    }
  }

  /** The entries in the order of `keys`, one per key. */
  function EntriesFor(groups: map<int, Group>, keys: seq<int>): (r: seq<Entry>)
    requires forall k :: 0 <= k < |keys| ==> keys[k] in groups
    ensures |r| == |keys|
    ensures forall k :: 0 <= k < |keys| ==> r[k] == EntryOf(groups[keys[k]])
  {
    seq(|keys|, k requires 0 <= k < |keys| => EntryOf(groups[keys[k]]))
  }

  /** `Object.values` of an object keyed by request id lists the ids in increasing order. */
  function ObjectKeyOrder(rows: seq<Row>): (keys: seq<int>)
    ensures forall k :: 0 <= k < |keys| ==> keys[k] in GroupsOf(rows)
    ensures ToSet(keys) == ToSet(IdsOf(rows)) && Distinct(keys)
    ensures forall i, j :: 0 <= i < j < |keys| ==> keys[i] < keys[j]
  {
    var d := Dedupe(IdsOf(rows));
    var keys := SortInts(d);
    SortedDistinct(d, keys);
    GroupsCoverIds(rows, keys);
    keys
  }

  /** Sorting a list without repeats keeps it without repeats and with the same elements. */
  lemma SortedDistinct(d: seq<int>, keys: seq<int>)
    requires Distinct(d) && multiset(keys) == multiset(d)
    ensures Distinct(keys) && ToSet(keys) == ToSet(d)
  {
    DistinctPermutation(d, keys);
    assert forall x :: x in keys <==> x in multiset(keys);
    assert forall x :: x in d <==> x in multiset(d);
  }

  /** The group of a request carries that request's id. */
  lemma GroupId(rows: seq<Row>, id: int)
    requires id in GroupsOf(rows)
    ensures GroupsOf(rows)[id].id == id
  {
    GroupsOfMeaning(rows, id);
    assert HasId(id)(Find(rows, HasId(id)).value);
  }

  /** What `userHistory` answers, as the source writes it. */
  function HistoryAsWritten(rows: seq<Row>): (r: seq<Entry>)
    ensures |r| == |ObjectKeyOrder(rows)|
  {
    EntriesFor(GroupsOf(rows), ObjectKeyOrder(rows))
  }

  /** The history is empty exactly when the query returned no rows. */
  lemma NoRowsNoHistory(rows: seq<Row>)
    ensures HistoryAsWritten(rows) == [] <==> rows == []
  {
    var keys := ObjectKeyOrder(rows);
    if |rows| > 0 {
      assert IdsOf(rows)[0] in ToSet(IdsOf(rows));
      assert rows[0].id in ToSet(keys);
    }
  }

  /** The order of the query: each request where its first row is, so newest first. */
  function QueryOrder(rows: seq<Row>): (keys: seq<int>)
    ensures forall k :: 0 <= k < |keys| ==> keys[k] in GroupsOf(rows)
    ensures ToSet(keys) == ToSet(IdsOf(rows)) && Distinct(keys)
    ensures |rows| > 0 ==> |keys| > 0 && keys[0] == rows[0].id
  {
    var keys := Dedupe(IdsOf(rows));
    GroupsCoverIds(rows, keys);
    keys
  }

  /** What `userHistory` evidently means to answer: the groups in the order of the query. */
  function HistoryInQueryOrder(rows: seq<Row>): (r: seq<Entry>)
    ensures |r| == |QueryOrder(rows)|
  {
    EntriesFor(GroupsOf(rows), QueryOrder(rows))
  }

  /**
   * There is one entry per distinct request of the rows, each the group
   * of its request with its summary, listed by increasing request id.
   */
  lemma {:induction false} OneEntryPerRequest(rows: seq<Row>)
    ensures var r := HistoryAsWritten(rows);
      |r| == |ToSet(IdsOf(rows))|
      && (forall k :: 0 <= k < |r| ==> r[k].group.id == ObjectKeyOrder(rows)[k])
      && (forall k :: 0 <= k < |r| ==> r[k] == EntryOf(GroupsOf(rows)[r[k].group.id]))
      && forall i, j :: 0 <= i < j < |r| ==> r[i].group.id < r[j].group.id
  {
    var keys := ObjectKeyOrder(rows);
    CardToSet(keys);
    forall k | 0 <= k < |keys| ensures GroupsOf(rows)[keys[k]].id == keys[k] {
      GroupId(rows, keys[k]);
    }
  }

  /**
   * In the intended order there is also one entry per distinct request,
   * and the newest request, whose row comes first, leads.
   */
  lemma {:induction false} QueryOrderEntries(rows: seq<Row>)
    ensures var r := HistoryInQueryOrder(rows);
      |r| == |ToSet(IdsOf(rows))|
      && (forall k :: 0 <= k < |r| ==> r[k].group.id == QueryOrder(rows)[k])
      && (forall k :: 0 <= k < |r| ==> r[k] == EntryOf(GroupsOf(rows)[r[k].group.id]))
      && (|rows| > 0 ==> r[0].group.id == rows[0].id)
  {
    var keys := QueryOrder(rows);
    CardToSet(keys);
    forall k | 0 <= k < |keys| ensures GroupsOf(rows)[keys[k]].id == keys[k] {
      GroupId(rows, keys[k]);
    }
  }

  /**
   * Two requests, the newer (with the larger id) first as the query orders
   * them, come back oldest first: for instance id 5 then id 3 gives id 3 first.
   */
  lemma NewestFirstIsLost(newer: Row, older: Row)
    requires older.id < newer.id
    ensures |HistoryAsWritten([newer, older])| == 2
    ensures HistoryAsWritten([newer, older])[0].group.id == older.id
    ensures HistoryInQueryOrder([newer, older])[0].group.id == newer.id
  {
    AsWrittenSmallerFirst([newer, older]);
    QueryOrderEntries([newer, older]);
  }

  /** Of two requests, the one with the smaller id comes first in the grouped history. */
  lemma AsWrittenSmallerFirst(rows: seq<Row>)
    requires |rows| == 2 && rows[1].id < rows[0].id
    ensures |HistoryAsWritten(rows)| == 2 && HistoryAsWritten(rows)[0].group.id == rows[1].id
  {
    var keys := ObjectKeyOrder(rows);
    var small, large := rows[1].id, rows[0].id;
    assert IdsOf(rows) == [large, small];
    assert ToSet(keys) == {small, large};
    assert |{small, large}| == 2;
    CardToSet(keys);
    assert |keys| == 2;
    assert keys[0] in ToSet(keys) && keys[1] in ToSet(keys) && keys[0] < keys[1];
    assert keys[0] == small;
    OneEntryPerRequest(rows);
  }

  // ----- the handler -----

  /**
   * What `userHistory` answers: 401 without a user id, 500 from its own
   * `catch` when the query or the format's `toLowerCase` throws, or the
   * grouped history as CSV or JSON.
   */
  datatype HistoryReply = Unauthenticated | Failed | Json(entries: seq<Entry>) | Csv(entries: seq<Entry>)

  /**
   * `(req.query.format || 'json').toLowerCase()`: a falsy format is
   * `json`, a string is lowercased, and any other truthy value (an array
   * from a repeated `format`, say) has no `toLowerCase` and throws.
   */
  function FormatOf(format: JsValue): (r: Option<string>)
    ensures !Truthy(format) ==> r == Some("json")
    ensures format.Str? && Truthy(format) ==> r == Some(Lower(format.s))
    ensures r.None? <==> Truthy(format) && !format.Str?
  {
    if !Truthy(format) then
      assert Lower("json") == "json";
      Some("json")
    else if format.Str? then Some(Lower(format.s))
    else None
  }

  /** The format test `format === 'csv'`, where `format` was read without throwing. */
  predicate WantsCsv(format: JsValue) {
    FormatOf(format) == Some("csv")
  }

  /** A repeated `format` parameter is refused, whatever its values; `CSV` in any case selects CSV. */
  lemma FormatCases()
    ensures FormatOf(Arr([Str("csv"), Str("csv")])).None?
    ensures WantsCsv(Str("CSV")) && WantsCsv(Str("csv"))
    ensures !WantsCsv(Undefined) && FormatOf(Undefined) == Some("json")
  {
    assert Lower("CSV") == "csv";
    assert Lower("csv") == "csv";
    assert Lower("json")[0] == 'j';
  }

  /** The `forEach`: each row opens its request's group if needed and adds its resource. */
  method GroupRows(rows: seq<Row>) returns (groups: map<int, Group>)
    ensures groups == GroupsOf(rows)
    ensures forall id :: id in groups <==> id in ToSet(IdsOf(rows))
  {
    groups := map[];
    for i := 0 to |rows|
      invariant groups == GroupsOf(rows[..i])
    {
      var row := rows[i];
      if row.id !in groups {
        groups := groups[row.id := Header(row)];
      }
      if Truthy(row.resourceName) {
        var g := groups[row.id];
        groups := groups[row.id := g.(resources := g.resources + [ResourceOf(row)])];
      }
      assert rows[..i + 1][..i] == rows[..i];
    }
    assert rows[..|rows|] == rows;
    forall id ensures id in groups <==> id in ToSet(IdsOf(rows)) {
      GroupsOfKeys(rows, id);
      if id in groups {
        var k :| 0 <= k < |rows| && rows[k] == Find(rows, HasId(id)).value && HasId(id)(rows[k]);
        assert IdsOf(rows)[k] == id;
      }
      if id in ToSet(IdsOf(rows)) {
        var k :| 0 <= k < |rows| && IdsOf(rows)[k] == id;
        assert HasId(id)(rows[k]);
      }
    }
  }

  /** The `map` over the groups: each with its `resource_name`, in the order of `keys`. */
  method ListEntries(groups: map<int, Group>, keys: seq<int>) returns (entries: seq<Entry>)
    requires forall k :: 0 <= k < |keys| ==> keys[k] in groups
    ensures |entries| == |keys|
    ensures forall k :: 0 <= k < |keys| ==>
      (entries[k].group == groups[keys[k]]
       && entries[k].resourceName == Summary(groups[keys[k]].resources, groups[keys[k]].labName))
    ensures entries == EntriesFor(groups, keys)
  {
    entries := [];
    for k := 0 to |keys|
      invariant |entries| == k
      invariant forall j :: 0 <= j < k ==> entries[j] == EntryOf(groups[keys[j]])
    {
      var g := groups[keys[k]];
      entries := entries + [Entry(g, Summary(g.resources, g.labName))];
    }
    assert entries == EntriesFor(groups, keys);
  }

  /**
   * `userHistory`: 401 without a user id; then the query, whose failure
   * (`queryFails`, the database's refusal) is answered 500 by the
   * handler's own `catch`; then the rows grouped request by request (the
   * `forEach`) and listed with their summary (the `map`); last the format,
   * which answers 500 when it cannot be lowercased, CSV for `csv` and
   * JSON otherwise. The CSV parser refuses an empty list when no fields
   * are given, so a CSV of no requests is answered 500 too.
   */
  method UserHistory(userId: Option<int>, authUserId: Option<int>, queryUserId: JsValue, format: JsValue,
                     queryFails: bool, rows: seq<Row>) returns (reply: HistoryReply)
    ensures Uid(userId, authUserId, queryUserId).None? <==> reply.Unauthenticated?
    ensures reply.Failed? <==>
      Uid(userId, authUserId, queryUserId).Some?
      && (queryFails || FormatOf(format).None? || (WantsCsv(format) && HistoryAsWritten(rows) == []))
    ensures reply.Csv? <==>
      Uid(userId, authUserId, queryUserId).Some? && !queryFails && WantsCsv(format) && HistoryAsWritten(rows) != []
    ensures reply.Json? <==>
      Uid(userId, authUserId, queryUserId).Some? && !queryFails && FormatOf(format).Some? && !WantsCsv(format)
    ensures reply.Json? || reply.Csv? ==> reply.entries == HistoryAsWritten(rows)
  {
    if Uid(userId, authUserId, queryUserId).None? {
      return Unauthenticated;
    }
    if queryFails {
      return Failed;
    }
    var groups := GroupRows(rows);
    var entries := ListEntries(groups, ObjectKeyOrder(rows));
    assert entries == HistoryAsWritten(rows);
    match FormatOf(format)
    case None =>
      reply := Failed;
    case Some(f) =>
      if f == "csv" {
        reply := if entries == [] then Failed else Csv(entries);
      } else {
        reply := Json(entries);
      }
  }
}
