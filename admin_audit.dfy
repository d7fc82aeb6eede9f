/**
 * The audit log: the filtered, paged search over `audit_log` (JSON or CSV)
 * and the best-effort insertion of an audit entry.
 */
module AdminAudit {
  import opened Wrappers
  import opened Text
  import opened Js
  import opened Seqs
  import opened Sql

  /** A query parameter as sent to the database; `new Date(v)` is kept as the value it was built from. */
  datatype Param = Value(v: JsValue) | DateOf(source: JsValue)

  /** One optional filter of the search: the column it compares, how, whether it is present and its parameter. */
  datatype Filter = Filter(column: string, op: string, present: bool, param: Param)

  /** `al.<column> <op> $<slot>`. */
  datatype AuditCondition = AuditCondition(column: string, op: string, slot: nat)

  function AuditConditionText(c: AuditCondition): string {
    "al." + c.column + " " + c.op + " " + Placeholder(c.slot)
  }

  /** The five filters in the order the handler tests them: user, entity, action, from, to. */
  function Filters(userId: JsValue, entityType: JsValue, action: JsValue, from: JsValue, to: JsValue): (r: seq<Filter>)
    ensures |r| == 5
    ensures forall i :: 0 <= i < 5 ==> r[i].present == Truthy([userId, entityType, action, from, to][i])
  {
    [ Filter("actor_user_id", "=", Truthy(userId), Value(ToNumber(userId))),
      Filter("entity", "=", Truthy(entityType), Value(Str(ToJsString(entityType)))),
      Filter("action", "=", Truthy(action), Value(Str(ToJsString(action)))),
      Filter("created_at", ">=", Truthy(from), DateOf(from)),
      Filter("created_at", "<=", Truthy(to), DateOf(to)) ]
  }

  function IsPresent(): Filter -> bool { (f: Filter) => f.present }

  /** The conditions and parameters pushed so far. */
  datatype Part = Part(conditions: seq<AuditCondition>, params: seq<Param>)

  /** `if (x) { params.push(...); where.push(... $${params.length}) }`. */
  function PushPart(part: Part, f: Filter): Part {
    if f.present then Part(part.conditions + [AuditCondition(f.column, f.op, |part.params| + 1)], part.params + [f.param])
    else part
  }

  /** The filters pushed one after the other. */
  function BuildPart(fs: seq<Filter>): Part
    decreases |fs|
  {
    if |fs| == 0 then Part([], []) else PushPart(BuildPart(fs[..|fs| - 1]), fs[|fs| - 1])
  }

  /**
   * Each present filter adds exactly one condition and one parameter, in
   * filter order, and the `k`-th condition names `$k`, the parameter of
   * its own filter.
   */
  lemma {:induction false} BuildPartAligned(fs: seq<Filter>)
    ensures var p := BuildPart(fs);
      var kept := Keep(fs, IsPresent());
      |p.conditions| == |p.params| == |kept|
      && forall i :: 0 <= i < |kept| ==>
           p.conditions[i] == AuditCondition(kept[i].column, kept[i].op, i + 1) && p.params[i] == kept[i].param
    decreases |fs|
  {
    if |fs| > 0 {
      var init := fs[..|fs| - 1];
      var last := fs[|fs| - 1];
      BuildPartAligned(init);
      assert fs == init + [last];
      KeepSnoc(init, last, IsPresent());
    }
  }

  /** The search: conditions, parameters, and the placeholders `LIMIT` and `OFFSET` name. */
  datatype AuditQuery = AuditQuery(conditions: seq<AuditCondition>, params: seq<Param>, limitSlot: nat, offsetSlot: nat)

  /** `limit = 100` / `offset = 0` defaults of the destructuring, then `Number(x)`. */
  function NumberParam(v: JsValue, default: int): JsValue {
    if v.Undefined? then Num(default) else ToNumber(v)
  }

  /** The query `search` sends. */
  function SearchQuery(userId: JsValue, entityType: JsValue, action: JsValue, from: JsValue, to: JsValue,
                       limit: JsValue, offset: JsValue): AuditQuery
  {
    var part := BuildPart(Filters(userId, entityType, action, from, to));
    var params := part.params + [Value(NumberParam(limit, 100)), Value(NumberParam(offset, 0))];
    AuditQuery(part.conditions, params, |params| - 1, |params|)
  }

  /**
   * The shape of the search: the present filters' conditions on `$1..$n`
   * with their own parameters, then limit and offset as the last two
   * parameters, the ones `LIMIT` and `OFFSET` name; no `WHERE` without
   * filters.
   */
  lemma SearchQueryShape(userId: JsValue, entityType: JsValue, action: JsValue, from: JsValue, to: JsValue,
                         limit: JsValue, offset: JsValue)
    ensures var q := SearchQuery(userId, entityType, action, from, to, limit, offset);
      var kept := Keep(Filters(userId, entityType, action, from, to), IsPresent());
      |q.conditions| == |kept| && |q.params| == |kept| + 2
      && (forall i :: 0 <= i < |kept| ==>
            q.conditions[i] == AuditCondition(kept[i].column, kept[i].op, i + 1) && q.params[i] == kept[i].param)
      && q.limitSlot == |q.params| - 1 && q.offsetSlot == |q.params|
      && q.params[q.limitSlot - 1] == Value(NumberParam(limit, 100))
      && q.params[q.offsetSlot - 1] == Value(NumberParam(offset, 0))
  {
    BuildPartAligned(Filters(userId, entityType, action, from, to));
  }

  /** With no filter present there is no `WHERE` and only limit and offset are sent. */
  lemma NoFilterNoWhere(limit: JsValue, offset: JsValue)
    ensures var q := SearchQuery(Undefined, Undefined, Undefined, Undefined, Undefined, limit, offset);
      WhereClause(seq(|q.conditions|, i requires 0 <= i < |q.conditions| => AuditConditionText(q.conditions[i]))) == ""
      && q.params == [Value(NumberParam(limit, 100)), Value(NumberParam(offset, 0))]
  {
    var fs := Filters(Undefined, Undefined, Undefined, Undefined, Undefined);
    KeepNone(fs, IsPresent());
    BuildPartAligned(fs);
  }

  /** Pushes one filter's condition and parameter when it is present. */
  method PushFilter(part: Part, f: Filter) returns (part': Part)
    ensures part' == PushPart(part, f)
  {
    var conditions, params := part.conditions, part.params;
    if f.present {
      params := params + [f.param];
      conditions := conditions + [AuditCondition(f.column, f.op, |params|)];
    }
    part' := Part(conditions, params);
  }

  lemma PushedOne(fs: seq<Filter>, i: nat)
    requires i < |fs|
    ensures BuildPart(fs[..i + 1]) == PushPart(BuildPart(fs[..i]), fs[i])
  {
    assert fs[..i + 1][..i] == fs[..i];
  }

  /** The five `if (x) { params.push(x); conditions.push(...) }` steps of `search`, in order. */
  method PushFilters(fs: seq<Filter>) returns (part: Part)
    requires |fs| == 5
    ensures part == BuildPart(fs)
  {
    part := Part([], []);
    assert part == BuildPart(fs[..0]);
    part := PushFilter(part, fs[0]);
    PushedOne(fs, 0);
    part := PushFilter(part, fs[1]);
    PushedOne(fs, 1);
    part := PushFilter(part, fs[2]);
    PushedOne(fs, 2);
    part := PushFilter(part, fs[3]);
    PushedOne(fs, 3);
    part := PushFilter(part, fs[4]);
    PushedOne(fs, 4);
    assert fs[..5] == fs;
  }

  /** `search`: the five filters in order, then limit and offset. */
  method Search(userId: JsValue, entityType: JsValue, action: JsValue, from: JsValue, to: JsValue,
                limit: JsValue, offset: JsValue) returns (q: AuditQuery)
    ensures q == SearchQuery(userId, entityType, action, from, to, limit, offset)
  {
    var part := PushFilters(Filters(userId, entityType, action, from, to));
    var params := part.params + [Value(NumberParam(limit, 100))];
    var limIdx := |params|;
    params := params + [Value(NumberParam(offset, 0))];
    var offIdx := |params|;
    q := AuditQuery(part.conditions, params, limIdx, offIdx);
  }

  /** `String(format).toLowerCase() === 'csv'`; an absent format gives `"undefined"`, hence JSON. */
  predicate WantsCsv(format: JsValue) {
    Lower(ToJsString(format)) == "csv"
  }

  lemma CsvFormats()
    ensures WantsCsv(Str("csv")) && WantsCsv(Str("CSV")) && !WantsCsv(Undefined) && !WantsCsv(Str("json"))
  {
    assert Lower("CSV") == "csv";
    assert Lower("undefined")[0] == 'u';
    assert Lower("json")[0] == 'j';
  }

  // ----- insertAuditLog -----

  /** An `audit_log` row as inserted. */
  datatype AuditRow = AuditRow(moduleName: JsValue, entity: JsValue, entityId: JsValue, actorUserId: JsValue,
                               action: JsValue, afterSnapshot: Option<string>)

  /** The row built from `data.body`: the actor defaults to `null`, the snapshot is stored as JSON text when truthy. */
  function AuditRowOf(body: JsValue): (r: AuditRow)
    ensures r.moduleName == Get(body, "module") && r.entity == Get(body, "entity") && r.action == Get(body, "action")
    ensures r.entityId == Get(body, "entity_id")
    ensures r.actorUserId == if Truthy(Get(body, "actor_user_id")) then Get(body, "actor_user_id") else Null
    ensures r.afterSnapshot.None? <==> !Truthy(Get(body, "after_snapshot"))
    ensures r.afterSnapshot.Some? ==> Stringify(Get(body, "after_snapshot")) == r.afterSnapshot
  {
    var snapshot := Get(body, "after_snapshot");
    AuditRow(Get(body, "module"), Get(body, "entity"), Get(body, "entity_id"), Or(Get(body, "actor_user_id"), Null),
             Get(body, "action"), if Truthy(snapshot) then Stringify(snapshot) else None)
  }

  /** The `audit_log` table. */
  class AuditLog {
    var rows: seq<AuditRow>

    constructor ()
      ensures rows == []
    {
      rows := [];
    }

    /**
     * `insertAuditLog`: never throws. A missing `data.body` (reading its
     * fields throws) or a failing insert (`insertFails`) is logged and
     * swallowed, leaving the table as it was; otherwise one row is
     * appended.
     */
    method InsertAuditLog(data: JsValue, insertFails: bool)
      modifies this
      ensures Nullish(Get(data, "body")) || insertFails ==> rows == old(rows)
      ensures !Nullish(Get(data, "body")) && !insertFails ==> rows == old(rows) + [AuditRowOf(Get(data, "body"))]
    {
      var body := Get(data, "body");
      if Nullish(body) || insertFails {
        return;
      }
      rows := rows + [AuditRowOf(body)];
    }
  }
}
