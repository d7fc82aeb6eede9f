/**
 * User administration: the configured e-mail domains, the filtered user
 * listing, creation, partial update, and the permission lists of the four
 * roles.
 */
module AdminUsers {
  import opened Wrappers
  import opened Text
  import opened Js
  import opened Seqs
  import opened Order
  import opened Sql
  import opened Auth

  // ----- allowed domains -----

  const DefaultDomainList := "estudiantec.cr,itcr.ac.cr,tec.ac.cr"

  /** `s => s.trim()` over a list. */
  function TrimAll(parts: seq<string>): (r: seq<string>)
    ensures |r| == |parts|
    ensures forall i :: 0 <= i < |parts| ==> r[i] == Trim(parts[i])
  {
    seq(|parts|, i requires 0 <= i < |parts| => Trim(parts[i]))
  }

  function NonEmpty(): string -> bool { (s: string) => s != "" }

  /**
   * `ALLOWED`: the configured list (the default one when the setting is
   * absent or empty) split at commas, each entry trimmed, empty entries
   * dropped.
   */
  function Allowed(configured: Option<string>): (r: seq<string>)
    ensures forall i :: 0 <= i < |r| ==> r[i] != "" && Trim(r[i]) == r[i]
  {
    var text := if configured.Some? && configured.value != "" then configured.value else DefaultDomainList;
    var r := Keep(TrimAll(Split(text, ',')), NonEmpty());
    forall i | 0 <= i < |r| ensures r[i] != "" && Trim(r[i]) == r[i] {
      assert NonEmpty()(r[i]);
      TrimIdempotent(r[i]);
    }
    r
  }

  /** Three comma-free, trimmed, non-empty entries written between commas come back as they are. */
  lemma AllowedOfThree(a: string, b: string, c: string)
    requires ',' !in a && ',' !in b && ',' !in c
    requires |a| > 0 && !IsWs(a[0]) && !IsWs(a[|a| - 1])
    requires |b| > 0 && !IsWs(b[0]) && !IsWs(b[|b| - 1])
    requires |c| > 0 && !IsWs(c[0]) && !IsWs(c[|c| - 1])
    ensures Keep(TrimAll(Split(a + [','] + (b + [','] + c), ',')), NonEmpty()) == [a, b, c]
  {
    SplitAt(a, b + [','] + c, ',');
    SplitAt(b, c, ',');
    SplitNoSep(c, ',');
    assert Split(a + [','] + (b + [','] + c), ',') == [a, b, c];
    TrimFixed(a);
    TrimFixed(b);
    TrimFixed(c);
    assert TrimAll([a, b, c]) == [a, b, c];
    KeepAll([a, b, c], NonEmpty());
  }

  /** Without configuration, the three institutional domains in their written order. */
  lemma DefaultAllowed()
    ensures Allowed(None) == ["estudiantec.cr", "itcr.ac.cr", "tec.ac.cr"]
  {
    var a, b, c := "estudiantec.cr", "itcr.ac.cr", "tec.ac.cr";
    assert DefaultDomainList == a + [','] + (b + [','] + c);
    AllowedOfThree(a, b, c);
  }

  /** `emailDomainOk` of this controller: the same test against `ALLOWED`. */
  predicate AdminDomainOk(email: JsValue, configured: Option<string>) {
    DomainOk(email, Allowed(configured))
  }

  // ----- list -----

  /** A condition of the listing, with the number of the placeholder it reads. */
  datatype UserCondition = NameOrEmailLike(slot: nat) | RoleIs(slot: nat) | ActiveIs(slot: nat)

  function UserConditionText(c: UserCondition): string {
    match c
    case NameOrEmailLike(k) => "(LOWER(full_name) LIKE " + Placeholder(k) + " OR LOWER(email) LIKE " + Placeholder(k) + ")"
    case RoleIs(k) => "role = " + Placeholder(k)
    case ActiveIs(k) => "is_active = " + Placeholder(k)
  }

  /** The listing: its conditions, its parameters and the placeholders of `LIMIT` and `OFFSET`. */
  datatype UsersQuery = UsersQuery(conditions: seq<UserCondition>, params: seq<JsValue>,
                                   limitSlot: nat, offsetSlot: nat)

  /** A user row as the filters see it. */
  datatype UserView = UserView(fullName: string, email: string, role: string, isActive: bool)

  /** `%${x}%`. */
  function LikePattern(x: string): (r: string)
    ensures |r| == |x| + 2 && r[0] == '%' && r[|r| - 1] == '%' && r[1..|r| - 1] == x
  {
    "%" + x + "%"
  }

  /** `text LIKE '%x%'` for a pattern without other wildcards: `x` occurs in `text`. */
  predicate LikeInfix(text: string, pattern: string) {
    |pattern| >= 2 && pattern[0] == '%' && pattern[|pattern| - 1] == '%'
    && Contains(text, pattern[1..|pattern| - 1])
  }

  /**
   * What a condition asks of a user, reading its parameter as `$k` does: `params[k - 1]`.
   * The select list's alias `r.name as role` is not visible in `WHERE`, so `role = $k`
   * names a column of the joined tables; the model reads it as the user's role name,
   * `u.role` below, the name of the `role` row the user's `role_id` points to.
   */
  predicate UserConditionHolds(c: UserCondition, params: seq<JsValue>, u: UserView) {
    1 <= c.slot <= |params| &&
    match c
    case NameOrEmailLike(k) =>
      params[k - 1].Str? && (LikeInfix(Lower(u.fullName), params[k - 1].s) || LikeInfix(Lower(u.email), params[k - 1].s))
    case RoleIs(k) => params[k - 1] == Str(u.role)
    case ActiveIs(k) => params[k - 1] == Bool(u.isActive)
  }

  /** The `WHERE` clause: every condition holds. */
  predicate UsersSelects(q: UsersQuery, u: UserView) {
    forall i :: 0 <= i < |q.conditions| ==> UserConditionHolds(q.conditions[i], q.params, u)
  }

  /** `Number(x)` of a query-string value, or the default number when it is absent. */
  function NumberOr(v: Option<string>, default: int): JsValue {
    if v.Some? then ToNumber(Str(v.value)) else Num(default)
  }

  predicate TruthyText(v: Option<string>) { v.Some? && v.value != "" }

  /** What the three filters of `list` ask of a user. */
  predicate Wanted(search: Option<string>, role: Option<string>, active: Option<string>, u: UserView) {
    SearchWanted(search, u) && (TruthyText(role) ==> u.role == role.value)
    && (active.Some? ==> u.isActive == (active.value == "true"))
  }

  predicate SearchWanted(search: Option<string>, u: UserView) {
    TruthyText(search) ==> Contains(Lower(u.fullName), Lower(search.value)) || Contains(Lower(u.email), Lower(search.value))
  }

  /** The conditions pushed so far, with the parameters pushed so far. */
  datatype Part = Part(conditions: seq<UserCondition>, params: seq<JsValue>)

  /** The search condition and its parameter, when the search text is non-empty. */
  function SearchPart(search: Option<string>): Part {
    if TruthyText(search) then Part([NameOrEmailLike(1)], [Str(LikePattern(Lower(search.value)))]) else Part([], [])
  }

  /** Adds the role condition after `part`, reading the next placeholder. */
  function RolePart(part: Part, role: Option<string>): Part {
    if TruthyText(role) then Part(part.conditions + [RoleIs(|part.params| + 1)], part.params + [Str(role.value)]) else part
  }

  /** Adds the activity condition after `part`, reading the next placeholder. */
  function ActivePart(part: Part, active: Option<string>): Part {
    if active.Some? then Part(part.conditions + [ActiveIs(|part.params| + 1)], part.params + [Bool(active.value == "true")])
    else part
  }

  function FiltersPart(search: Option<string>, role: Option<string>, active: Option<string>): Part {
    ActivePart(RolePart(SearchPart(search), role), active)
  }

  /** The query `list` builds, step by step as the handler pushes. */
  function ListQuery(search: Option<string>, role: Option<string>, active: Option<string>,
                     limit: Option<string>, offset: Option<string>): UsersQuery
  {
    var part := FiltersPart(search, role, active);
    var params := part.params + [NumberOr(limit, 50), NumberOr(offset, 0)];
    UsersQuery(part.conditions, params, |params| - 1, |params|)
  }

  /** Every condition of a part reads its own placeholder, the one at its position. */
  predicate SlotsInOrder(part: Part) {
    |part.conditions| == |part.params| && forall i :: 0 <= i < |part.conditions| ==> part.conditions[i].slot == i + 1
  }

  /** Every condition of a part holds for `u`. */
  predicate PartHolds(part: Part, u: UserView) {
    forall i :: 0 <= i < |part.conditions| ==> UserConditionHolds(part.conditions[i], part.params, u)
  }

  lemma LikeSelects(text: string, x: string)
    ensures LikeInfix(text, LikePattern(x)) <==> Contains(text, x)
  {
    var p := LikePattern(x);
  }

  lemma SearchPartSelects(search: Option<string>, u: UserView)
    ensures SlotsInOrder(SearchPart(search))
    ensures PartHolds(SearchPart(search), u) <==> SearchWanted(search, u)
  {
    if TruthyText(search) {
      var x := Lower(search.value);
      var p := SearchPart(search);
      LikeSelects(Lower(u.fullName), x);
      LikeSelects(Lower(u.email), x);
      assert p.params[0] == Str(LikePattern(x));
      assert |p.conditions| == 1 && p.conditions[0] == NameOrEmailLike(1);
      assert PartHolds(p, u) <==> UserConditionHolds(p.conditions[0], p.params, u);
    }
  }

  /** A condition reading a placeholder already present is unaffected by later parameters. */
  lemma HoldsExtended(c: UserCondition, params: seq<JsValue>, extra: seq<JsValue>, u: UserView)
    requires c.slot <= |params|
    ensures UserConditionHolds(c, params + extra, u) <==> UserConditionHolds(c, params, u)
  {
    if 1 <= c.slot {
      assert (params + extra)[c.slot - 1] == params[c.slot - 1];
    }
  }

  /** Adding one condition with its parameter keeps the slots in order and conjoins what it asks. */
  lemma PartSnoc(part: Part, c: UserCondition, v: JsValue, u: UserView)
    requires SlotsInOrder(part) && c.slot == |part.params| + 1
    ensures SlotsInOrder(Part(part.conditions + [c], part.params + [v]))
    ensures PartHolds(Part(part.conditions + [c], part.params + [v]), u)
        <==> PartHolds(part, u) && UserConditionHolds(c, part.params + [v], u)
  {
    var next := Part(part.conditions + [c], part.params + [v]);
    forall i | 0 <= i < |part.conditions|
      ensures next.conditions[i] == part.conditions[i]
      ensures UserConditionHolds(next.conditions[i], next.params, u) <==> UserConditionHolds(part.conditions[i], part.params, u)
    {
      HoldsExtended(part.conditions[i], part.params, [v], u);
    }
    assert next.conditions[|part.conditions|] == c;
  }

  /** The filters push their conditions on consecutive placeholders, and select what they are meant to. */
  lemma FiltersPartSelects(search: Option<string>, role: Option<string>, active: Option<string>, u: UserView)
    ensures SlotsInOrder(FiltersPart(search, role, active))
    ensures |FiltersPart(search, role, active).conditions|
            == (if TruthyText(search) then 1 else 0) + (if TruthyText(role) then 1 else 0) + (if active.Some? then 1 else 0)
    ensures PartHolds(FiltersPart(search, role, active), u) <==> Wanted(search, role, active, u)
  {
    var s := SearchPart(search);
    SearchPartSelects(search, u);
    var r := RolePart(s, role);
    if TruthyText(role) {
      PartSnoc(s, RoleIs(|s.params| + 1), Str(role.value), u);
    }
    assert PartHolds(r, u) <==> SearchWanted(search, u) && (TruthyText(role) ==> u.role == role.value);
    if active.Some? {
      PartSnoc(r, ActiveIs(|r.params| + 1), Bool(active.value == "true"), u);
    }
  }

  /** The filters of `list` select exactly the users they are meant to. */
  lemma ListQuerySelects(search: Option<string>, role: Option<string>, active: Option<string>,
                         limit: Option<string>, offset: Option<string>, u: UserView)
    ensures UsersSelects(ListQuery(search, role, active, limit, offset), u) <==> Wanted(search, role, active, u)
  {
    var a := FiltersPart(search, role, active);
    FiltersPartSelects(search, role, active, u);
    var extra := [NumberOr(limit, 50), NumberOr(offset, 0)];
    var q := ListQuery(search, role, active, limit, offset);
    assert q.conditions == a.conditions && q.params == a.params + extra;
    forall i | 0 <= i < |a.conditions|
      ensures UserConditionHolds(q.conditions[i], q.params, u) <==> UserConditionHolds(a.conditions[i], a.params, u)
    {
      HoldsExtended(a.conditions[i], a.params, extra, u);
    }
  }

  /** The shape of the listing: one condition per filter present, each on its own placeholder, then limit and offset; with no filter there is no `WHERE`. */
  lemma ListQueryShape(search: Option<string>, role: Option<string>, active: Option<string>,
                       limit: Option<string>, offset: Option<string>)
    ensures var q := ListQuery(search, role, active, limit, offset);
      && |q.conditions| == (if TruthyText(search) then 1 else 0) + (if TruthyText(role) then 1 else 0)
                           + (if active.Some? then 1 else 0)
      && |q.params| == |q.conditions| + 2
      && (forall i :: 0 <= i < |q.conditions| ==> q.conditions[i].slot == i + 1)
      && q.limitSlot == |q.params| - 1 && q.offsetSlot == |q.params|
      && q.params[q.limitSlot - 1] == NumberOr(limit, 50) && q.params[q.offsetSlot - 1] == NumberOr(offset, 0)
    ensures var q := ListQuery(search, role, active, limit, offset);
      |q.conditions| == 0 ==>
        WhereClause(seq(|q.conditions|, i requires 0 <= i < |q.conditions| => UserConditionText(q.conditions[i]))) == ""
  {
    var a := FiltersPart(search, role, active);
    FiltersPartSelects(search, role, active, UserView("", "", "", false));
    var q := ListQuery(search, role, active, limit, offset);
    assert q.conditions == a.conditions && q.params == a.params + [NumberOr(limit, 50), NumberOr(offset, 0)];
    assert q.limitSlot == |a.params| + 1 && q.params[|a.params|] == NumberOr(limit, 50);
  }

  /** Pushes the role condition and its parameter when the role filter is present. */
  method PushRole(part: Part, role: Option<string>) returns (part': Part)
    ensures part' == RolePart(part, role)
  {
    var conditions, params := part.conditions, part.params;
    if TruthyText(role) {
      params := params + [Str(role.value)];
      conditions := conditions + [RoleIs(|params|)];
    }
    part' := Part(conditions, params);
  }

  /** Pushes the activity condition and its parameter when the activity filter is present. */
  method PushActive(part: Part, active: Option<string>) returns (part': Part)
    ensures part' == ActivePart(part, active)
  {
    var conditions, params := part.conditions, part.params;
    if active.Some? {
      params := params + [Bool(active.value == "true")];
      conditions := conditions + [ActiveIs(|params|)];
    }
    part' := Part(conditions, params);
  }

  /**
   * `list`: each filter present adds its condition and its parameter, the
   * search text (lower-cased, between `%`) serving both name and e-mail;
   * `limit` (default 50) and `offset` (default 0) are always the last two
   * parameters and the ones `LIMIT` and `OFFSET` name (`ListQueryShape`).
   * What the filters select is `ListQuerySelects`.
   */
  method ListUsersQuery(search: Option<string>, role: Option<string>, active: Option<string>,
                        limit: Option<string>, offset: Option<string>) returns (q: UsersQuery)
    ensures q == ListQuery(search, role, active, limit, offset)
  {
    var params: seq<JsValue> := [];
    var conditions: seq<UserCondition> := [];
    if TruthyText(search) {
      params := params + [Str(LikePattern(Lower(search.value)))];
      conditions := conditions + [NameOrEmailLike(|params|)];
    }
    var part := Part(conditions, params);
    assert part == SearchPart(search);
    part := PushRole(part, role);
    part := PushActive(part, active);
    params := part.params + [NumberOr(limit, 50)];
    var limIdx := |params|;
    params := params + [NumberOr(offset, 0)];
    var offIdx := |params|;
    assert params == part.params + [NumberOr(limit, 50), NumberOr(offset, 0)];
    q := UsersQuery(part.conditions, params, limIdx, offIdx);
  }

  // ----- create -----

  datatype InsertResult = Inserted(id: int, createdAt: int) | UniqueViolation | OtherError

  datatype CreateOutcome =
    | CreateRejected(error: string)
    | Created(user: NewUser, reply: UserReply)
    | CreateFailed

  const AdminDomainError := "Correo debe ser institucional"
  const EmailTakenError := "Email ya registrado"

  /**
   * `create`: the same two guards as self-registration (answered 400 before
   * `BEGIN`), with this controller's domain list; the e-mail is stored as
   * `String(email).toLowerCase()`; a unique violation (`23505`) is
   * answered 400, any other failure is passed on.
   */
  function CreateUser(input: RegisterInput, configured: Option<string>, found: Option<int>, insert: InsertResult)
    : (r: CreateOutcome)
    ensures !RequiredPresent(input) ==> r == CreateRejected(MissingFieldsError)
    ensures RequiredPresent(input) && !AdminDomainOk(input.email, configured) ==> r == CreateRejected(AdminDomainError)
    ensures RequiredPresent(input) && AdminDomainOk(input.email, configured) ==>
      (r.CreateRejected? <==> insert.UniqueViolation?) && (r.CreateRejected? ==> r.error == EmailTakenError)
    ensures r.Created? <==> RequiredPresent(input) && AdminDomainOk(input.email, configured) && insert.Inserted?
    ensures r.Created? ==>
      r.user == NewUserRow(input, found, Lower(ToJsString(input.email)))
      && r.reply == ReplyOf(r.user, insert.id, input.role, insert.createdAt)
  {
    if !RequiredPresent(input) then CreateRejected(MissingFieldsError)
    else if !AdminDomainOk(input.email, configured) then CreateRejected(AdminDomainError)
    else
      var u := NewUserRow(input, found, Lower(ToJsString(input.email)));
      match insert
      case Inserted(id, at) => Created(u, ReplyOf(u, id, input.role, at))
      case UniqueViolation => CreateRejected(EmailTakenError)
      case OtherError => CreateFailed
  }

  /** An unknown role is created as role 1 and the stored e-mail is lower-case. */
  lemma CreateDefaults(input: RegisterInput, configured: Option<string>, insert: InsertResult)
    requires CreateUser(input, configured, None, insert).Created?
    ensures var u := CreateUser(input, configured, None, insert).user;
      u.roleId == 1 && Lower(u.email) == u.email
  {
    LowerIdempotent(ToJsString(input.email));
  }

  // ----- update -----

  /** The body keys `update` maps to columns; `student_id` and `teacher_code` both map to `id_code`. */
  function UserColumn(key: string): Option<string> {
    if key == "full_name" then Some("full_name")
    else if key == "student_id" then Some("id_code")
    else if key == "teacher_code" then Some("id_code")
    else if key == "program_department" then Some("career_or_dept")
    else if key == "phone" then Some("phone")
    else if key == "is_active" then Some("is_active")
    else None
  }

  datatype UserUpdate = NothingToUpdate | UpdateUser(sets: seq<string>, args: seq<JsValue>, idSlot: nat)

  /**
   * `update`: each mapped key of the body, in body order, becomes
   * `column = $k` with its value as the `k`-th parameter (values are sent
   * as they are); none gives 400; the id is the last parameter and the
   * one the `WHERE` names.
   */
  method UpdateUserQuery(id: JsValue, payload: seq<Member>) returns (u: UserUpdate)
    ensures u.NothingToUpdate? <==> |Mapped(payload, UserColumn)| == 0
    ensures u.UpdateUser? ==>
      var mapped := Mapped(payload, UserColumn);
      |u.sets| == |mapped| && |u.args| == |mapped| + 1
      && u.idSlot == |u.args| && u.args[u.idSlot - 1] == id
      && forall i :: 0 <= i < |mapped| ==>
           u.sets[i] == Assignment(UserColumn(mapped[i].key).value, i + 1) && u.args[i] == mapped[i].value
  {
    var sets, params := BuildAssignments(payload, UserColumn, false);
    ghost var mapped := Mapped(payload, UserColumn);
    assert forall i :: 0 <= i < |params| ==> params[i] == Sent(mapped[i].value, false) == mapped[i].value;
    if |sets| == 0 {
      return NothingToUpdate;
    }
    u := UpdateUser(sets, params + [id], |params| + 1);
    assert forall i :: 0 <= i < |params| ==> u.args[i] == params[i];
  }

  /**
   * A body that carries both `student_id` and `teacher_code`, as the user
   * records this controller answers with do, gives two assignments to
   * `id_code`, which PostgreSQL refuses ("multiple assignments to same
   * column").
   */
  lemma IdCodeAssignedTwice()
    ensures var payload := [Member("student_id", Str("2019")), Member("teacher_code", Str("2019"))];
      var mapped := Mapped(payload, UserColumn);
      |mapped| == 2 && UserColumn(mapped[0].key) == UserColumn(mapped[1].key) == Some("id_code")
  {
    var payload := [Member("student_id", Str("2019")), Member("teacher_code", Str("2019"))];
    IdCodeKeys();
    assert payload[0].key == "student_id" && payload[1].key == "teacher_code";
    assert HasColumn(UserColumn)(payload[0]) && HasColumn(UserColumn)(payload[1]);
    KeepAll(payload, HasColumn(UserColumn));
  }

  /** Both identification keys name the `id_code` column. */
  lemma IdCodeKeys()
    ensures UserColumn("student_id") == Some("id_code") && UserColumn("teacher_code") == Some("id_code")
  {
    assert |"teacher_code"| == 12 && |"full_name"| == 9 && |"student_id"| == 10;
  }

  /** The members whose column no earlier member has claimed, in body order. */
  function FirstPerColumn(payload: seq<Member>, claimed: set<string>): (r: seq<Member>)
    ensures forall i :: 0 <= i < |r| ==> UserColumn(r[i].key).Some? && UserColumn(r[i].key).value !in claimed
    ensures forall i, j :: 0 <= i < j < |r| ==> UserColumn(r[i].key) != UserColumn(r[j].key)
    decreases |payload|
  {
    if |payload| == 0 then []
    else
      var col := UserColumn(payload[0].key);
      var r := if col.None? || col.value in claimed then FirstPerColumn(payload[1..], claimed)
               else [payload[0]] + FirstPerColumn(payload[1..], claimed + {col.value});
      assert forall i :: 1 <= i < |payload| ==> payload[i] == payload[1..][i - 1];
      r
  }

  /** One step of `FirstPerColumn`: the first member is kept exactly when its column is known and unclaimed. */
  lemma FirstPerColumnStep(payload: seq<Member>, claimed: set<string>)
    requires |payload| > 0
    ensures var col := UserColumn(payload[0].key);
      FirstPerColumn(payload, claimed)
        == if col.None? || col.value in claimed then FirstPerColumn(payload[1..], claimed)
           else [payload[0]] + FirstPerColumn(payload[1..], claimed + {col.value})
  {
  }

  /** Every column some member names, and no earlier one claimed, is set by a chosen member. */
  lemma {:induction false} FirstPerColumnCovers(payload: seq<Member>, claimed: set<string>, i: nat)
    requires i < |payload| && UserColumn(payload[i].key).Some? && UserColumn(payload[i].key).value !in claimed
    ensures exists j :: 0 <= j < |FirstPerColumn(payload, claimed)|
                      && UserColumn(FirstPerColumn(payload, claimed)[j].key) == UserColumn(payload[i].key)
    decreases |payload|
  {
    var r := FirstPerColumn(payload, claimed);
    var col := UserColumn(payload[0].key);
    FirstPerColumnStep(payload, claimed);
    if i == 0 {
      assert r[0] == payload[0];
      assert UserColumn(r[0].key) == UserColumn(payload[i].key);
    } else {
      assert payload[i] == payload[1..][i - 1];
      if col.None? || col.value in claimed {
        assert r == FirstPerColumn(payload[1..], claimed);
        FirstPerColumnCovers(payload[1..], claimed, i - 1);
      } else if UserColumn(payload[i].key) == col {
        assert r[0] == payload[0];
        assert UserColumn(r[0].key) == UserColumn(payload[i].key);
      } else {
        FirstPerColumnCovers(payload[1..], claimed + {col.value}, i - 1);
        var rest := FirstPerColumn(payload[1..], claimed + {col.value});
        var j :| 0 <= j < |rest| && UserColumn(rest[j].key) == UserColumn(payload[i].key);
        assert r[j + 1] == rest[j];
        assert UserColumn(r[j + 1].key) == UserColumn(payload[i].key);
      }
    }
  }

  /**
   * `update` as evidently intended: a column named by several keys is set
   * once, from the first of them. Every column the body names is still
   * set, and none twice.
   */
  method UpdateUserQueryOnce(id: JsValue, payload: seq<Member>) returns (u: UserUpdate)
    ensures u.NothingToUpdate? <==> |FirstPerColumn(payload, {})| == 0
    ensures u.UpdateUser? ==>
      var chosen := FirstPerColumn(payload, {});
      |u.sets| == |chosen| && |u.args| == |chosen| + 1
      && u.idSlot == |u.args| && u.args[u.idSlot - 1] == id
      && forall i :: 0 <= i < |chosen| ==>
           u.sets[i] == Assignment(UserColumn(chosen[i].key).value, i + 1) && u.args[i] == chosen[i].value
  {
    var chosen := FirstPerColumn(payload, {});
    KeepAll(chosen, HasColumn(UserColumn));
    var sets, params := BuildAssignments(chosen, UserColumn, false);
    if |sets| == 0 {
      return NothingToUpdate;
    }
    params := params + [id];
    u := UpdateUser(sets, params, |params|);
  }

  /** With the corrected builder, the body that breaks `update` sets `id_code` once. */
  lemma IdCodeAssignedOnce()
    ensures var payload := [Member("student_id", Str("2019")), Member("teacher_code", Str("2019"))];
      FirstPerColumn(payload, {}) == [payload[0]]
  {
    var payload := [Member("student_id", Str("2019")), Member("teacher_code", Str("2019"))];
    assert payload[1..] == [payload[1]] && payload[1..][1..] == [];
  }

  // ----- roles and permissions -----

  const Roles: seq<string> := ["ADMIN", "TECNICO", "DOCENTE", "ESTUDIANTE"]

  datatype RolePermissions = RolePermissions(role: string, permissions: seq<string>)

  /**
   * `rolesList`: the four roles in their fixed order, each with its stored
   * permissions (sorted, as `array_agg(... ORDER BY permission)` gives
   * them) or `[]` when it has none.
   */
  function RolesList(stored: map<string, seq<string>>): (r: seq<RolePermissions>)
    ensures |r| == 4
    ensures forall i :: 0 <= i < 4 ==> r[i].role == Roles[i]
    ensures forall i :: 0 <= i < 4 ==>
      r[i].permissions == if Roles[i] in stored then SortStrings(stored[Roles[i]]) else []
  {
    seq(4, i requires 0 <= i < 4 =>
      RolePermissions(Roles[i], if Roles[i] in stored then SortStrings(stored[Roles[i]]) else []))
  }

  /** The entries of `permissions` that are non-empty strings, in order. */
  function PermissionStrings(entries: seq<JsValue>): (r: seq<string>)
  {
    if |entries| == 0 then []
    else
      var rest := PermissionStrings(entries[1..]);
      if entries[0].Str? && entries[0].s != "" then [entries[0].s] + rest else rest
  }

  /** The saved permissions are exactly the non-empty strings among the entries. */
  lemma {:induction false} PermissionStringsContents(entries: seq<JsValue>)
    ensures |PermissionStrings(entries)| <= |entries|
    ensures forall p :: p in PermissionStrings(entries) <==> p != "" && Str(p) in entries
  {
    if |entries| > 0 {
      PermissionStringsContents(entries[1..]);
      assert entries == [entries[0]] + entries[1..];
    }
  }

  /** The insert loop of `setRolePermissions`: skips falsy and non-string entries. */
  method NonEmptyStrings(entries: seq<JsValue>) returns (rows: seq<string>)
    ensures rows == PermissionStrings(entries)
  {
    rows := [];
    for i := 0 to |entries|
      invariant rows + PermissionStrings(entries[i..]) == PermissionStrings(entries)
    {
      PermissionStringsAt(entries, i);
      var p := entries[i];
      if !Truthy(p) || !p.Str? {
        continue;
      }
      assert rows + [p.s] + PermissionStrings(entries[i + 1..]) == rows + ([p.s] + PermissionStrings(entries[i + 1..]));
      rows := rows + [p.s];
    }
    assert entries[|entries|..] == [];
  }

  lemma PermissionStringsAt(entries: seq<JsValue>, i: nat)
    requires i < |entries|
    ensures PermissionStrings(entries[i..])
            == (if entries[i].Str? && entries[i].s != "" then [entries[i].s] else []) + PermissionStrings(entries[i + 1..])
  {
    assert entries[i..][1..] == entries[i + 1..];
  }

  /** The four roles are different names. */
  lemma RolesDistinct()
    ensures forall i, j :: 0 <= i < j < 4 ==> Roles[i] != Roles[j]
  {
    forall i, j | 0 <= i < j < 4 ensures Roles[i] != Roles[j] {
      assert Roles[i][0] == "ATDE"[i] && Roles[j][0] == "ATDE"[j];
    }
  }

  datatype PermissionsReply = BadRole | NotAnArray | Saved(role: string, permissions: seq<string>)

  /** The `role_permissions` table, as the permissions stored for each role. */
  class RoleStore {
    var stored: map<string, seq<string>>

    constructor ()
      ensures stored == map[]
    {
      stored := map[];
    }

    /**
     * `setRolePermissions`: the role is `String(role || '').toUpperCase()`
     * and must be one of the four; `permissions` must be an array; then
     * the role's rows are deleted and one row inserted per entry that is a
     * non-empty string. Other roles keep theirs.
     */
    method SetRolePermissions(roleParam: JsValue, permissions: JsValue) returns (reply: PermissionsReply)
      modifies this
      ensures var role := Upper(ToJsString(Or(roleParam, Str(""))));
        (reply.BadRole? <==> role !in Roles)
        && (reply.NotAnArray? <==> role in Roles && !permissions.Arr?)
        && (reply.Saved? ==>
              reply.role == role
              && stored == old(stored)[role := PermissionStrings(permissions.elems)]
              && reply.permissions == SortStrings(PermissionStrings(permissions.elems)))
        && (!reply.Saved? ==> stored == old(stored))
    {
      var role := Upper(ToJsString(Or(roleParam, Str(""))));
      if role !in Roles {
        return BadRole;
      }
      if !permissions.Arr? {
        return NotAnArray;
      }
      var rows := NonEmptyStrings(permissions.elems);
      stored := stored[role := rows];
      reply := Saved(role, SortStrings(rows));
    }
  }

  /** After saving, the listing shows the role with exactly the saved strings and every other role unchanged. */
  lemma SavedPermissionsAreListed(stored: map<string, seq<string>>, k: nat, entries: seq<JsValue>)
    requires k < 4
    ensures var after := RolesList(stored[Roles[k] := PermissionStrings(entries)]);
      after[k].permissions == SortStrings(PermissionStrings(entries))
      && forall i :: 0 <= i < 4 && i != k ==> after[i] == RolesList(stored)[i]
  {
    RolesDistinct();
  }
}
