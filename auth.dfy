/**
 * Accounts: the institutional e-mail test, self-registration and the
 * lookup by e-mail used at login. Password hashing is a library call and
 * is not modelled; the hash only appears as "present".
 */
module Auth {
  import opened Wrappers
  import opened Text
  import opened Js
  import opened Seqs

  /** The domains self-registration accepts. */
  const AuthDomains: seq<string> := ["estudiantec.cr", "tec.ac.cr", "itcr.ac.cr"]

  /** The position of the last `@`, if any. */
  function LastAt(s: string): (r: Option<nat>)
    ensures r.None? <==> '@' !in s
    ensures r.Some? ==> r.value < |s| && s[r.value] == '@' && '@' !in s[r.value + 1..]
  {
    if |s| == 0 then None
    else if s[|s| - 1] == '@' then Some(|s| - 1)
    else
      var r := LastAt(s[..|s| - 1]);
      assert s == s[..|s| - 1] + [s[|s| - 1]];
      if r.Some? then
        assert s[r.value + 1..] == s[..|s| - 1][r.value + 1..] + [s[|s| - 1]];
        r
      else r
  }

  /**
   * What `/@([^@]+)$/` captures: the text after the last `@`, provided
   * there is at least one character after it.
   */
  function EmailDomain(s: string): (r: Option<string>)
    ensures r.None? <==> '@' !in s || s[|s| - 1] == '@'
    ensures r.Some? ==> r.value != "" && '@' !in r.value && EndsWith(s, "@" + r.value)
  {
    match LastAt(s)
    case None => None
    case Some(j) =>
      if j == |s| - 1 then None
      else
        assert s[|s| - |"@" + s[j + 1..]|..] == "@" + s[j + 1..];
        Some(s[j + 1..])
  }

  /** The capture is exactly the part after the final `@`, whatever comes before it. */
  lemma DomainAfterLastAt(local: string, domain: string)
    requires domain != "" && '@' !in domain
    ensures EmailDomain(local + "@" + domain) == Some(domain)
  {
    var s := local + "@" + domain;
    var j := |local|;
    assert s[j] == '@' && s[j + 1..] == domain;
    assert LastAt(s) == Some(j);
  }

  /** `String(email || '').toLowerCase()` followed by the domain test against `allowed`. */
  predicate DomainOk(email: JsValue, allowed: seq<string>) {
    var d := EmailDomain(Lower(ToJsString(Or(email, Str("")))));
    d.Some? && exists k :: 0 <= k < |allowed| && EndsWith(d.value, allowed[k])
  }

  lemma LowerAppend(a: string, b: string)
    ensures Lower(a + b) == Lower(a) + Lower(b)
  {
  }

  /**
   * An address is accepted exactly when, lower-cased, it has an `@`
   * followed by a non-empty domain without `@` that ends with an allowed
   * domain.
   */
  lemma {:induction false} DomainOkIff(local: string, domain: string, allowed: seq<string>)
    requires domain != "" && '@' !in Lower(domain)
    ensures DomainOk(Str(local + "@" + domain), allowed)
        <==> exists k :: 0 <= k < |allowed| && EndsWith(Lower(domain), allowed[k])
  {
    var s := local + "@" + domain;
    assert Truthy(Str(s));
    LowerAppend(local + "@", domain);
    LowerAppend(local, "@");
    assert Lower(s) == Lower(local) + "@" + Lower(domain);
    DomainAfterLastAt(Lower(local), Lower(domain));
  }

  /** Without an `@`, or with nothing after the last one, no address passes. */
  lemma NoDomainFails(s: string, allowed: seq<string>)
    requires '@' !in s || (|s| > 0 && s[|s| - 1] == '@')
    ensures !DomainOk(Str(s), allowed)
  {
    if s != "" {
      assert Or(Str(s), Str("")) == Str(s);
      if '@' in Lower(s) {
        var i :| 0 <= i < |s| && Lower(s)[i] == '@';
        assert LowerChar(s[i]) == '@';
      }
    }
  }

  /** Any address at one of the three institutional domains passes, whatever precedes the `@`. */
  lemma InstitutionalPasses(local: string, k: nat)
    requires k < |AuthDomains|
    ensures DomainOk(Str(local + "@" + AuthDomains[k]), AuthDomains)
  {
    var d := AuthDomains[k];
    assert Lower(d) == d;
    DomainOkIff(local, d, AuthDomains);
    assert EndsWith(d, AuthDomains[k]);
  }

  /** The test is a plain suffix test: a domain that merely ends in `tec.ac.cr` passes. */
  lemma SuffixDomainPasses()
    ensures DomainOk(Str("user@notec.ac.cr"), AuthDomains)
  {
    var d := "notec.ac.cr";
    assert Lower(d) == d;
    assert "user@notec.ac.cr" == "user" + "@" + d;
    DomainOkIff("user", d, AuthDomains);
    assert EndsWith(d, AuthDomains[1]);
  }

  // ----- register -----

  /** The body of a registration. */
  datatype RegisterInput = RegisterInput(role: JsValue, email: JsValue, password: JsValue, fullName: JsValue,
                                         studentId: JsValue, teacherCode: JsValue, programDepartment: JsValue,
                                         phone: JsValue)

  /** The `app_user` row inserted; `institutional`, `email_verified` and `is_active` are always true. */
  datatype NewUser = NewUser(roleId: int, email: string, fullName: JsValue, idCode: JsValue,
                             careerOrDept: JsValue, phone: JsValue)

  /** The user as the handler answers it. */
  datatype UserReply = UserReply(id: int, role: JsValue, email: string, fullName: JsValue, studentId: JsValue,
                                 teacherCode: JsValue, programDepartment: JsValue, phone: JsValue,
                                 isActive: bool, createdAt: int)

  datatype RegisterOutcome =
    | Rejected(status: int, error: string)
    | Failed
    | Registered(user: NewUser, reply: UserReply)

  const MissingFieldsError := "role, email, password y full_name son obligatorios"
  const RegisterDomainError := "Correo debe ser institucional (@estudiantec.cr, @tec.ac.cr o @itcr.ac.cr)"

  /** `role`, `email`, `password` and `full_name` are all truthy. */
  predicate RequiredPresent(input: RegisterInput) {
    Truthy(input.role) && Truthy(input.email) && Truthy(input.password) && Truthy(input.fullName)
  }

  /** The role id the lookup found, or 1 when it found none (or a falsy one). */
  function RoleIdOr1(found: Option<int>): (r: int)
    ensures TruthyId(found) ==> r == found.value
    ensures !TruthyId(found) ==> r == 1
  {
    if TruthyId(found) then found.value else 1
  }

  /** The inserted row, given the role id found and the e-mail as it is stored. */
  function NewUserRow(input: RegisterInput, found: Option<int>, email: string): (u: NewUser)
    ensures u.roleId == RoleIdOr1(found) && u.email == email && u.fullName == input.fullName
    ensures u.idCode == (if Truthy(input.studentId) then input.studentId
                         else if Truthy(input.teacherCode) then input.teacherCode else Null)
    ensures u.careerOrDept == (if Truthy(input.programDepartment) then input.programDepartment else Null)
    ensures u.phone == (if Truthy(input.phone) then input.phone else Null)
  {
    NewUser(RoleIdOr1(found), email, input.fullName, Or(Or(input.studentId, input.teacherCode), Null),
            Or(input.programDepartment, Null), Or(input.phone, Null))
  }

  /** The answer: both `student_id` and `teacher_code` are the stored `id_code`, and `role` is the name sent. */
  function ReplyOf(u: NewUser, id: int, role: JsValue, createdAt: int): (r: UserReply)
    ensures r.studentId == u.idCode && r.teacherCode == u.idCode
    ensures r.role == role && r.email == u.email && r.id == id && r.isActive
  {
    UserReply(id, role, u.email, u.fullName, u.idCode, u.idCode, u.careerOrDept, u.phone, true, createdAt)
  }

  /**
   * `register`: the two guards are answered with status 400 before the
   * database is used; then the role is looked up (`found`), the user
   * inserted with id `newId` (`inserted` is false when the insert fails,
   * a duplicate e-mail for instance) and the answer built from the row.
   * A truthy e-mail that is not a string passes the domain test through
   * `String(...)` and then fails at `email.toLowerCase()`.
   */
  function Register(input: RegisterInput, found: Option<int>, inserted: bool, newId: int, createdAt: int)
    : (r: RegisterOutcome)
    ensures r.Rejected? <==> !RequiredPresent(input) || !DomainOk(input.email, AuthDomains)
    ensures !RequiredPresent(input) ==> r == Rejected(400, MissingFieldsError)
    ensures RequiredPresent(input) && !DomainOk(input.email, AuthDomains) ==> r == Rejected(400, RegisterDomainError)
    ensures r.Registered? <==>
      RequiredPresent(input) && DomainOk(input.email, AuthDomains) && input.email.Str? && inserted
    ensures r.Registered? ==>
      r.user == NewUserRow(input, found, Lower(input.email.s))
      && r.reply == ReplyOf(r.user, newId, input.role, createdAt)
  {
    if !RequiredPresent(input) then Rejected(400, MissingFieldsError)
    else if !DomainOk(input.email, AuthDomains) then Rejected(400, RegisterDomainError)
    else if !input.email.Str? || !inserted then Failed
    else
      var u := NewUserRow(input, found, Lower(input.email.s));
      Registered(u, ReplyOf(u, newId, input.role, createdAt))
  }

  /** A rejected registration does not depend on anything the database would say. */
  lemma RejectionPrecedesDatabase(input: RegisterInput, found1: Option<int>, found2: Option<int>,
                                  ok1: bool, ok2: bool, id1: int, id2: int, at1: int, at2: int)
    requires Register(input, found1, ok1, id1, at1).Rejected?
    ensures Register(input, found2, ok2, id2, at2) == Register(input, found1, ok1, id1, at1)
  {
  }

  /** The stored e-mail is lower-case, and an unknown role name is stored as role 1. */
  lemma RegisterDefaults(input: RegisterInput, inserted: bool, newId: int, createdAt: int)
    requires Register(input, None, inserted, newId, createdAt).Registered?
    ensures var u := Register(input, None, inserted, newId, createdAt).user;
      u.roleId == 1 && Lower(u.email) == u.email
  {
    LowerIdempotent(input.email.s);
  }

  // ----- findByEmail -----

  /** A user as the login lookup sees it. */
  datatype Account = Account(id: int, email: string, isActive: bool, passwordHash: Option<string>)

  /** The join with `app_user_auth` keeps users with a password; the filter keeps active ones with that e-mail. */
  function ActiveWithEmail(email: string): Account -> bool {
    (a: Account) => a.email == email && a.isActive && a.passwordHash.Some?
  }

  /** `findByEmail`: the active user with a password whose e-mail equals the lower-cased argument. */
  function FindByEmail(accounts: seq<Account>, email: JsValue): (r: Option<Account>)
    ensures r.Some? ==> r.value in accounts && r.value.isActive && r.value.passwordHash.Some?
                        && r.value.email == Lower(ToJsString(email))
    ensures r.None? <==> forall i :: 0 <= i < |accounts| ==>
      !(accounts[i].email == Lower(ToJsString(email)) && accounts[i].isActive && accounts[i].passwordHash.Some?)
  {
    var r := Find(accounts, ActiveWithEmail(Lower(ToJsString(email))));
    if r.Some? then
      assert ActiveWithEmail(Lower(ToJsString(email)))(r.value);
      r
    else
      assert forall i :: 0 <= i < |accounts| ==> !ActiveWithEmail(Lower(ToJsString(email)))(accounts[i]);
      r
  }

  /** An inactive user is never found. */
  lemma InactiveNotFound(accounts: seq<Account>, email: JsValue, a: Account)
    requires !a.isActive
    ensures FindByEmail(accounts, email) != Some(a)
  {
  }

  /**
   * A user that has just registered is found by the address typed at
   * registration, whatever its case, provided no other user holds that
   * e-mail (the column is unique).
   */
  lemma RegisteredUserIsFound(accounts: seq<Account>, input: RegisterInput, found: Option<int>, newId: int,
                              createdAt: int, hash: string, typed: string)
    requires Register(input, found, true, newId, createdAt).Registered?
    requires Lower(typed) == Lower(input.email.s)
    requires forall i :: 0 <= i < |accounts| ==> accounts[i].email != Lower(input.email.s)
    ensures var u := Register(input, found, true, newId, createdAt).user;
      FindByEmail(accounts + [Account(newId, u.email, true, Some(hash))], Str(typed))
        == Some(Account(newId, u.email, true, Some(hash)))
  {
    var u := Register(input, found, true, newId, createdAt).user;
    var a := Account(newId, u.email, true, Some(hash));
    var all := accounts + [a];
    var p := ActiveWithEmail(Lower(typed));
    assert forall i :: 0 <= i < |accounts| ==> !p(accounts[i]);
    FindSnoc(accounts, a, p);
    assert Find(accounts, p).None?;
  }
}
