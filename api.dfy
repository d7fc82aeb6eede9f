/**
 * The client's data layer: the mock implementation's login, laboratory
 * search and lookup and request creation over the loaded mock data, and
 * the endpoint the real implementation calls to cancel a request.
 */
module Api {
  import opened Wrappers
  import opened Text
  import opened Js
  import opened Seqs

  /**
   * `a === b` on values read from JSON: primitives compare by value, `NaN`
   * equals nothing, and two arrays or objects from separate parses are
   * different objects.
   */
  predicate StrictEquals(a: JsValue, b: JsValue) {
    match (a, b)
    case (Undefined, Undefined) => true
    case (Null, Null) => true
    case (Bool(x), Bool(y)) => x == y
    case (Num(x), Num(y)) => x == y
    case (Str(x), Str(y)) => x == y
    case _ => false
  }

  // ----- login -----

  /** A user of the mock data. */
  datatype MockUser = MockUser(id: JsValue, name: JsValue, email: JsValue, password: JsValue,
                               role: JsValue, department: JsValue)

  /** The user as returned by a login: everything but the password. */
  datatype PublicUser = PublicUser(id: JsValue, name: JsValue, email: JsValue, role: JsValue, department: JsValue)

  /**
   * What `login` does: a session, the `Credenciales inválidas` error, or
   * the `TypeError` of reading `credentials.email` when the credentials are
   * `null` or `undefined` and some user is compared with them.
   */
  datatype LoginOutcome = Session(token: string, user: PublicUser) | Rejected(message: string) | CredentialsTypeError

  function Credentialed(email: JsValue, password: JsValue): MockUser -> bool {
    (u: MockUser) => StrictEquals(u.email, email) && StrictEquals(u.password, password)
  }

  function PublicOf(u: MockUser): PublicUser {
    PublicUser(u.id, u.name, u.email, u.role, u.department)
  }

  /** `MockAPI.login(credentials)`, with `Date.now()` as `now`. */
  function Login(users: seq<MockUser>, credentials: JsValue, now: int): (r: LoginOutcome)
    ensures r.CredentialsTypeError? <==> |users| > 0 && Nullish(credentials)
    ensures r.Rejected? ==> r.message == "Credenciales inválidas"
    ensures r.Rejected? <==> !r.CredentialsTypeError?
                             && forall i :: 0 <= i < |users| ==> !Credentialed(Get(credentials, "email"), Get(credentials, "password"))(users[i])
    ensures r.Session? ==> r.token == "mock-jwt-token-" + IntToString(now)
    ensures r.Session? ==>
      exists k :: 0 <= k < |users| && r.user == PublicOf(users[k])
        && StrictEquals(users[k].email, Get(credentials, "email"))
        && StrictEquals(users[k].password, Get(credentials, "password"))
        && forall j :: 0 <= j < k ==> !Credentialed(Get(credentials, "email"), Get(credentials, "password"))(users[j])
  {
    if |users| > 0 && Nullish(credentials) then CredentialsTypeError
    else
      match Find(users, Credentialed(Get(credentials, "email"), Get(credentials, "password")))
      case None => Rejected("Credenciales inválidas")
      case Some(u) => Session("mock-jwt-token-" + IntToString(now), PublicOf(u))
  }

  /** Whatever the credentials, a login never hands out a password: the public user has the fields of a stored user but that one. */
  lemma LoginOmitsPassword(users: seq<MockUser>, credentials: JsValue, now: int)
    requires Login(users, credentials, now).Session?
    ensures exists u :: u in users && Login(users, credentials, now).user
                                     == PublicUser(u.id, u.name, u.email, u.role, u.department)
  {
    var r := Login(users, credentials, now);
    var k :| 0 <= k < |users| && r.user == PublicOf(users[k]);
    assert users[k] in users;
  }

  /** Without users the credentials are never read, and every login is rejected. */
  lemma LoginWithoutUsers(credentials: JsValue, now: int)
    ensures Login([], credentials, now) == Rejected("Credenciales inválidas")
  {
  }

  // ----- laboratory search -----

  /** A laboratory of the mock data. */
  datatype Lab = Lab(id: int, name: string, description: string, category: JsValue)

  /** `searchLabs` returns the laboratories, or fails reading a `null` filter object or lower-casing a search that is not a string. */
  datatype SearchOutcome = Labs(labs: seq<Lab>) | SearchTypeError

  function InCategory(category: JsValue): Lab -> bool {
    (lab: Lab) => StrictEquals(lab.category, category)
  }

  /** The name or the description mentions the (lower-cased) search. */
  predicate Mentions(lab: Lab, searchLower: string) {
    Contains(Lower(lab.name), searchLower) || Contains(Lower(lab.description), searchLower)
  }

  function Mentioning(searchLower: string): Lab -> bool {
    (lab: Lab) => Mentions(lab, searchLower)
  }

  /** The filter object: `{}` when the argument is left out. */
  function FilterObject(filters: JsValue): JsValue {
    if filters.Undefined? then Obj([]) else filters
  }

  /** `MockAPI.searchLabs(filters = {})`: first by category when one is given, then by the search text when one is given. */
  function SearchLabs(labs: seq<Lab>, filters: JsValue): SearchOutcome {
    var f := FilterObject(filters);
    if f.Null? then SearchTypeError
    else
      var category := Get(f, "category");
      var byCategory := if Truthy(category) then Keep(labs, InCategory(category)) else labs;
      var search := Get(f, "search");
      if !Truthy(search) then Labs(byCategory)
      else if !search.Str? then SearchTypeError
      else Labs(Keep(byCategory, Mentioning(Lower(search.s))))
  }

  /** The full test `searchLabs` applies, with the search text already lower-cased (`None` when no search is given). */
  predicate LabSelected(lab: Lab, category: JsValue, searchLower: Option<string>) {
    (!Truthy(category) || StrictEquals(lab.category, category))
    && (searchLower.None? || Mentions(lab, searchLower.value))
  }

  function Selected(category: JsValue, searchLower: Option<string>): Lab -> bool {
    (lab: Lab) => LabSelected(lab, category, searchLower)
  }

  /** The lower-cased search text of the filters, `None` when it is not given. */
  function SearchLowerOf(filters: JsValue): Option<string> {
    var search := Get(FilterObject(filters), "search");
    if Truthy(search) && search.Str? then Some(Lower(search.s)) else None
  }

  /** The search fails exactly on `null` filters or a given search that is not a string. */
  lemma SearchTypeErrorIff(labs: seq<Lab>, filters: JsValue)
    ensures SearchLabs(labs, filters).SearchTypeError?
            <==> filters.Null? || (Truthy(Get(FilterObject(filters), "search")) && !Get(FilterObject(filters), "search").Str?)
  {
  }

  /** Without filters (absent or `{}`) every laboratory is returned. */
  lemma SearchWithoutFilters(labs: seq<Lab>)
    ensures SearchLabs(labs, Undefined) == Labs(labs)
    ensures SearchLabs(labs, Obj([])) == Labs(labs)
  {
  }

  /**
   * A successful search returns the laboratories that pass both tests, in
   * their order: an exact category match when a category is given, and the
   * lower-cased search in the lower-cased name or description when a
   * search is given.
   */
  lemma SearchLabsMeaning(labs: seq<Lab>, filters: JsValue)
    requires SearchLabs(labs, filters).Labs?
    ensures SearchLabs(labs, filters).labs == Keep(labs, Selected(Get(FilterObject(filters), "category"), SearchLowerOf(filters)))
    ensures IsSubseq(SearchLabs(labs, filters).labs, labs)
  {
    var category := Get(FilterObject(filters), "category");
    var search := Get(FilterObject(filters), "search");
    var sel := Selected(category, SearchLowerOf(filters));
    if Truthy(category) {
      if Truthy(search) {
        KeepThen(labs, InCategory(category), Mentioning(Lower(search.s)), sel);
      } else {
        KeepExt(labs, InCategory(category), sel);
      }
    } else {
      if Truthy(search) {
        KeepExt(labs, Mentioning(Lower(search.s)), sel);
      } else {
        KeepAll(labs, sel);
      }
    }
    KeepIsSubseq(labs, sel);
  }

  // ----- laboratory lookup -----

  function HasId(id: JsValue): Lab -> bool {
    (lab: Lab) => id.Num? && lab.id == id.n
  }

  /** `MockAPI.getLabDetails(id)`: the first laboratory whose id is `parseInt(id)`, `undefined` (`None`) when there is none. */
  function GetLabDetails(labs: seq<Lab>, id: JsValue): (r: Option<Lab>)
    ensures r.None? <==> forall i :: 0 <= i < |labs| ==> !HasId(ParseInt(ToJsString(id)))(labs[i])
    ensures r.Some? ==> exists k :: 0 <= k < |labs| && labs[k] == r.value && HasId(ParseInt(ToJsString(id)))(labs[k])
                                    && forall j :: 0 <= j < k ==> !HasId(ParseInt(ToJsString(id)))(labs[j])
  {
    Find(labs, HasId(ParseInt(ToJsString(id))))
  }

  /** A numeric id or its decimal text finds the first laboratory with that id. */
  lemma GetLabDetailsById(labs: seq<Lab>, n: nat)
    ensures GetLabDetails(labs, Num(n)) == GetLabDetails(labs, Str(NatToString(n)))
    ensures GetLabDetails(labs, Num(n)).None? <==> forall i :: 0 <= i < |labs| ==> labs[i].id != n
    ensures GetLabDetails(labs, Num(n)).Some? ==> GetLabDetails(labs, Num(n)).value.id == n
  {
    ParseIntOfPrinted(n);
  }

  /** An id with no leading digit parses to `NaN` and finds nothing. */
  lemma GetLabDetailsNaN(labs: seq<Lab>, id: string)
    requires |id| > 0 && !IsWs(id[0]) && !IsDigit(id[0]) && id[0] != '-' && id[0] != '+'
    ensures GetLabDetails(labs, Str(id)) == None
  {
    assert ParseInt(id) == NaN by {
      assert TrimStart(id) == id;
      assert ParseUnsigned(id) == ReadRun(id, false);
    }
    assert forall i :: 0 <= i < |labs| ==> !HasId(NaN)(labs[i]);
  }

  // ----- request creation -----

  /** `{...obj, key: value}` for one key: a key already present keeps its place and takes the value; a new key goes last. */
  function SetMember(fs: seq<Member>, key: string, value: JsValue): seq<Member> {
    if |fs| == 0 then [Member(key, value)]
    else if fs[0].key == key then [Member(key, value)] + fs[1..]
    else [fs[0]] + SetMember(fs[1..], key, value)
  }

  lemma {:induction false} GetSetMember(fs: seq<Member>, key: string, value: JsValue, other: string)
    ensures Get(Obj(SetMember(fs, key, value)), key) == value
    ensures other != key ==> Get(Obj(SetMember(fs, key, value)), other) == Get(Obj(fs), other)
  {
    if |fs| > 0 && fs[0].key != key {
      GetSetMember(fs[1..], key, value, other);
      assert SetMember(fs, key, value)[1..] == SetMember(fs[1..], key, value);
      assert fs[1..] == Obj(fs).fields[1..];
    } else if |fs| > 0 {
      assert SetMember(fs, key, value)[1..] == fs[1..];
    }
  }

  function Keys(fs: seq<Member>): (r: seq<string>)
    ensures |r| == |fs| && forall i :: 0 <= i < |fs| ==> r[i] == fs[i].key
  {
    if |fs| == 0 then [] else [fs[0].key] + Keys(fs[1..])
  }

  /** `{...target, ...source}`: the source's members set one after the other. */
  function Spread(target: seq<Member>, source: seq<Member>): seq<Member>
    decreases |source|
  {
    if |source| == 0 then target else Spread(SetMember(target, source[0].key, source[0].value), source[1..])
  }

  /** After spreading an object (whose keys are distinct), its keys read its values and the other keys read the target's. */
  lemma {:induction false} GetSpread(target: seq<Member>, source: seq<Member>, key: string)
    requires Distinct(Keys(source))
    ensures key in Keys(source) ==> Get(Obj(Spread(target, source)), key) == Get(Obj(source), key)
    ensures key !in Keys(source) ==> Get(Obj(Spread(target, source)), key) == Get(Obj(target), key)
    decreases |source|
  {
    if |source| > 0 {
      var t := SetMember(target, source[0].key, source[0].value);
      assert Keys(source)[1..] == Keys(source[1..]);
      assert Distinct(Keys(source[1..])) by {
        forall i, j | 0 <= i < j < |source| - 1 ensures Keys(source[1..])[i] != Keys(source[1..])[j] {
          assert Keys(source)[i + 1] == Keys(source[1..])[i] && Keys(source)[j + 1] == Keys(source[1..])[j];
        }
      }
      GetSpread(t, source[1..], key);
      GetSetMember(target, source[0].key, source[0].value, key);
      assert Obj(source).fields[1..] == source[1..];
      if key == source[0].key {
        assert key !in Keys(source[1..]) by {
          forall j | 0 <= j < |source| - 1 ensures Keys(source[1..])[j] != key {
            assert Keys(source)[j + 1] == Keys(source[1..])[j];
          }
        }
      } else if key in Keys(source) {
        var j :| 0 <= j < |source| && Keys(source)[j] == key;
        assert Keys(source[1..])[j - 1] == key;
      }
    }
  }

  /** The new request: `{id: Date.now(), ...requestData, status: 'pending', created_at}`. */
  function NewRequest(requestData: seq<Member>, now: int, createdAt: string): seq<Member> {
    SetMember(SetMember(Spread([Member("id", Num(now))], requestData), "status", Str("pending")), "created_at", Str(createdAt))
  }

  /** `MockAPI.createRequest(requestData)`: `{success: true, request}`. */
  function CreateRequest(requestData: seq<Member>, now: int, createdAt: string): (r: JsValue)
    ensures Get(r, "success") == Bool(true)
    ensures Get(r, "request") == Obj(NewRequest(requestData, now, createdAt))
  {
    Obj([Member("success", Bool(true)), Member("request", Obj(NewRequest(requestData, now, createdAt)))])
  }

  /**
   * The request is always `pending`, whatever status the data carries; it
   * is stamped with the creation time; its id is the data's own id if it
   * has one and the timestamp otherwise; every other field is the data's.
   */
  lemma NewRequestFields(requestData: seq<Member>, now: int, createdAt: string, key: string)
    requires Distinct(Keys(requestData))
    ensures Get(Obj(NewRequest(requestData, now, createdAt)), "status") == Str("pending")
    ensures Get(Obj(NewRequest(requestData, now, createdAt)), "created_at") == Str(createdAt)
    ensures Get(Obj(NewRequest(requestData, now, createdAt)), "id")
            == if "id" in Keys(requestData) then Get(Obj(requestData), "id") else Num(now)
    ensures key != "status" && key != "created_at" && key != "id" ==>
            Get(Obj(NewRequest(requestData, now, createdAt)), key) == Get(Obj(requestData), key)
  {
    var spread := Spread([Member("id", Num(now))], requestData);
    var withStatus := SetMember(spread, "status", Str("pending"));
    GetSetMember(withStatus, "created_at", Str(createdAt), "status");
    GetSetMember(spread, "status", Str("pending"), "status");
    GetSetMember(withStatus, "created_at", Str(createdAt), "id");
    GetSetMember(spread, "status", Str("pending"), "id");
    GetSpread([Member("id", Num(now))], requestData, "id");
    GetSetMember(withStatus, "created_at", Str(createdAt), key);
    GetSetMember(spread, "status", Str("pending"), key);
    GetSpread([Member("id", Num(now))], requestData, key);
    if key !in Keys(requestData) {
      assert forall i :: 0 <= i < |requestData| ==> requestData[i].key != key;
    }
  }

  // ----- the cancel endpoint -----

  /** `API_CONFIG.ENDPOINTS.CANCEL_REQUEST`. */
  const CancelRequestPath := "/requests/:id"

  /** `RealAPI.cancelRequest(id)`'s endpoint: `:id` replaced by the id, then `/cancel`. */
  function CancelRequestEndpoint(id: JsValue): string {
    ReplaceFirst(CancelRequestPath, ":id", ToJsString(id)) + "/cancel"
  }

  /** The endpoint is the request's path with the id in it, followed by `/cancel`. */
  lemma CancelRequestEndpointShape(id: JsValue)
    ensures CancelRequestEndpoint(id) == "/requests/" + ToJsString(id) + "/cancel"
  {
    assert CancelRequestPath == "/requests/" + ":id" + "";
    ReplaceAfter("/requests/", ":id", ToJsString(id), "");
    assert "/requests/" + ToJsString(id) + "" == "/requests/" + ToJsString(id);
  }
}
