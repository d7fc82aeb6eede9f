/**
 * The numbered placeholders `$1`, `$2`, ... of the parameterised SQL that
 * the models and controllers assemble. A placeholder `$k` stands for the
 * `k`-th entry of the parameter list, so the builders are correct exactly
 * when every placeholder they emit names the value it was meant to carry.
 */
module Sql {
  import opened Wrappers
  import opened Text
  import opened Js
  import opened Seqs

  /** `$k`. */
  function Placeholder(k: nat): (r: string)
    ensures |r| >= 2 && r[0] == '$'
    ensures r[1..] == NatToString(k)
  {
    "$" + NatToString(k)
  }

  /** Different parameter numbers give different placeholders. */
  lemma PlaceholderInjective(j: nat, k: nat)
    ensures Placeholder(j) == Placeholder(k) <==> j == k
  {
    if Placeholder(j) == Placeholder(k) {
      assert NatToString(j) == Placeholder(j)[1..];
      NatToStringInjective(j, k);
    }
  }

  /** `where.length ? 'WHERE ' + where.join(' AND ') : ''`. */
  function WhereClause(conditions: seq<string>): (r: string)
    ensures |conditions| == 0 <==> r == ""
    ensures |conditions| > 0 ==> StartsWith(r, "WHERE ")
  {
    if |conditions| == 0 then "" else "WHERE " + Join(conditions, " AND ")
  }

  // ----- SET clauses built from a request body -----

  /** One `column = $k` assignment of an `UPDATE ... SET`. */
  function Assignment(column: string, k: nat): string {
    column + " = " + Placeholder(k)
  }

  /** A body member whose key the field map turns into a column. */
  function HasColumn(column: string -> Option<string>): Member -> bool {
    (m: Member) => column(m.key).Some?
  }

  /** The members of a body that become assignments, in body order. */
  function Mapped(payload: seq<Member>, column: string -> Option<string>): (r: seq<Member>)
    ensures forall i :: 0 <= i < |r| ==> column(r[i].key).Some?
  {
    Keep(payload, HasColumn(column))
  }

  /** The value a member sends: itself, or `null` for `null`/`undefined` under `?? null`. */
  function Sent(v: JsValue, nullish: bool): (r: JsValue)
    ensures !nullish || !Nullish(v) ==> r == v
    ensures nullish && Nullish(v) ==> r == Null
  {
    if nullish && Nullish(v) then Null else v
  }

  /**
   * The `forEach` over `Object.keys(payload)`: every member whose key the
   * field map knows pushes its value and then `column = $n`, where `n` is
   * the new length of the parameter list; other members are ignored.
   * So the `i`-th assignment names `$(i + 1)`, which is the `i`-th value.
   */
  method BuildAssignments(payload: seq<Member>, column: string -> Option<string>, nullish: bool)
    returns (sets: seq<string>, args: seq<JsValue>)
    ensures |sets| == |args| == |Mapped(payload, column)|
    ensures forall i :: 0 <= i < |sets| ==>
      sets[i] == Assignment(column(Mapped(payload, column)[i].key).value, i + 1)
      && args[i] == Sent(Mapped(payload, column)[i].value, nullish)
  {
    sets := [];
    args := [];
    ghost var mapped: seq<Member> := [];
    for i := 0 to |payload|
      invariant mapped == Mapped(payload[..i], column)
      invariant AssignmentsOf(sets, args, mapped, column, nullish)
    {
      var m := payload[i];
      MappedPrefix(payload, i, column);
      var dbField := column(m.key);
      if dbField.Some? {
        AssignmentsSnoc(sets, args, mapped, m, column, nullish);
        mapped := mapped + [m];
        args := args + [Sent(m.value, nullish)];
        sets := sets + [Assignment(dbField.value, |args|)];
      }
    }
    assert payload[..|payload|] == payload;
  }

  /** The `i`-th assignment names the `i`-th mapped member's column on `$(i + 1)`, whose value is that member's. */
  predicate AssignmentsOf(sets: seq<string>, args: seq<JsValue>, mapped: seq<Member>,
                          column: string -> Option<string>, nullish: bool)
  {
    |sets| == |args| == |mapped|
    && forall j :: 0 <= j < |sets| ==>
         column(mapped[j].key).Some?
         && sets[j] == Assignment(column(mapped[j].key).value, j + 1) && args[j] == Sent(mapped[j].value, nullish)
  }

  lemma AssignmentsSnoc(sets: seq<string>, args: seq<JsValue>, mapped: seq<Member>, m: Member,
                        column: string -> Option<string>, nullish: bool)
    requires AssignmentsOf(sets, args, mapped, column, nullish) && column(m.key).Some?
    ensures AssignmentsOf(sets + [Assignment(column(m.key).value, |args| + 1)], args + [Sent(m.value, nullish)],
                          mapped + [m], column, nullish)
  {
    var sets', args', mapped' := sets + [Assignment(column(m.key).value, |args| + 1)], args + [Sent(m.value, nullish)], mapped + [m];
    forall j | 0 <= j < |sets'|
      ensures column(mapped'[j].key).Some?
      ensures sets'[j] == Assignment(column(mapped'[j].key).value, j + 1) && args'[j] == Sent(mapped'[j].value, nullish)
    {
      if j < |sets| {
        assert sets'[j] == sets[j] && args'[j] == args[j] && mapped'[j] == mapped[j];
      }
    }
  }

  lemma MappedPrefix(payload: seq<Member>, i: nat, column: string -> Option<string>)
    requires i < |payload|
    ensures Mapped(payload[..i + 1], column)
      == Mapped(payload[..i], column) + if column(payload[i].key).Some? then [payload[i]] else []
  {
    assert payload[..i + 1] == payload[..i] + [payload[i]];
    KeepSnoc(payload[..i], payload[i], HasColumn(column));
  }

  /** Members whose keys the field map does not know change nothing. */
  lemma MappedIgnoresUnknown(payload: seq<Member>, extra: seq<Member>, column: string -> Option<string>)
    requires forall i :: 0 <= i < |extra| ==> column(extra[i].key).None?
    ensures Mapped(payload + extra, column) == Mapped(payload, column)
  {
    KeepAppend(payload, extra, HasColumn(column));
    KeepNone(extra, HasColumn(column));
  }

  // ----- integer parameters -----

  /**
   * What PostgreSQL makes of a value bound to an integer parameter. The
   * driver sends `null` and `undefined` as NULL and anything else as text
   * (`String(v)`, an array as an array literal, an object as JSON), and
   * the integer input function reads only an optionally signed run of
   * decimal digits between blanks; any other text is refused with
   * SQLSTATE 22P02.
   */
  datatype IntParam = IntValue(n: int) | SqlNull | BadInteger

  const InvalidTextRepresentation := "22P02"

  /** The blanks the integer input function skips around the digits. */
  predicate IsPgSpace(c: char) {
    c == ' ' || c == '\t' || c == '\n' || c == '\r' || c == '\U{000B}' || c == '\U{000C}'
  }

  /** The text without its leading and trailing blanks. */
  function PgTrim(s: string): string
    decreases |s|
  {
    if |s| > 0 && IsPgSpace(s[0]) then PgTrim(s[1..])
    else if |s| > 0 && IsPgSpace(s[|s| - 1]) then PgTrim(s[..|s| - 1])
    else s
  }

  /** The integer an integer input text denotes, if it is one. */
  function IntegerText(s: string): Option<int> {
    var t := PgTrim(s);
    if |t| > 1 && (t[0] == '-' || t[0] == '+') && AllDigits(t[1..]) then
      Some(if t[0] == '-' then -(DigitsValue(t[1..]) as int) else DigitsValue(t[1..]))
    else if |t| > 0 && AllDigits(t) then Some(DigitsValue(t))
    else None
  }

  /** The integer PostgreSQL reads from a JavaScript value sent for an integer parameter. */
  function IntParamOf(v: JsValue): (r: IntParam)
    ensures r.SqlNull? <==> Nullish(v)
    ensures v.Num? ==> r == IntValue(v.n)
    ensures v.Bool? || v.NaN? || v.Arr? || v.Obj? ==> r == BadInteger
    ensures v.Str? ==> (r.IntValue? <==> IntegerText(v.s).Some?)
  {
    match v
    case Undefined => SqlNull
    case Null => SqlNull
    case Num(n) => IntValue(n)
    case Str(s) => if IntegerText(s).Some? then IntValue(IntegerText(s).value) else BadInteger
    case _ => BadInteger
  }

  /** A run of digits is read as its value. */
  lemma UnsignedDigitsText(d: string)
    requires |d| > 0 && AllDigits(d)
    ensures IntegerText(d) == Some(DigitsValue(d))
  {
    assert !IsPgSpace(d[0]) && !IsPgSpace(d[|d| - 1]);
    assert PgTrim(d) == d;
  }

  /** A minus sign before a run of digits negates its value. */
  lemma NegatedDigitsText(d: string)
    requires |d| > 0 && AllDigits(d)
    ensures IntegerText("-" + d) == Some(-(DigitsValue(d) as int))
  {
    var s := "-" + d;
    assert !IsPgSpace(s[0]) && !IsPgSpace(s[|s| - 1]);
    assert PgTrim(s) == s;
    assert s[1..] == d;
  }

  /** The decimal text of an integer is read back as that integer, as a number would be. */
  lemma IntParamOfPrinted(n: int)
    ensures IntParamOf(Str(IntToString(n))) == IntParamOf(Num(n)) == IntValue(n)
  {
    if n < 0 {
      DigitsNatToString(-n);
      NegatedDigitsText(NatToString(-n));
    } else {
      DigitsNatToString(n);
      UnsignedDigitsText(NatToString(n));
    }
  }

  /** Blanks around the digits are skipped. */
  lemma IntParamSkipsBlanks(n: nat)
    ensures IntParamOf(Str(" " + NatToString(n) + "\n")) == IntValue(n)
  {
    var digits := NatToString(n);
    var s := " " + digits + "\n";
    DigitsNatToString(n);
    assert s[1..] == digits + "\n";
    assert (digits + "\n")[..|digits|] == digits;
    assert PgTrim(s) == PgTrim(s[1..]) == PgTrim(digits + "\n") == digits;
  }

  /** Text that is not a whole decimal numeral is refused, even where `Number` would read it. */
  lemma IntParamRefusesOtherText()
    ensures IntParamOf(Str("abc")) == BadInteger
    ensures IntParamOf(Str("1e2")) == BadInteger
    ensures IntParamOf(Str("0x10")) == BadInteger
    ensures IntParamOf(Str("")) == BadInteger
    ensures IntParamOf(Bool(true)) == BadInteger
  {
    assert PgTrim("abc") == "abc" && !IsDigit("abc"[0]);
    assert PgTrim("1e2") == "1e2" && !IsDigit("1e2"[1]);
    assert PgTrim("0x10") == "0x10" && !IsDigit("0x10"[1]);
  }
}
