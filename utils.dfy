/**
 * The front end's general helpers: date formatting, the e-mail check, the
 * query string, the CSV text of an export and `{{word}}` templates.
 */
module Utils {
  import opened Wrappers
  import opened Text
  import opened Js
  import opened Seqs

  // ----- formatDate -----

  /** The date formats of the front end's configuration. */
  const DisplayFormat := "DD/MM/YYYY"
  const ApiFormat := "YYYY-MM-DD"
  const DateTimeFormat := "DD/MM/YYYY HH:mm"

  /**
   * The local calendar fields of `new Date(date)`: `getFullYear()`,
   * `getMonth()` (0 for January), `getDate()`, `getHours()`, `getMinutes()`.
   */
  datatype DateParts = DateParts(year: int, month0: nat, day: nat, hours: nat, minutes: nat)

  /**
   * `formatDate(date, format)`: `''` for a falsy date; otherwise each of the
   * tokens `DD`, `MM`, `YYYY`, `HH`, `mm` is replaced, at its first
   * occurrence only, in that order.
   */
  function FormatDate(date: JsValue, format: string, d: DateParts): string {
    if !Truthy(date) then ""
    else ReplaceTokens(format, Pad2(d.day), Pad2(d.month0 + 1), IntToString(d.year), Pad2(d.hours), Pad2(d.minutes))
  }

  /** A truthy date is formatted by replacing the tokens with its fields' texts. */
  lemma TokensOfDate(date: JsValue, format: string, d: DateParts)
    requires Truthy(date)
    ensures FormatDate(date, format, d)
         == ReplaceTokens(format, Pad2(d.day), Pad2(d.month0 + 1), IntToString(d.year), Pad2(d.hours), Pad2(d.minutes))
  {
  }

  /** The five `replace` calls, in order, with the texts of the fields. */
  function ReplaceTokens(format: string, day: string, month: string, year: string, hours: string, minutes: string): string {
    var s1 := ReplaceFirst(format, "DD", day);
    var s2 := ReplaceFirst(s1, "MM", month);
    var s3 := ReplaceFirst(s2, "YYYY", year);
    var s4 := ReplaceFirst(s3, "HH", hours);
    ReplaceFirst(s4, "mm", minutes)
  }

  /** The letters of the tokens a text of fields must avoid for each token to be found in the format itself. */
  predicate FieldText(s: string) {
    'M' !in s && 'Y' !in s && 'H' !in s && 'm' !in s
  }

  /** Padded numbers and printed years are such texts. */
  lemma FieldTexts(d: DateParts)
    ensures FieldText(Pad2(d.day)) && FieldText(Pad2(d.month0 + 1)) && FieldText(IntToString(d.year))
    ensures FieldText(Pad2(d.hours))
  {
    PadDigits(d.day);
    PadDigits(d.month0 + 1);
    PadDigits(d.hours);
    DigitsAvoid(Pad2(d.day), 'M');
    DigitsAvoid(Pad2(d.day), 'Y');
    DigitsAvoid(Pad2(d.day), 'H');
    DigitsAvoid(Pad2(d.day), 'm');
    DigitsAvoid(Pad2(d.month0 + 1), 'M');
    DigitsAvoid(Pad2(d.month0 + 1), 'Y');
    DigitsAvoid(Pad2(d.month0 + 1), 'H');
    DigitsAvoid(Pad2(d.month0 + 1), 'm');
    DigitsAvoid(Pad2(d.hours), 'M');
    DigitsAvoid(Pad2(d.hours), 'Y');
    DigitsAvoid(Pad2(d.hours), 'H');
    DigitsAvoid(Pad2(d.hours), 'm');
    YearAvoids(d.year, 'M');
    YearAvoids(d.year, 'Y');
    YearAvoids(d.year, 'H');
    YearAvoids(d.year, 'm');
  }

  predicate AllDigits(s: string) {
    forall i :: 0 <= i < |s| ==> IsDigit(s[i])
  }

  lemma PadDigits(n: nat)
    ensures AllDigits(Pad2(n)) && |Pad2(n)| >= 2
  {
  }

  lemma DigitsAvoid(s: string, c: char)
    requires AllDigits(s) && !IsDigit(c)
    ensures c !in s
  {
  }

  lemma YearAvoids(year: int, c: char)
    requires !IsDigit(c) && c != '-'
    ensures c !in IntToString(year)
  {
    if year < 0 {
      DigitsAvoid(NatToString(-year), c);
    } else {
      DigitsAvoid(NatToString(year), c);
    }
  }

  /** The text before a token, the token and the text after it, as one string. */
  lemma Regroup(a: string, sep: string, token: string, rest: string)
    ensures a + (sep + token + rest) == (a + sep) + token + rest
  {
  }

  // Each step below replaces one token of a configured format; a step
  // states where the token is found and what the text becomes.

  lemma DisplayDay(D: string)
    ensures ReplaceFirst(DisplayFormat, "DD", D) == D + "/MM/YYYY"
  {
    assert DisplayFormat == "DD" + "/MM/YYYY";
    ReplaceAtStart("DD", D, "/MM/YYYY");
  }

  lemma DisplayMonth(D: string, M: string)
    requires 'M' !in D
    ensures ReplaceFirst(D + "/MM/YYYY", "MM", M) == D + "/" + M + "/YYYY"
  {
    assert "/MM/YYYY" == "/" + "MM" + "/YYYY";
    Regroup(D, "/", "MM", "/YYYY");
    ReplaceAfter(D + "/", "MM", M, "/YYYY");
  }

  lemma DisplayYear(D: string, M: string, Y: string)
    requires 'Y' !in D && 'Y' !in M
    ensures ReplaceFirst(D + "/" + M + "/YYYY", "YYYY", Y) == D + "/" + M + "/" + Y
  {
    assert "/YYYY" == "/" + "YYYY" + "";
    Regroup(D + "/" + M, "/", "YYYY", "");
    ReplaceAfter(D + "/" + M + "/", "YYYY", Y, "");
  }

  /** The default format's tokens, replaced in order. */
  lemma DisplayTokens(D: string, M: string, Y: string, H: string, N: string)
    requires FieldText(D) && FieldText(M) && FieldText(Y)
    ensures ReplaceTokens(DisplayFormat, D, M, Y, H, N) == D + "/" + M + "/" + Y
  {
    DisplayDay(D);
    DisplayMonth(D, M);
    DisplayYear(D, M, Y);
    var s := D + "/" + M + "/" + Y;
    ReplaceFirstAbsent(s, "HH", H);
    ReplaceFirstAbsent(s, "mm", N);
  }

  /** The default format gives `DD/MM/YYYY` with the day and month padded to two digits. */
  lemma FormatDisplay(date: JsValue, d: DateParts)
    requires Truthy(date)
    ensures FormatDate(date, DisplayFormat, d) == Pad2(d.day) + "/" + Pad2(d.month0 + 1) + "/" + IntToString(d.year)
  {
    FieldTexts(d);
    TokensOfDate(date, DisplayFormat, d);
    DisplayTokens(Pad2(d.day), Pad2(d.month0 + 1), IntToString(d.year), Pad2(d.hours), Pad2(d.minutes));
  }

  lemma ApiDay(D: string)
    ensures ReplaceFirst(ApiFormat, "DD", D) == "YYYY-MM-" + D
  {
    assert ApiFormat == "YYYY-MM-" + "DD" + "";
    ReplaceAfter("YYYY-MM-", "DD", D, "");
  }

  lemma ApiMonth(D: string, M: string)
    ensures ReplaceFirst("YYYY-MM-" + D, "MM", M) == "YYYY-" + M + "-" + D
  {
    assert "YYYY-MM-" == "YYYY-" + "MM" + "-";
    assert "YYYY-MM-" + D == "YYYY-" + "MM" + ("-" + D);
    ReplaceAfter("YYYY-", "MM", M, "-" + D);
  }

  lemma ApiYear(D: string, M: string, Y: string)
    ensures ReplaceFirst("YYYY-" + M + "-" + D, "YYYY", Y) == Y + "-" + M + "-" + D
  {
    assert "YYYY-" + M + "-" + D == "" + "YYYY" + ("-" + M + "-" + D);
    ReplaceAfter("", "YYYY", Y, "-" + M + "-" + D);
  }

  /** The API format's tokens, replaced in order. */
  lemma ApiTokens(D: string, M: string, Y: string, H: string, N: string)
    requires FieldText(D) && FieldText(M) && FieldText(Y)
    ensures ReplaceTokens(ApiFormat, D, M, Y, H, N) == Y + "-" + M + "-" + D
  {
    ApiDay(D);
    ApiMonth(D, M);
    ApiYear(D, M, Y);
    var s := Y + "-" + M + "-" + D;
    ReplaceFirstAbsent(s, "HH", H);
    ReplaceFirstAbsent(s, "mm", N);
  }

  /** The API format gives `YYYY-MM-DD`. */
  lemma FormatApi(date: JsValue, d: DateParts)
    requires Truthy(date)
    ensures FormatDate(date, ApiFormat, d) == IntToString(d.year) + "-" + Pad2(d.month0 + 1) + "-" + Pad2(d.day)
  {
    FieldTexts(d);
    TokensOfDate(date, ApiFormat, d);
    ApiTokens(Pad2(d.day), Pad2(d.month0 + 1), IntToString(d.year), Pad2(d.hours), Pad2(d.minutes));
  }

  lemma DateTimeDay(D: string)
    ensures ReplaceFirst(DateTimeFormat, "DD", D) == D + "/MM/YYYY HH:mm"
  {
    assert DateTimeFormat == "DD" + "/MM/YYYY HH:mm";
    ReplaceAtStart("DD", D, "/MM/YYYY HH:mm");
  }

  lemma DateTimeMonth(D: string, M: string)
    requires 'M' !in D
    ensures ReplaceFirst(D + "/MM/YYYY HH:mm", "MM", M) == D + "/" + M + "/YYYY HH:mm"
  {
    assert "/MM/YYYY HH:mm" == "/" + "MM" + "/YYYY HH:mm";
    Regroup(D, "/", "MM", "/YYYY HH:mm");
    ReplaceAfter(D + "/", "MM", M, "/YYYY HH:mm");
  }

  lemma DateTimeYear(D: string, M: string, Y: string)
    requires 'Y' !in D && 'Y' !in M
    ensures ReplaceFirst(D + "/" + M + "/YYYY HH:mm", "YYYY", Y) == D + "/" + M + "/" + Y + " HH:mm"
  {
    assert "/YYYY HH:mm" == "/" + "YYYY" + " HH:mm";
    Regroup(D + "/" + M, "/", "YYYY", " HH:mm");
    ReplaceAfter(D + "/" + M + "/", "YYYY", Y, " HH:mm");
  }

  lemma DateTimeHours(date: string, H: string)
    requires 'H' !in date
    ensures ReplaceFirst(date + " HH:mm", "HH", H) == date + " " + H + ":mm"
  {
    assert " HH:mm" == " " + "HH" + ":mm";
    Regroup(date, " ", "HH", ":mm");
    ReplaceAfter(date + " ", "HH", H, ":mm");
  }

  lemma DateTimeMinutes(date: string, H: string, N: string)
    requires 'm' !in date && 'm' !in H
    ensures ReplaceFirst(date + " " + H + ":mm", "mm", N) == date + " " + H + ":" + N
  {
    assert ":mm" == ":" + "mm" + "";
    Regroup(date + " " + H, ":", "mm", "");
    ReplaceAfter(date + " " + H + ":", "mm", N, "");
  }

  /** The date-time format's tokens, replaced in order. */
  lemma DateTimeTokens(D: string, M: string, Y: string, H: string, N: string)
    requires FieldText(D) && FieldText(M) && FieldText(Y) && FieldText(H)
    ensures ReplaceTokens(DateTimeFormat, D, M, Y, H, N) == D + "/" + M + "/" + Y + " " + H + ":" + N
  {
    DateTimeDay(D);
    DateTimeMonth(D, M);
    DateTimeYear(D, M, Y);
    DateTimeHours(D + "/" + M + "/" + Y, H);
    DateTimeMinutes(D + "/" + M + "/" + Y, H, N);
  }

  /** The date-time format gives `DD/MM/YYYY HH:mm`. */
  lemma FormatDateTime(date: JsValue, d: DateParts)
    requires Truthy(date)
    ensures FormatDate(date, DateTimeFormat, d)
         == Pad2(d.day) + "/" + Pad2(d.month0 + 1) + "/" + IntToString(d.year) + " " + Pad2(d.hours) + ":" + Pad2(d.minutes)
  {
    FieldTexts(d);
    TokensOfDate(date, DateTimeFormat, d);
    DateTimeTokens(Pad2(d.day), Pad2(d.month0 + 1), IntToString(d.year), Pad2(d.hours), Pad2(d.minutes));
  }

  // ----- isValidEmail -----

  /** The class `[^\s@]`. */
  predicate Plain(c: char) {
    !IsWs(c) && c != '@'
  }

  /** One or more characters of `[^\s@]`. */
  predicate PlainRun(s: string) {
    |s| > 0 && forall i :: 0 <= i < |s| ==> Plain(s[i])
  }

  /** `/^[^\s@]+@[^\s@]+\.[^\s@]+$/.test(email)`: the text is such a run, `@`, a run, `.`, a run. */
  predicate IsValidEmail(email: string) {
    exists i, j :: 0 <= i < j < |email| && email[i] == '@' && email[j] == '.'
      && PlainRun(email[..i]) && PlainRun(email[i + 1..j]) && PlainRun(email[j + 1..])
  }

  /** The address read as the rule it states: one `@`, no blanks, a local part, and a dot inside the domain. */
  predicate EmailShape(email: string) {
    NoWs(email)
    && exists i :: 0 < i < |email| && email[i] == '@'
         && (forall k :: 0 <= k < |email| && email[k] == '@' ==> k == i)
         && (exists j :: i + 1 < j < |email| - 1 && email[j] == '.')
  }

  /**
   * The pattern accepts exactly the addresses with no whitespace, exactly
   * one `@`, a non-empty local part, and a `.` in the domain with text on
   * both sides of it.
   */
  lemma IsValidEmailIff(email: string)
    ensures IsValidEmail(email) <==> EmailShape(email)
  {
    if IsValidEmail(email) {
      var i, j :| 0 <= i < j < |email| && email[i] == '@' && email[j] == '.'
        && PlainRun(email[..i]) && PlainRun(email[i + 1..j]) && PlainRun(email[j + 1..]);
      RunsHaveShape(email, i, j);
    }
    if EmailShape(email) {
      var i :| 0 < i < |email| && email[i] == '@'
        && (forall k :: 0 <= k < |email| && email[k] == '@' ==> k == i)
        && exists j :: i + 1 < j < |email| - 1 && email[j] == '.';
      var j :| i + 1 < j < |email| - 1 && email[j] == '.';
      ShapeHasRuns(email, i, j);
    }
  }

  /** Three runs around an `@` and a `.` make an address of that shape. */
  lemma RunsHaveShape(email: string, i: nat, j: nat)
    requires i < j < |email| && email[i] == '@' && email[j] == '.'
    requires PlainRun(email[..i]) && PlainRun(email[i + 1..j]) && PlainRun(email[j + 1..])
    ensures EmailShape(email)
  {
    forall k | 0 <= k < |email| && k != i ensures Plain(email[k]) {
      if k < i {
        assert email[k] == email[..i][k];
      } else if k < j {
        assert email[k] == email[i + 1..j][k - i - 1];
      } else if k > j {
        assert email[k] == email[j + 1..][k - j - 1];
      }
    }
    assert NoWs(email);
    assert i + 1 < j < |email| - 1 && email[j] == '.';
  }

  /** An address of that shape splits into the three runs at its `@` and a `.` of its domain. */
  lemma ShapeHasRuns(email: string, i: nat, j: nat)
    requires NoWs(email) && 0 < i && i + 1 < j < |email| - 1 && email[i] == '@' && email[j] == '.'
    requires forall k :: 0 <= k < |email| && email[k] == '@' ==> k == i
    ensures PlainRun(email[..i]) && PlainRun(email[i + 1..j]) && PlainRun(email[j + 1..])
  {
    assert PlainRun(email[..i]);
    assert PlainRun(email[i + 1..j]);
    assert PlainRun(email[j + 1..]);
  }

  lemma EmailExamples()
    ensures IsValidEmail("a@b.co")
    ensures !IsValidEmail("a@b")
    ensures !IsValidEmail("a@@b.co")
  {
    IsValidEmailIff("a@b.co");
    assert "a@b.co"[1] == '@' && "a@b.co"[3] == '.';
    IsValidEmailIff("a@b");
    IsValidEmailIff("a@@b.co");
    assert "a@@b.co"[1] == '@' && "a@@b.co"[2] == '@';
  }

  // ----- objectToQueryString -----

  /** The characters `encodeURIComponent` leaves as they are. */
  predicate Unreserved(c: char) {
    ('a' <= c <= 'z') || ('A' <= c <= 'Z') || IsDigit(c)
    || c == '-' || c == '_' || c == '.' || c == '!' || c == '~' || c == '*' || c == '\'' || c == '(' || c == ')'
  }

  function UpperHex(d: nat): (c: char)
    requires d < 16
    ensures IsDigit(c) || 'A' <= c <= 'F'
  {
    if d < 10 then DigitChar(d) else ('A' as int + d - 10) as char
  }

  /** `%XX` for one byte. */
  function PercentByte(b: nat): (r: string)
    ensures |r| == 3 && r[0] == '%' && r[1] != '&' && r[1] != '=' && r[2] != '&' && r[2] != '='
  {
    "%" + [UpperHex((b / 16) % 16), UpperHex(b % 16)]
  }

  /** The UTF-8 bytes of a code point. */
  function Utf8(cp: nat): (r: seq<nat>)
    ensures 1 <= |r| <= 4
  {
    if cp < 0x80 then [cp]
    else if cp < 0x800 then [0xC0 + cp / 0x40, 0x80 + cp % 0x40]
    else if cp < 0x10000 then [0xE0 + cp / 0x1000, 0x80 + (cp / 0x40) % 0x40, 0x80 + cp % 0x40]
    else [0xF0 + cp / 0x40000, 0x80 + (cp / 0x1000) % 0x40, 0x80 + (cp / 0x40) % 0x40, 0x80 + cp % 0x40]
  }

  function PercentBytes(bs: seq<nat>): (r: string)
    ensures '&' !in r && '=' !in r
  {
    if |bs| == 0 then "" else PercentByte(bs[0]) + PercentBytes(bs[1..])
  }

  function EncodeChar(c: char): (r: string)
    ensures '&' !in r && '=' !in r
  {
    if Unreserved(c) then [c] else PercentBytes(Utf8(c as int))
  }

  /** `encodeURIComponent(s)`: never yields `&` or `=`, the separators of a query string. */
  function EncodeURIComponent(s: string): (r: string)
    ensures '&' !in r && '=' !in r
  {
    if |s| == 0 then "" else EncodeChar(s[0]) + EncodeURIComponent(s[1..])
  }

  /** The filter: `null`, `undefined` and `''` are dropped; `0` and `false` are kept. */
  function IsSent(): Member -> bool {
    (m: Member) => !m.value.Null? && !m.value.Undefined? && m.value != Str("")
  }

  /** `key=value` with both halves encoded. */
  function QueryPair(m: Member): string {
    EncodeURIComponent(m.key) + "=" + EncodeURIComponent(ToJsString(m.value))
  }

  function QueryPairs(kept: seq<Member>): (r: seq<string>)
    ensures |r| == |kept|
    ensures forall i :: 0 <= i < |kept| ==> r[i] == QueryPair(kept[i])
  {
    seq(|kept|, i requires 0 <= i < |kept| => QueryPair(kept[i]))
  }

  /**
   * `objectToQueryString(obj)`, the members given in `Object.keys` order:
   * the sent members' pairs joined by `&`.
   */
  function ObjectToQueryString(obj: seq<Member>): string {
    Join(QueryPairs(Keep(obj, IsSent())), "&")
  }

  /** Splitting at the separator gives back the parts, when none contains it. */
  lemma {:induction false} SplitJoin(parts: seq<string>, sep: char)
    requires |parts| > 0
    requires forall i :: 0 <= i < |parts| ==> sep !in parts[i]
    ensures Split(Join(parts, [sep]), sep) == parts
  {
    if |parts| == 1 {
      SplitNoSep(parts[0], sep);
    } else {
      SplitJoin(parts[1..], sep);
      SplitAt(parts[0], Join(parts[1..], [sep]), sep);
      assert [parts[0]] + parts[1..] == parts;
    }
  }

  /**
   * The query string reads back as the sent members in order: split at `&`
   * it gives one pair per sent member, and it is empty exactly when no
   * member is sent.
   */
  lemma QueryStringSplits(obj: seq<Member>)
    ensures var kept := Keep(obj, IsSent());
      (ObjectToQueryString(obj) == "" <==> |kept| == 0)
      && (|kept| > 0 ==> Split(ObjectToQueryString(obj), '&') == QueryPairs(kept))
  {
    var pairs := QueryPairs(Keep(obj, IsSent()));
    if |pairs| > 0 {
      SplitJoin(pairs, '&');
      assert |pairs[0]| > 0 by { assert '=' in pairs[0] by { assert pairs[0][|EncodeURIComponent(Keep(obj, IsSent())[0].key)|] == '='; } }
      assert "&" == ['&'];
      if |pairs| == 1 {
      } else {
        assert |Join(pairs, "&")| >= |pairs[0]|;
      }
    }
  }

  /** Each pair splits at `=` into the encoded key and the encoded value. */
  lemma PairSplits(m: Member)
    ensures Split(QueryPair(m), '=') == [EncodeURIComponent(m.key), EncodeURIComponent(ToJsString(m.value))]
  {
    var k, v := EncodeURIComponent(m.key), EncodeURIComponent(ToJsString(m.value));
    SplitAt(k, v, '=');
    SplitNoSep(v, '=');
    assert QueryPair(m) == k + ['='] + v;
  }

  lemma {:induction false} EncodeUnreserved(s: string)
    requires forall i :: 0 <= i < |s| ==> Unreserved(s[i])
    ensures EncodeURIComponent(s) == s
  {
    if |s| > 0 {
      EncodeUnreserved(s[1..]);
      assert [s[0]] + s[1..] == s;
    }
  }

  lemma QueryOfOne(m: Member)
    requires IsSent()(m)
    ensures ObjectToQueryString([m]) == QueryPair(m)
  {
    KeepSnoc([], m, IsSent());
    assert [] + [m] == [m];
  }

  /** Zero is sent. */
  lemma SentZero(k: string)
    ensures ObjectToQueryString([Member(k, Num(0))]) == EncodeURIComponent(k) + "=" + "0"
  {
    QueryOfOne(Member(k, Num(0)));
    EncodeUnreserved("0");
  }

  /** `false` is sent. */
  lemma SentFalse(k: string)
    ensures ObjectToQueryString([Member(k, Bool(false))]) == EncodeURIComponent(k) + "=" + "false"
  {
    QueryOfOne(Member(k, Bool(false)));
    assert ToJsString(Bool(false)) == "false";
    assert EncodeURIComponent("false") == "false" by {
      assert forall i :: 0 <= i < |"false"| ==> Unreserved("false"[i]);
      EncodeUnreserved("false");
    }
  }

  /** `null`, `undefined` and `''` are not sent. */
  lemma NotSent(k: string)
    ensures ObjectToQueryString([Member(k, Null), Member(k, Undefined), Member(k, Str(""))]) == ""
  {
    KeepNone([Member(k, Null), Member(k, Undefined), Member(k, Str(""))], IsSent());
  }

  // ----- exportToCSV -----

  /** The keys of an object's members, in order. */
  function MemberKeys(fs: seq<Member>): (r: seq<string>)
    ensures |r| == |fs|
    ensures forall i :: 0 <= i < |fs| ==> r[i] == fs[i].key
  {
    if |fs| == 0 then [] else [fs[0].key] + MemberKeys(fs[1..])
  }

  /** `Object.keys(v)` of a row; a row that is not an object has none. */
  function Keys(v: JsValue): seq<string> {
    if v.Obj? then MemberKeys(v.fields) else []
  }

  /** `JSON.stringify(row[h] || '')`: a falsy cell is written `""`. */
  function CsvCell(row: JsValue, header: string): (r: string)
    ensures !Truthy(Get(row, header)) ==> r == "\"\""
  {
    var v := Or(Get(row, header), Str(""));
    match Stringify(v)
    case Some(t) => t
    case None => assert false; ""
  }

  function CsvLine(row: JsValue, headers: seq<string>): (r: string)
  {
    Join(seq(|headers|, i requires 0 <= i < |headers| => CsvCell(row, headers[i])), ",")
  }

  /** The lines of the export: the first row's keys, then one line per row under those keys. */
  function CsvLines(data: seq<JsValue>): (r: seq<string>)
    requires |data| > 0
    ensures |r| == |data| + 1
    ensures r[0] == Join(Keys(data[0]), ",")
    ensures forall i :: 0 <= i < |data| ==> r[i + 1] == CsvLine(data[i], Keys(data[0]))
  {
    [Join(Keys(data[0]), ",")] + seq(|data|, i requires 0 <= i < |data| => CsvLine(data[i], Keys(data[0])))
  }

  /** The CSV text of `exportToCSV(data)`; nothing for `null`, `undefined` or an empty list. */
  function ExportToCsv(data: Option<seq<JsValue>>): (r: Option<string>)
    ensures r.None? <==> data.None? || |data.value| == 0
  {
    if data.None? || |data.value| == 0 then None else Some(Join(CsvLines(data.value), "\n"))
  }

  lemma {:induction false} EscapeNoNewline(s: string)
    ensures '\n' !in Escape(s)
  {
    if |s| > 0 {
      EscapeNoNewline(s[1..]);
      var e := EscapeChar(s[0]);
      assert '\n' !in e;
      assert Escape(s) == e + Escape(s[1..]);
    }
  }

  /** `JSON.stringify` never writes a raw line break. */
  lemma {:induction false} StringifyNoNewline(v: JsValue)
    ensures Stringify(v).Some? ==> '\n' !in Stringify(v).value
    decreases v, 1
  {
    match v
    case Str(s) => EscapeNoNewline(s);
    case Arr(es) => ElemsNoNewline(es);
    case Obj(fs) => FieldsNoNewline(fs);
    case Num(n) =>
      assert '\n' !in NatToString(if n < 0 then -n else n);
    case Null =>
    case NaN =>
    case Bool(_) =>
    case Undefined =>
  }

  lemma {:induction false} ElemsNoNewline(es: seq<JsValue>)
    ensures '\n' !in StringifyElems(es)
    decreases es, 0
  {
    if |es| > 0 {
      StringifyNoNewline(es[0]);
      ElemsNoNewline(es[1..]);
    }
  }

  lemma {:induction false} FieldsNoNewline(fs: seq<Member>)
    ensures '\n' !in StringifyFields(fs)
    decreases fs, 0
  {
    if |fs| > 0 {
      StringifyNoNewline(fs[0].value);
      FieldsNoNewline(fs[1..]);
      EscapeNoNewline(fs[0].key);
    }
  }

  lemma {:induction false} JoinNoChar(parts: seq<string>, sep: string, c: char)
    requires c !in sep
    requires forall i :: 0 <= i < |parts| ==> c !in parts[i]
    ensures c !in Join(parts, sep)
  {
    if |parts| > 1 {
      JoinNoChar(parts[1..], sep, c);
    }
  }

  /**
   * The export reads back line by line: split at the line breaks it gives
   * the header and one line per row, provided no key of the first row holds
   * a line break (the cells never do).
   */
  lemma CsvLinesSplit(data: seq<JsValue>)
    requires |data| > 0
    requires forall i :: 0 <= i < |Keys(data[0])| ==> '\n' !in Keys(data[0])[i]
    ensures Split(ExportToCsv(Some(data)).value, '\n') == CsvLines(data)
    ensures |Split(ExportToCsv(Some(data)).value, '\n')| == |data| + 1
  {
    var headers := Keys(data[0]);
    var lines := CsvLines(data);
    JoinNoChar(headers, ",", '\n');
    forall i | 0 <= i < |lines| ensures '\n' !in lines[i] {
      if i > 0 {
        var row := data[i - 1];
        var cells := seq(|headers|, k requires 0 <= k < |headers| => CsvCell(row, headers[k]));
        forall k | 0 <= k < |headers| ensures '\n' !in cells[k] {
          StringifyNoNewline(Or(Get(row, headers[k]), Str("")));
        }
        JoinNoChar(cells, ",", '\n');
        assert lines[i] == CsvLine(row, headers);
      }
    }
    assert "\n" == ['\n'];
    SplitJoin(lines, '\n');
  }

  // ----- renderTemplate -----

  /** The length of the run of `\w` characters that starts `s`. */
  function WordRun(s: string): (n: nat)
    ensures n <= |s|
    ensures forall i :: 0 <= i < n ==> IsWordChar(s[i])
    ensures n < |s| ==> !IsWordChar(s[n])
  {
    if |s| == 0 || !IsWordChar(s[0]) then 0 else 1 + WordRun(s[1..])
  }

  /** The length of the `{{word}}` that starts `t`, or 0 when none does. */
  function TokenLength(t: string): (n: nat)
    ensures n == 0 || (5 <= n <= |t| && t[..2] == "{{" && t[n - 2..n] == "}}")
  {
    if |t| >= 2 && t[0] == '{' && t[1] == '{' then
      var w := WordRun(t[2..]);
      if w > 0 && 2 + w + 2 <= |t| && t[2 + w] == '}' && t[3 + w] == '}' then
        assert t[..2] == "{{" && t[w + 2..w + 4] == "}}";
        w + 4
      else 0
    else 0
  }

  /** What replaces `{{key}}`: `String(data[key])` when it is defined, the token itself otherwise. */
  function Replacement(key: string, data: JsValue): string {
    var v := Get(data, key);
    if v.Undefined? then "{{" + key + "}}" else ToJsString(v)
  }

  /** `template.replace(/\{\{(\w+)\}\}/g, ...)`: one left-to-right pass. */
  function RenderTemplate(template: string, data: JsValue): string
    decreases |template|
  {
    if |template| == 0 then ""
    else
      var n := TokenLength(template);
      if n > 0 then Replacement(template[2..n - 2], data) + RenderTemplate(template[n..], data)
      else [template[0]] + RenderTemplate(template[1..], data)
  }

  /** A non-empty run of `\w` characters. */
  predicate IsWord(k: string) {
    |k| > 0 && forall i :: 0 <= i < |k| ==> IsWordChar(k[i])
  }

  /**
   * A token at the front is replaced and the pass goes on after it: the
   * inserted value is never scanned again, so a value holding `{{x}}` is
   * not expanded.
   */
  lemma RenderToken(key: string, rest: string, data: JsValue)
    requires IsWord(key)
    ensures RenderTemplate("{{" + key + "}}" + rest, data) == Replacement(key, data) + RenderTemplate(rest, data)
  {
    var t := "{{" + key + "}}" + rest;
    assert t[2..] == key + "}}" + rest;
    WordRunOf(key, "}}" + rest);
    assert t[2 + |key|] == '}' && t[3 + |key|] == '}';
    assert TokenLength(t) == |key| + 4;
    assert t[2..|key| + 2] == key;
    assert t[|key| + 4..] == rest;
  }

  lemma {:induction false} WordRunOf(key: string, rest: string)
    requires forall i :: 0 <= i < |key| ==> IsWordChar(key[i])
    requires |rest| > 0 && !IsWordChar(rest[0])
    ensures WordRun(key + rest) == |key|
  {
    if |key| > 0 {
      WordRunOf(key[1..], rest);
      assert (key + rest)[1..] == key[1..] + rest;
    } else {
      assert key + rest == rest;
    }
  }

  /** A token whose key is undefined stays as it was; a defined one becomes its value. */
  lemma RenderOne(key: string, data: JsValue)
    requires IsWord(key)
    ensures Get(data, key).Undefined? ==> RenderTemplate("{{" + key + "}}", data) == "{{" + key + "}}"
    ensures !Get(data, key).Undefined? ==> RenderTemplate("{{" + key + "}}", data) == ToJsString(Get(data, key))
  {
    RenderToken(key, "", data);
    assert "{{" + key + "}}" + "" == "{{" + key + "}}";
  }

  /** A template with no `{` is returned unchanged. */
  lemma {:induction false} RenderPlain(template: string, data: JsValue)
    requires '{' !in template
    ensures RenderTemplate(template, data) == template
    decreases |template|
  {
    if |template| > 0 {
      assert template[0] != '{';
      RenderPlain(template[1..], data);
      assert [template[0]] + template[1..] == template;
    }
  }
}
