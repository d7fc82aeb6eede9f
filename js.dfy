/**
 * JavaScript values as the handlers receive them from request bodies and
 * query strings, with the conversions the code applies to them: truthiness,
 * `String(x)`, `Number(x)`, `parseInt`, the sign of `parseFloat` and
 * `JSON.stringify`. Numbers are integers; `NaN` is a value of its own.
 */
module Js {
  import opened Wrappers
  import opened Text

  datatype JsValue =
    | Undefined
    | Null
    | Bool(b: bool)
    | Num(n: int)
    | NaN
    | Str(s: string)
    | Arr(elems: seq<JsValue>)
    | Obj(fields: seq<Member>)

  /** One `key: value` entry of an object literal. */
  datatype Member = Member(key: string, value: JsValue)

  /** What `if (v)` and `v || d` test. */
  predicate Truthy(v: JsValue) {
    match v
    case Undefined => false
    case Null => false
    case Bool(b) => b
    case Num(n) => n != 0
    case NaN => false
    case Str(s) => s != ""
    case Arr(_) => true
    case Obj(_) => true
  }

  /** Truthiness of an optional numeric id: absent and `0` are falsy. */
  predicate TruthyId(x: Option<int>) {
    x.Some? && x.value != 0
  }

  /** What `v ?? d` and `v != null` test. */
  predicate Nullish(v: JsValue) {
    v.Undefined? || v.Null?
  }

  /** `a || b`. */
  function Or(a: JsValue, b: JsValue): (r: JsValue)
    ensures Truthy(r) <==> Truthy(a) || Truthy(b)
    ensures Truthy(a) ==> r == a
  {
    if Truthy(a) then a else b
  }

  /** `obj[key]`: the first field of that name, `undefined` when there is none. */
  function Get(v: JsValue, key: string): (r: JsValue)
    ensures !v.Obj? ==> r == Undefined
    ensures v.Obj? && (forall i :: 0 <= i < |v.fields| ==> v.fields[i].key != key) ==> r == Undefined
    decreases if v.Obj? then |v.fields| else 0
  {
    if !v.Obj? || |v.fields| == 0 then Undefined
    else if v.fields[0].key == key then v.fields[0].value
    else Get(Obj(v.fields[1..]), key)
  }

  /** `String(v)`. */
  function ToJsString(v: JsValue): string
    decreases v
  {
    match v
    case Undefined => "undefined"
    case Null => "null"
    case Bool(b) => if b then "true" else "false"
    case Num(n) => IntToString(n)
    case NaN => "NaN"
    case Str(s) => s
    case Arr(es) => ElemsToString(es)
    case Obj(_) => "[object Object]"
  }

  /** `String(array)`: the elements joined by commas, `null`/`undefined` as empty. */
  function ElemsToString(es: seq<JsValue>): string
    decreases es
  {
    if |es| == 0 then ""
    else
      var head := if Nullish(es[0]) then "" else ToJsString(es[0]);
      if |es| == 1 then head else head + "," + ElemsToString(es[1..])
  }

  /** A JavaScript string is truthy exactly when `String` of it is non-empty. */
  lemma StrTruthy(s: string)
    ensures Truthy(Str(s)) <==> ToJsString(Str(s)) != ""
  {
  }

  // ---------------------------------------------------------------------
  // Number(x) and parseInt
  // ---------------------------------------------------------------------

  predicate AllDigits(s: string) {
    forall i :: 0 <= i < |s| ==> IsDigit(s[i])
  }

  /**
   * `Number(s)` for a string: surrounding whitespace is ignored and the
   * empty string is 0; `0b`, `0o` and `0x` (either case) followed by digits
   * of that base are read in that base; otherwise an optional sign and a
   * decimal numeral with an optional exponent. A numeral whose value is not
   * a whole number, and anything else, is NaN here.
   */
  function StringToNumber(s: string): (r: JsValue)
    ensures r.Num? || r.NaN?
  {
    NumberOfTrimmed(Trim(s))
  }

  function NumberOfTrimmed(t: string): (r: JsValue)
    ensures r.Num? || r.NaN?
  {
    if t == "" then Num(0)
    else if |t| > 2 && t[0] == '0' && PrefixBase(t[1]) != 0 then PrefixedNumber(t[2..], PrefixBase(t[1]))
    else SignedDecimal(t)
  }

  /** The digits after a `0b`/`0o`/`0x` prefix: their value, or NaN when one is not a digit of the base. */
  function PrefixedNumber(ds: string, base: nat): (r: JsValue)
    requires base == 2 || base == 8 || base == 16
    ensures r.Num? || r.NaN?
  {
    if forall i :: 0 <= i < |ds| ==> IsBaseDigit(ds[i], base) then Num(BaseValue(ds, base)) else NaN
  }

  /** An optional sign and a decimal numeral; NaN unless its value is a whole number. */
  function SignedDecimal(t: string): (r: JsValue)
    requires |t| > 0
    ensures r.Num? || r.NaN?
  {
    var u := if t[0] == '-' || t[0] == '+' then t[1..] else t;
    match DecimalNumeral(u)
    case None => NaN
    case Some(d) =>
      match WholeValue(d)
      case None => NaN
      case Some(v) => Num(if t[0] == '-' then -(v as int) else v)
  }

  /** The base a `0b`, `0o` or `0x` prefix selects; 0 for any other letter. */
  function PrefixBase(c: char): nat {
    if c == 'b' || c == 'B' then 2
    else if c == 'o' || c == 'O' then 8
    else if c == 'x' || c == 'X' then 16
    else 0
  }

  predicate IsBaseDigit(c: char, base: nat) {
    IsHexDigit(c) && HexValue(c) < base
  }

  /** The value of a run of digits of the given base, most significant first. */
  function BaseValue(s: string, base: nat): nat
    requires base == 2 || base == 8 || base == 16
    requires forall i :: 0 <= i < |s| ==> IsBaseDigit(s[i], base)
  {
    if |s| == 0 then 0
    else
      assert IsBaseDigit(s[|s| - 1], base);
      var high := BaseValue(s[..|s| - 1], base);
      (if base == 2 then 2 * high else if base == 8 then 8 * high else 16 * high) + HexValue(s[|s| - 1])
  }

  /** A decimal numeral as `mantissa × 10^exponent`. */
  datatype Decimal = Decimal(mantissa: nat, exponent: int)

  /** `m × 10^n`. */
  function Scale(m: nat, n: nat): nat {
    if n == 0 then m else 10 * Scale(m, n - 1)
  }

  /** `m ÷ 10^n` when the division is exact. */
  function Unscale(m: nat, n: nat): Option<nat> {
    if n == 0 then Some(m) else if m % 10 != 0 then None else Unscale(m / 10, n - 1)
  }

  /** The division is exact exactly when some whole number scales back to `m`, and then it is that number. */
  lemma {:induction false} UnscaleSpec(m: nat, n: nat)
    ensures Unscale(m, n).Some? ==> Scale(Unscale(m, n).value, n) == m
    ensures Unscale(m, n).None? ==> forall q: nat :: Scale(q, n) != m
    decreases n
  {
    if n > 0 {
      if m % 10 == 0 {
        UnscaleSpec(m / 10, n - 1);
        if Unscale(m, n).Some? {
          assert Scale(Unscale(m, n).value, n) == 10 * Scale(Unscale(m / 10, n - 1).value, n - 1);
        } else {
          forall q: nat ensures Scale(q, n) != m {
            Tenfold(Scale(q, n - 1));
            assert Scale(q, n - 1) != m / 10;
          }
        }
      } else {
        forall q: nat ensures Scale(q, n) != m {
          Tenfold(Scale(q, n - 1));
        }
      }
    }
  }

  lemma Tenfold(x: nat)
    ensures (10 * x) % 10 == 0 && (10 * x) / 10 == x
  {
  }

  /** `e` or `E`, an optional sign and at least one digit; no text at all is exponent 0. */
  function ExponentPart(s: string): (r: Option<int>)
    ensures |s| > 0 && s[0] != 'e' && s[0] != 'E' ==> r.None?
  {
    if |s| == 0 then Some(0)
    else if s[0] == 'e' || s[0] == 'E' then
      var signed := |s| > 1 && (s[1] == '-' || s[1] == '+');
      var ds := if signed then s[2..] else s[1..];
      if |ds| > 0 && AllDigits(ds) then
        Some(if signed && s[1] == '-' then -(DigitsValue(ds) as int) else DigitsValue(ds) as int)
      else None
    else None
  }

  /**
   * An unsigned decimal numeral: digits, optionally a point and more
   * digits, at least one digit in all, then an optional exponent. The
   * mantissa is all the digits read as one number; the exponent is reduced
   * by the number of digits after the point.
   */
  function DecimalNumeral(u: string): Option<Decimal> {
    var m := DigitRun(u, false);
    var afterInt := u[m..];
    var point := |afterInt| > 0 && afterInt[0] == '.';
    var afterPoint := if point then afterInt[1..] else afterInt;
    var f := if point then DigitRun(afterPoint, false) else 0;
    if m + f == 0 then None
    else
      var digits := u[..m] + afterPoint[..f];
      assert AllDigits(digits);
      match ExponentPart(afterPoint[f..])
      case None => None
      case Some(e) => Some(Decimal(DigitsValue(digits), e - f))
  }

  /** The value of a decimal when it is a whole number. */
  function WholeValue(d: Decimal): Option<nat> {
    if d.exponent >= 0 then Some(Scale(d.mantissa, d.exponent)) else Unscale(d.mantissa, -d.exponent)
  }

  /** A decimal is whole exactly when a whole number scales to its mantissa, and its value is that number. */
  lemma WholeValueMeaning(d: Decimal)
    ensures d.exponent >= 0 ==> WholeValue(d) == Some(Scale(d.mantissa, d.exponent))
    ensures d.exponent < 0 && WholeValue(d).Some? ==> Scale(WholeValue(d).value, -d.exponent) == d.mantissa
    ensures d.exponent < 0 ==> WholeValue(d) == Unscale(d.mantissa, -d.exponent)
  {
    if d.exponent < 0 {
      UnscaleSpec(d.mantissa, -d.exponent);
    }
  }

  /** `Number(v)`. */
  function ToNumber(v: JsValue): (r: JsValue)
    ensures r.Num? || r.NaN?
  {
    match v
    case Undefined => NaN
    case Null => Num(0)
    case Bool(b) => Num(if b then 1 else 0)
    case Num(n) => v
    case NaN => NaN
    case Str(s) => StringToNumber(s)
    case Arr(_) => StringToNumber(ToJsString(v))
    case Obj(_) => NaN
  }

  /** A plain run of decimal digits is read as its value. */
  lemma NumberOfDigits(s: string)
    requires |s| > 0 && AllDigits(s)
    ensures StringToNumber(s) == Num(DigitsValue(s))
  {
    DecimalOfDigits(s);
    if |s| > 1 {
      DigitIsNoBase(s[1]);
    }
    PlainDecimalText(s, Decimal(DigitsValue(s), 0), DigitsValue(s));
  }

  /** A text that starts with neither a digit, a sign nor a point is not a numeral. */
  lemma NoLeadingDigitIsNaN(t: string)
    requires |t| > 0 && !IsWs(t[0]) && !IsWs(t[|t| - 1])
    requires !IsDigit(t[0]) && t[0] != '.' && t[0] != '-' && t[0] != '+'
    ensures StringToNumber(t) == NaN
  {
    TrimFixed(t);
    assert NumberOfTrimmed(t) == SignedDecimal(t);
    assert DigitRun(t, false) == 0;
    assert DecimalNumeral(t) == None;
  }

  /** A digit, a point and a digit: `i.f`. */
  predicate IsOneDecimalPlace(t: string) {
    |t| == 3 && IsDigit(t[0]) && t[1] == '.' && IsDigit(t[2])
  }

  /** One digit, a point and a non-zero digit is no whole number. */
  lemma FractionIsNaN(t: string)
    requires IsOneDecimalPlace(t) && t[2] != '0'
    ensures StringToNumber(t) == NaN
  {
    var d := Decimal(10 * DigitValue(t[0]) + DigitValue(t[2]), -1);
    FractionDecimal(t);
    FractionNotWhole(d.mantissa, t[2]);
    UnsignedNotWhole(t, d);
    TrimmedNumber(t);
    UnprefixedNumber(t);
  }

  /** A mantissa ending in a non-zero digit, scaled by 10^-1, is not whole. */
  lemma FractionNotWhole(m: nat, f: char)
    requires '1' <= f <= '9' && m % 10 == DigitValue(f)
    ensures WholeValue(Decimal(m, -1)).None?
  {
  }

  /** An unsigned numeral whose value is not whole is NaN. */
  lemma UnsignedNotWhole(u: string, d: Decimal)
    requires |u| > 0 && u[0] != '-' && u[0] != '+' && DecimalNumeral(u) == Some(d) && WholeValue(d).None?
    ensures SignedDecimal(u) == NaN
  {
  }

  /** `i.f` is the decimal `if × 10^-1`. */
  lemma FractionDecimal(t: string)
    requires IsOneDecimalPlace(t)
    ensures DecimalNumeral(t) == Some(Decimal(10 * DigitValue(t[0]) + DigitValue(t[2]), -1))
    ensures (10 * DigitValue(t[0]) + DigitValue(t[2])) % 10 == DigitValue(t[2])
  {
    LastDigit(DigitValue(t[0]), DigitValue(t[2]));
    var afterInt := t[1..];
    var afterPoint := afterInt[1..];
    assert DigitRun(afterInt, false) == 0;
    assert DigitRun(t, false) == 1;
    assert afterPoint[1..] == [];
    assert DigitRun(afterPoint, false) == 1;
    assert ExponentPart(afterPoint[1..]) == Some(0);
    var digits := t[..1] + afterPoint[..1];
    assert digits[..1] == t[..1] && digits[1] == t[2] && t[..1][..0] == [] && t[..1][0] == t[0];
    assert DigitsValue(t[..1]) == DigitValue(t[0]);
    assert DigitsValue(digits) == 10 * DigitValue(t[0]) + DigitValue(t[2]);
  }

  lemma LastDigit(x: nat, d: nat)
    requires d < 10
    ensures (10 * x + d) % 10 == d
  {
  }

  /** A numeral that starts and ends with a digit and has no base prefix is read as its whole decimal value. */
  lemma PlainDecimalText(t: string, d: Decimal, v: nat)
    requires |t| > 0 && IsDigit(t[0]) && IsDigit(t[|t| - 1])
    requires |t| > 1 ==> PrefixBase(t[1]) == 0
    requires DecimalNumeral(t) == Some(d) && WholeValue(d) == Some(v)
    ensures StringToNumber(t) == Num(v)
  {
    UnsignedDecimal(t, d, v);
    UnprefixedNumber(t);
    DigitEdgesTrimmed(t);
  }

  lemma DigitIsNoBase(c: char)
    requires IsDigit(c)
    ensures PrefixBase(c) == 0
  {
  }

  /** With a base prefix the rest is read as digits of that base. */
  lemma PrefixedBranch(t: string)
    requires |t| > 2 && t[0] == '0' && PrefixBase(t[1]) != 0
    ensures NumberOfTrimmed(t) == PrefixedNumber(t[2..], PrefixBase(t[1]))
  {
  }

  lemma HexDigitsOfBase(h: string)
    requires forall i :: 0 <= i < |h| ==> IsHexDigit(h[i])
    ensures PrefixedNumber(h, 16) == Num(BaseValue(h, 16))
  {
    assert forall i :: 0 <= i < |h| ==> IsBaseDigit(h[i], 16);
  }

  /** Without a base prefix the text is read as a decimal numeral. */
  lemma UnprefixedNumber(t: string)
    requires |t| > 0 && (|t| > 2 && t[0] == '0' ==> PrefixBase(t[1]) == 0)
    ensures NumberOfTrimmed(t) == SignedDecimal(t)
  {
  }

  /** An unsigned numeral with a whole value is read as that value. */
  lemma UnsignedDecimal(u: string, d: Decimal, v: nat)
    requires |u| > 0 && u[0] != '-' && u[0] != '+' && DecimalNumeral(u) == Some(d) && WholeValue(d) == Some(v)
    ensures SignedDecimal(u) == Num(v)
  {
  }

  /** A text with no whitespace at either end is read as it stands. */
  lemma TrimmedNumber(t: string)
    requires |t| > 0 ==> !IsWs(t[0]) && !IsWs(t[|t| - 1])
    ensures StringToNumber(t) == NumberOfTrimmed(t)
  {
    TrimFixed(t);
  }

  /** A text that starts with a digit and ends with a hexadecimal digit needs no trimming. */
  lemma DigitEdgesTrimmed(t: string)
    requires |t| > 0 && IsDigit(t[0]) && IsHexDigit(t[|t| - 1])
    ensures StringToNumber(t) == NumberOfTrimmed(t)
  {
    TrimmedNumber(t);
  }

  lemma DecimalOfDigits(a: string)
    requires |a| > 0 && AllDigits(a)
    ensures DecimalNumeral(a) == Some(Decimal(DigitsValue(a), 0))
  {
    DigitRunAll(a);
    var rest := a[|a|..];
    assert rest == [] && rest[0..] == [] && rest[..0] == [];
    assert a[..|a|] + rest[..0] == a;
    assert ExponentPart(rest[0..]) == Some(0);
  }

  lemma NumberOfPrintedNat(n: nat)
    ensures StringToNumber(NatToString(n)) == Num(n)
  {
    NumberOfDigits(NatToString(n));
    DigitsNatToString(n);
  }

  /** `Number` and `parseInt` agree on a `0x` numeral. */
  lemma NumberHexAgreesWithParseInt(h: string)
    requires |h| > 0 && forall i :: 0 <= i < |h| ==> IsHexDigit(h[i])
    ensures StringToNumber("0x" + h) == ParseInt("0x" + h) == Num(RunValue(h, true))
  {
    NumberOfHex(h);
    BaseValueHex(h);
    ParseIntOfHex(h);
  }

  lemma NumberOfHex(h: string)
    requires |h| > 0 && forall i :: 0 <= i < |h| ==> IsHexDigit(h[i])
    ensures StringToNumber("0x" + h) == Num(BaseValue(h, 16))
  {
    HexShape(h);
    DigitEdgesTrimmed("0x" + h);
    PrefixedBranch("0x" + h);
    HexDigitsOfBase(h);
  }

  lemma HexShape(h: string)
    requires |h| > 0 && forall i :: 0 <= i < |h| ==> IsHexDigit(h[i])
    ensures var t := "0x" + h; |t| > 2 && IsDigit(t[0]) && t[0] == '0' && PrefixBase(t[1]) == 16
    ensures var t := "0x" + h; t[2..] == h && IsHexDigit(t[|t| - 1])
  {
    assert ("0x" + h)[|h| + 1] == h[|h| - 1];
  }

  lemma ParseIntOfHex(h: string)
    requires |h| > 0 && forall i :: 0 <= i < |h| ==> IsHexDigit(h[i])
    ensures ParseInt("0x" + h) == Num(RunValue(h, true))
  {
    var t := "0x" + h;
    assert TrimStart(t) == t;
    assert t[2..] == h;
    assert ParseUnsigned(t) == ReadRun(h, true);
    DigitRunAllHex(h);
    assert h[..|h|] == h;
  }

  lemma {:induction false} BaseValueHex(h: string)
    requires forall i :: 0 <= i < |h| ==> IsHexDigit(h[i])
    ensures BaseValue(h, 16) == RunValue(h, true)
  {
    if |h| > 0 {
      BaseValueHex(h[..|h| - 1]);
    }
  }

  lemma {:induction false} DigitRunAllHex(h: string)
    requires forall i :: 0 <= i < |h| ==> IsHexDigit(h[i])
    ensures DigitRun(h, true) == |h|
  {
    if |h| > 0 {
      DigitRunAllHex(h[1..]);
    }
  }

  /** The digit run of digits followed by a non-digit stops at the non-digit. */
  lemma {:induction false} DigitRunStops(a: string, b: string)
    requires AllDigits(a) && |b| > 0 && !IsDigit(b[0])
    ensures DigitRun(a + b, false) == |a|
  {
    if |a| > 0 {
      assert (a + b)[1..] == a[1..] + b;
      DigitRunStops(a[1..], b);
    }
  }

  /** A printed number with an exponent is that number times the power of ten. */
  lemma NumberScientific(m: nat, k: nat)
    ensures StringToNumber(NatToString(m) + "e" + NatToString(k)) == Num(Scale(m, k))
  {
    var a := NatToString(m);
    var b := NatToString(k);
    ExponentShape(a, b);
    DecimalWithExponent(a, b);
    DigitsNatToString(m);
    DigitsNatToString(k);
    PlainDecimalText(a + "e" + b, Decimal(m, k), Scale(m, k));
  }

  lemma ExponentShape(a: string, b: string)
    requires |a| > 0 && AllDigits(a) && |b| > 0 && AllDigits(b)
    ensures var t := a + "e" + b; |t| > 1 && IsDigit(t[0]) && IsDigit(t[|t| - 1]) && PrefixBase(t[1]) == 0
  {
    var t := a + "e" + b;
    assert t[0] == a[0] && t[|t| - 1] == b[|b| - 1];
    if |a| > 1 {
      assert t[1] == a[1];
      DigitIsNoBase(a[1]);
    } else {
      assert t[1] == 'e';
    }
  }

  lemma DecimalWithExponent(a: string, b: string)
    requires |a| > 0 && AllDigits(a) && |b| > 0 && AllDigits(b)
    ensures DecimalNumeral(a + "e" + b) == Some(Decimal(DigitsValue(a), DigitsValue(b)))
  {
    var u := a + "e" + b;
    assert u == a + ("e" + b);
    DigitRunStops(a, "e" + b);
    assert u[..|a|] == a && u[|a|..] == "e" + b;
    assert ("e" + b)[1..] == b;
    assert ExponentPart("e" + b) == Some(DigitsValue(b) as int);
    assert a + u[|a|..][..0] == a;
  }

  /** A printed number followed by `.0` is read as that number. */
  lemma NumberPointZero(m: nat)
    ensures StringToNumber(NatToString(m) + ".0") == Num(m)
  {
    var a := NatToString(m);
    PointZeroShape(a);
    DecimalPointZero(a);
    DigitsNatToString(m);
    UnscaleTen(m);
    PlainDecimalText(a + ".0", Decimal(m * 10, -1), m);
  }

  lemma PointZeroShape(a: string)
    requires |a| > 0 && AllDigits(a)
    ensures var t := a + ".0"; |t| > 1 && IsDigit(t[0]) && IsDigit(t[|t| - 1]) && PrefixBase(t[1]) == 0
  {
    var t := a + ".0";
    assert t[0] == a[0];
    if |a| > 1 {
      assert t[1] == a[1];
      DigitIsNoBase(a[1]);
    } else {
      assert t[1] == '.';
    }
  }

  lemma UnscaleTen(m: nat)
    ensures Unscale(m * 10, 1) == Some(m)
  {
    assert (m * 10) % 10 == 0 && (m * 10) / 10 == m;
  }

  lemma DecimalPointZero(a: string)
    requires |a| > 0 && AllDigits(a)
    ensures DecimalNumeral(a + ".0") == Some(Decimal(DigitsValue(a) * 10, -1))
  {
    PointZeroParts(a);
    var point := ".0";
    assert point[0] == '.' && point[1..] == "0";
    assert DigitRun("0", false) == 1 && "0"[..1] == "0" && "0"[1..] == "";
    AppendZero(a);
  }

  lemma PointZeroParts(a: string)
    requires |a| > 0 && AllDigits(a)
    ensures var u := a + ".0"; DigitRun(u, false) == |a| && u[..|a|] == a && u[|a|..] == ".0"
  {
    DigitRunStops(a, ".0");
    var u := a + ".0";
    assert u[..|a|] == a && u[|a|..] == ".0";
  }

  lemma AppendZero(a: string)
    requires AllDigits(a)
    ensures DigitsValue(a + "0") == DigitsValue(a) * 10
  {
    assert (a + "0")[..|a|] == a;
  }


  predicate IsHexDigit(c: char) {
    IsDigit(c) || ('a' <= c <= 'f') || ('A' <= c <= 'F')
  }

  function HexValue(c: char): (d: nat)
    requires IsHexDigit(c)
    ensures d < 16
  {
    if IsDigit(c) then DigitValue(c)
    else if 'a' <= c <= 'f' then c as int - 'a' as int + 10
    else c as int - 'A' as int + 10
  }

  /** The length of the longest prefix of `s` made of digits of the given base. */
  function DigitRun(s: string, hex: bool): (n: nat)
    ensures n <= |s|
    ensures forall i :: 0 <= i < n ==> if hex then IsHexDigit(s[i]) else IsDigit(s[i])
    ensures n < |s| ==> !(if hex then IsHexDigit(s[n]) else IsDigit(s[n]))
  {
    if |s| > 0 && (if hex then IsHexDigit(s[0]) else IsDigit(s[0])) then 1 + DigitRun(s[1..], hex) else 0
  }

  function RunValue(s: string, hex: bool): nat
    requires forall i :: 0 <= i < |s| ==> if hex then IsHexDigit(s[i]) else IsDigit(s[i])
  {
    if |s| == 0 then 0
    else RunValue(s[..|s| - 1], hex) * (if hex then 16 else 10)
         + (if hex then HexValue(s[|s| - 1]) else DigitValue(s[|s| - 1]))
  }

  /**
   * `parseInt(s)` without a radix: leading whitespace and one sign are skipped,
   * a `0x`/`0X` prefix selects base 16, and the longest run of digits is read;
   * no digit at all gives NaN.
   */
  function ParseInt(s: string): (r: JsValue)
    ensures r.Num? || r.NaN?
  {
    var t := TrimStart(s);
    if |t| > 0 && t[0] == '-' then
      match ParseUnsigned(t[1..])
      case Num(v) => Num(-v)
      case _ => NaN
    else if |t| > 0 && t[0] == '+' then ParseUnsigned(t[1..])
    else ParseUnsigned(t)
  }

  /** The digits after the sign, in base 16 behind `0x`/`0X` and in base 10 otherwise. */
  function ParseUnsigned(u: string): (r: JsValue)
    ensures r.Num? ==> r.n >= 0
    ensures r.Num? || r.NaN?
  {
    if |u| >= 2 && u[0] == '0' && (u[1] == 'x' || u[1] == 'X') then ReadRun(u[2..], true)
    else ReadRun(u, false)
  }

  /** The value of the longest digit prefix; NaN when the text does not start with a digit. */
  function ReadRun(body: string, hex: bool): (r: JsValue)
    ensures r.Num? ==> r.n >= 0
    ensures r.NaN? <==> (|body| == 0 || !(if hex then IsHexDigit(body[0]) else IsDigit(body[0])))
    ensures r.Num? || r.NaN?
  {
    var n := DigitRun(body, hex);
    if n == 0 then NaN else Num(RunValue(body[..n], hex))
  }

  /** On a plain run of decimal digits `parseInt` is the digits' value. */
  lemma ParseIntDigits(s: string)
    requires |s| > 0 && AllDigits(s)
    ensures ParseInt(s) == Num(DigitsValue(s))
  {
    assert !IsWs(s[0]);
    assert TrimStart(s) == s;
    assert |s| >= 2 ==> IsDigit(s[1]);
    DigitRunAll(s);
    assert s[..|s|] == s;
    RunValueDecimal(s);
    assert ParseUnsigned(s) == ReadRun(s, false);
  }

  /** `parseInt` reads back what `String` printed. */
  lemma ParseIntOfPrinted(n: nat)
    ensures ParseInt(NatToString(n)) == Num(n)
  {
    ParseIntDigits(NatToString(n));
    DigitsNatToString(n);
  }

  lemma {:induction false} DigitRunAll(s: string)
    requires AllDigits(s)
    ensures DigitRun(s, false) == |s|
  {
    if |s| > 0 {
      DigitRunAll(s[1..]);
    }
  }

  lemma {:induction false} RunValueDecimal(s: string)
    requires AllDigits(s)
    ensures RunValue(s, false) == DigitsValue(s)
  {
    if |s| > 0 {
      RunValueDecimal(s[..|s| - 1]);
    }
  }

  /** The sign of `parseFloat(s)`, which is all the system compares it with. */
  datatype FloatSign = FNaN | FNegative | FZero | FPositive

  /**
   * After leading whitespace and an optional sign, `parseFloat` reads
   * `Infinity` or a decimal mantissa (digits with at most one point and at
   * least one digit); the value is negative when the sign is `-` and the
   * mantissa has a non-zero digit.
   */
  function ParseFloatSign(s: string): (r: FloatSign)
    ensures r == FNegative ==> exists i :: 0 <= i < |s| && s[i] == '-'
  {
    var t := TrimStart(s);
    var neg := |t| > 0 && t[0] == '-';
    var u := if |t| > 0 && (t[0] == '-' || t[0] == '+') then t[1..] else t;
    var m := MantissaLength(u);
    if StartsWith(u, "Infinity") then (if neg then FNegative else FPositive)
    else if !HasMantissaDigit(u[..m]) then FNaN
    else if !HasNonZeroDigit(u[..m]) then FZero
    else if neg then (assert t[0] == s[|s| - |t|]; FNegative)
    else FPositive
  }

  /** The length of the longest `digits [. digits]` prefix. */
  function MantissaLength(u: string): (n: nat)
    ensures n <= |u|
  {
    var a := DigitRun(u, false);
    if a < |u| && u[a] == '.' then a + 1 + DigitRun(u[a + 1..], false) else a
  }

  predicate HasMantissaDigit(m: string) { exists i :: 0 <= i < |m| && IsDigit(m[i]) }

  predicate HasNonZeroDigit(m: string) { exists i :: 0 <= i < |m| && '1' <= m[i] <= '9' }

  // ---------------------------------------------------------------------
  // JSON.stringify
  // ---------------------------------------------------------------------

  function HexChar(d: nat): (c: char)
    requires d < 16
    ensures IsHexDigit(c) && HexValue(c) == d
  {
    if d < 10 then DigitChar(d) else ('a' as int + d - 10) as char
  }

  /** How `JSON.stringify` writes one character inside a string literal. */
  function EscapeChar(c: char): (r: string)
    ensures |r| >= 1
  {
    if c == '"' then "\\\""
    else if c == '\\' then "\\\\"
    else if c == '\U{8}' then "\\b"
    else if c == '\U{C}' then "\\f"
    else if c == '\n' then "\\n"
    else if c == '\r' then "\\r"
    else if c == '\t' then "\\t"
    else if c < ' ' then "\\u00" + [HexChar(c as int / 16), HexChar(c as int % 16)]
    else [c]
  }

  function Escape(s: string): string {
    if |s| == 0 then "" else EscapeChar(s[0]) + Escape(s[1..])
  }

  /** `JSON.stringify` of a string. */
  function Quote(s: string): (r: string)
    ensures |r| >= 2 && r[0] == '"' && r[|r| - 1] == '"'
  {
    "\"" + Escape(s) + "\""
  }

  /** Reads the body of a JSON string literal back; `None` when it is malformed. */
  function Unescape(t: string): (r: Option<string>)
  {
    if |t| == 0 then Some("")
    else if t[0] == '"' || t[0] < ' ' then None
    else if t[0] != '\\' then
      match Unescape(t[1..])
      case Some(rest) => Some([t[0]] + rest)
      case None => None
    else if |t| < 2 then None
    else
      var e := t[1];
      var simple :=
        if e == '"' then Some('"') else if e == '\\' then Some('\\') else if e == '/' then Some('/')
        else if e == 'b' then Some('\U{8}') else if e == 'f' then Some('\U{C}') else if e == 'n' then Some('\n')
        else if e == 'r' then Some('\r') else if e == 't' then Some('\t') else None;
      if simple.Some? then
        match Unescape(t[2..])
        case Some(rest) => Some([simple.value] + rest)
        case None => None
      else if e == 'u' && |t| >= 6 && IsHexDigit(t[2]) && IsHexDigit(t[3]) && IsHexDigit(t[4]) && IsHexDigit(t[5]) then
        var code := ((HexValue(t[2]) * 16 + HexValue(t[3])) * 16 + HexValue(t[4])) * 16 + HexValue(t[5]);
        if 0xD800 <= code < 0xE000 then None
        else
          match Unescape(t[6..])
          case Some(rest) => Some([code as char] + rest)
          case None => None
      else None
  }

  lemma UnescapeChar(c: char, rest: string)
    ensures Unescape(EscapeChar(c) + rest) ==
      (match Unescape(rest) case Some(r) => Some([c] + r) case None => None)
  {
    var t := EscapeChar(c) + rest;
    if c == '"' || c == '\\' || c == '\U{8}' || c == '\U{C}' || c == '\n' || c == '\r' || c == '\t' {
      assert t[2..] == rest;
    } else if c < ' ' {
      assert t[6..] == rest;
      assert t[2] == '0' && t[3] == '0';
    } else {
      assert t[1..] == rest;
    }
  }

  /** Reading back what `JSON.stringify` wrote gives the original string. */
  lemma {:induction false} UnescapeEscape(s: string)
    ensures Unescape(Escape(s)) == Some(s)
  {
    if |s| > 0 {
      UnescapeEscape(s[1..]);
      UnescapeChar(s[0], Escape(s[1..]));
      assert [s[0]] + s[1..] == s;
    }
  }

  /** The escaped text never contains a bare quote, so the literal ends where it should. */
  lemma {:induction false} EscapeHasNoBareQuote(s: string)
    ensures forall i :: 0 <= i < |Escape(s)| && Escape(s)[i] == '"' ==> i > 0 && Escape(s)[i - 1] == '\\'
  {
    if |s| > 0 {
      EscapeHasNoBareQuote(s[1..]);
      var e := EscapeChar(s[0]);
      var t := Escape(s[1..]);
      assert Escape(s) == e + t;
      forall i | 0 <= i < |e + t| && (e + t)[i] == '"' ensures i > 0 && (e + t)[i - 1] == '\\' {
        if i >= |e| {
          assert (e + t)[i] == t[i - |e|];
          if i - |e| == 0 {
            assert false;
          }
        }
      }
    }
  }

  /** `JSON.stringify(v)`; `undefined` gives no text at all. */
  function Stringify(v: JsValue): (r: Option<string>)
    ensures r.None? <==> v.Undefined?
    decreases v, 1
  {
    match v
    case Undefined => None
    case Null => Some("null")
    case NaN => Some("null")
    case Bool(b) => Some(if b then "true" else "false")
    case Num(n) => Some(IntToString(n))
    case Str(s) => Some(Quote(s))
    case Arr(es) => Some("[" + StringifyElems(es) + "]")
    case Obj(fs) => Some("{" + StringifyFields(fs) + "}")
  }

  /** Array elements: `undefined` is written `null`. */
  function StringifyElems(es: seq<JsValue>): string
    decreases es, 0
  {
    if |es| == 0 then ""
    else
      var head := match Stringify(es[0]) case Some(t) => t case None => "null";
      if |es| == 1 then head else head + "," + StringifyElems(es[1..])
  }

  /** Object members: a member whose value is `undefined` is left out. */
  function StringifyFields(fs: seq<Member>): string
    decreases fs, 0
  {
    if |fs| == 0 then ""
    else
      var rest := StringifyFields(fs[1..]);
      match Stringify(fs[0].value)
      case None => rest
      case Some(t) =>
        var member := Quote(fs[0].key) + ":" + t;
        if rest == "" then member else member + "," + rest
  }

  /** An object with one numeric member is written `{"key":n}`. */
  lemma StringifyOneNumber(k: string, n: int)
    ensures Stringify(Obj([Member(k, Num(n))])) == Some("{" + Quote(k) + ":" + IntToString(n) + "}")
  {
    var fs := [Member(k, Num(n))];
    assert fs[0] == Member(k, Num(n)) && fs[1..] == [];
    assert StringifyFields(fs[1..]) == "";
    assert Stringify(fs[0].value) == Some(IntToString(n));
    assert StringifyFields(fs) == Quote(k) + ":" + IntToString(n);
    assert Stringify(Obj(fs)) == Some("{" + StringifyFields(fs) + "}");
    assert "{" + (Quote(k) + ":" + IntToString(n)) + "}" == "{" + Quote(k) + ":" + IntToString(n) + "}";
  }
}
