/**
 * String primitives with JavaScript's meaning: `trim`, `toLowerCase`,
 * `includes`, `startsWith`, `endsWith`, `indexOf`, `split`, `join` and
 * the decimal rendering of integers.
 */
module Text {
  import opened Wrappers

  /** The characters matched by the regular-expression class `\s` and removed by `trim`. */
  predicate IsWs(c: char) {
    ('\t' <= c <= '\r') || c == ' ' || c == '\U{A0}' || c == '\U{1680}'
    || ('\U{2000}' <= c <= '\U{200A}') || c == '\U{2028}' || c == '\U{2029}'
    || c == '\U{202F}' || c == '\U{205F}' || c == '\U{3000}' || c == '\U{FEFF}'
  }

  /** The characters that the regular-expression `.` does not match. */
  predicate IsLineTerminator(c: char) {
    c == '\n' || c == '\r' || c == '\U{2028}' || c == '\U{2029}'
  }

  predicate IsDigit(c: char) { '0' <= c <= '9' }

  /** The class `\w`: ASCII letters, digits and underscore. */
  predicate IsWordChar(c: char) {
    ('a' <= c <= 'z') || ('A' <= c <= 'Z') || IsDigit(c) || c == '_'
  }

  predicate NoWs(s: string) { forall i :: 0 <= i < |s| ==> !IsWs(s[i]) }

  /** Lower-casing of ASCII and Latin-1 letters (full Unicode case mapping is not modelled). */
  function LowerChar(c: char): char {
    if ('A' <= c <= 'Z') || ('\U{C0}' <= c <= '\U{DE}' && c != '\U{D7}') then (c as int + 32) as char else c
  }

  /** Upper-casing of ASCII and Latin-1 letters whose upper case is Latin-1. */
  function UpperChar(c: char): char {
    if ('a' <= c <= 'z') || ('\U{E0}' <= c <= '\U{FE}' && c != '\U{F7}') then (c as int - 32) as char else c
  }

  function Lower(s: string): (r: string)
    ensures |r| == |s|
    ensures forall i :: 0 <= i < |s| ==> r[i] == LowerChar(s[i])
  {
    seq(|s|, i requires 0 <= i < |s| => LowerChar(s[i]))
  }

  function Upper(s: string): (r: string)
    ensures |r| == |s|
    ensures forall i :: 0 <= i < |s| ==> r[i] == UpperChar(s[i])
  {
    seq(|s|, i requires 0 <= i < |s| => UpperChar(s[i]))
  }

  lemma LowerIdempotent(s: string)
    ensures Lower(Lower(s)) == Lower(s)
  {
  }

  /** `trimStart`: drops leading whitespace and keeps the rest as a suffix. */
  function TrimStart(s: string): (r: string)
    ensures |r| <= |s| && r == s[|s| - |r|..]
    ensures forall k :: 0 <= k < |s| - |r| ==> IsWs(s[k])
    ensures |r| > 0 ==> !IsWs(r[0])
  {
    if |s| > 0 && IsWs(s[0]) then TrimStart(s[1..]) else s
  }

  /** `trimEnd`: drops trailing whitespace and keeps the rest as a prefix. */
  function TrimEnd(s: string): (r: string)
    ensures |r| <= |s| && r == s[..|r|]
    ensures forall k :: |r| <= k < |s| ==> IsWs(s[k])
    ensures |r| > 0 ==> !IsWs(r[|r| - 1])
  {
    if |s| > 0 && IsWs(s[|s| - 1]) then TrimEnd(s[..|s| - 1]) else s
  }

  /** `r` is `s[a..a + |r|]` and everything of `s` around it is whitespace. */
  predicate InfixWithWsAround(s: string, r: string, a: nat) {
    a + |r| <= |s| && r == s[a..a + |r|]
    && (forall k :: 0 <= k < a ==> IsWs(s[k]))
    && (forall k :: a + |r| <= k < |s| ==> IsWs(s[k]))
  }

  /** `trim`: the longest infix that neither starts nor ends with whitespace. */
  function Trim(s: string): (r: string)
    ensures |r| <= |s|
    ensures exists a: nat :: InfixWithWsAround(s, r, a)
    ensures |r| > 0 ==> !IsWs(r[0]) && !IsWs(r[|r| - 1])
  {
    var t := TrimStart(s);
    var r := TrimEnd(t);
    var a := |s| - |t|;
    assert InfixWithWsAround(s, r, a);
    r
  }

  /** The empty string is what `trim` gives back exactly for all-whitespace input. */
  lemma TrimEmptyIff(s: string)
    ensures Trim(s) == "" <==> forall k :: 0 <= k < |s| ==> IsWs(s[k])
  {
    if forall k :: 0 <= k < |s| ==> IsWs(s[k]) {
      TrimAllWs(s);
    }
  }

  lemma {:induction false} TrimAllWs(s: string)
    requires forall k :: 0 <= k < |s| ==> IsWs(s[k])
    ensures TrimStart(s) == ""
  {
    if |s| > 0 {
      TrimAllWs(s[1..]);
    }
  }

  /** A string that neither starts nor ends with whitespace is its own trim. */
  lemma TrimFixed(s: string)
    requires |s| > 0 ==> !IsWs(s[0]) && !IsWs(s[|s| - 1])
    ensures Trim(s) == s
  {
  }

  lemma TrimIdempotent(s: string)
    ensures Trim(Trim(s)) == Trim(s)
  {
    TrimFixed(Trim(s));
  }

  predicate StartsWith(s: string, p: string) {
    |p| <= |s| && s[..|p|] == p
  }

  predicate EndsWith(s: string, p: string) {
    |p| <= |s| && s[|s| - |p|..] == p
  }

  /** `p` occurs in `s` at position `j`. */
  predicate OccursAt(s: string, p: string, j: nat) {
    j + |p| <= |s| && s[j..j + |p|] == p
  }

  /** `s.includes(p)`. */
  predicate Contains(s: string, p: string) {
    exists j: nat :: j <= |s| && OccursAt(s, p, j)
  }

  lemma ContainsEmpty(s: string)
    ensures Contains(s, "")
  {
    assert OccursAt(s, "", 0);
  }

  /** `s.indexOf(p, from)`: the first occurrence at or after `from`. */
  function IndexOfFrom(s: string, p: string, from: nat): (r: Option<nat>)
    requires from <= |s|
    ensures r.Some? ==> OccursAt(s, p, r.value)
    decreases |s| - from
  {
    if OccursAt(s, p, from) then Some(from)
    else if from == |s| then None
    else IndexOfFrom(s, p, from + 1)
  }

  lemma {:induction false} IndexOfFromSpec(s: string, p: string, from: nat)
    requires from <= |s|
    ensures var r := IndexOfFrom(s, p, from);
      (r.Some? ==> from <= r.value && OccursAt(s, p, r.value))
      && (r.Some? ==> forall j: nat :: from <= j < r.value ==> !OccursAt(s, p, j))
      && (r.None? ==> forall j: nat :: from <= j ==> !OccursAt(s, p, j))
    decreases |s| - from
  {
    if !OccursAt(s, p, from) && from < |s| {
      IndexOfFromSpec(s, p, from + 1);
    }
  }

  function IndexOf(s: string, p: string): (r: Option<nat>)
    ensures r.Some? ==> OccursAt(s, p, r.value)
  {
    IndexOfFrom(s, p, 0)
  }

  /** `s.indexOf(p)` is the first occurrence, and there is none exactly when `p` does not occur. */
  lemma IndexOfSpec(s: string, p: string)
    ensures var r := IndexOf(s, p);
      (r.Some? ==> OccursAt(s, p, r.value) && forall j: nat :: j < r.value ==> !OccursAt(s, p, j))
      && (r.None? <==> !Contains(s, p))
  {
    IndexOfFromSpec(s, p, 0);
  }

  /** `s.replace(pat, rep)` with a string pattern: only the first occurrence is replaced. */
  function ReplaceFirst(s: string, pat: string, rep: string): string {
    match IndexOf(s, pat)
    case None => s
    case Some(j) => s[..j] + rep + s[j + |pat|..]
  }

  /** Without an occurrence nothing changes; otherwise the first occurrence, and only it, is replaced. */
  lemma ReplaceFirstSpec(s: string, pat: string, rep: string)
    ensures !Contains(s, pat) ==> ReplaceFirst(s, pat, rep) == s
    ensures Contains(s, pat) ==>
      exists j: nat :: OccursAt(s, pat, j)
        && (forall i: nat :: i < j ==> !OccursAt(s, pat, i))
        && ReplaceFirst(s, pat, rep) == s[..j] + rep + s[j + |pat|..]
  {
    IndexOfSpec(s, pat);
  }

  /** When the first character of `pat` does not occur in `pre`, `replace` acts right after `pre`. */
  lemma ReplaceAfter(pre: string, pat: string, rep: string, post: string)
    requires |pat| > 0 && pat[0] !in pre
    ensures ReplaceFirst(pre + pat + post, pat, rep) == pre + rep + post
  {
    var s := pre + pat + post;
    var j := |pre|;
    assert OccursAt(s, pat, j) by { assert s[j..j + |pat|] == pat; }
    IndexOfSpec(s, pat);
    match IndexOf(s, pat)
    case None =>
      assert false;
    case Some(k) =>
      assert k == j;
      assert s[..j] == pre && s[j + |pat|..] == post;
  }

  /** A text that starts with the pattern has it replaced there. */
  lemma ReplaceAtStart(pat: string, rep: string, post: string)
    requires |pat| > 0
    ensures ReplaceFirst(pat + post, pat, rep) == rep + post
  {
    ReplaceAfter("", pat, rep, post);
    assert "" + pat + post == pat + post;
    assert "" + rep + post == rep + post;
  }

  /** A pattern whose first character does not occur leaves the text alone. */
  lemma ReplaceFirstAbsent(s: string, pat: string, rep: string)
    requires |pat| > 0 && pat[0] !in s
    ensures ReplaceFirst(s, pat, rep) == s
  {
    IndexOfSpec(s, pat);
  }

  /** `parts.join(sep)`. */
  function Join(parts: seq<string>, sep: string): string {
    if |parts| == 0 then ""
    else if |parts| == 1 then parts[0]
    else parts[0] + sep + Join(parts[1..], sep)
  }

  /** `s.split(sep)` for a one-character separator. */
  function Split(s: string, sep: char): (r: seq<string>)
    ensures |r| >= 1
    ensures forall i :: 0 <= i < |r| ==> sep !in r[i]
  {
    if |s| == 0 then [""]
    else
      var rest := Split(s[1..], sep);
      if s[0] == sep then [""] + rest
      else [[s[0]] + rest[0]] + rest[1..]
  }

  /** A text without the separator splits into itself alone. */
  lemma {:induction false} SplitNoSep(s: string, sep: char)
    requires sep !in s
    ensures Split(s, sep) == [s]
  {
    if |s| > 0 {
      SplitNoSep(s[1..], sep);
      assert [s[0]] + s[1..] == s;
    }
  }

  /** The text before the first separator is the first piece; the rest splits on its own. */
  lemma {:induction false} SplitAt(a: string, b: string, sep: char)
    requires sep !in a
    ensures Split(a + [sep] + b, sep) == [a] + Split(b, sep)
  {
    var s := a + [sep] + b;
    if |a| == 0 {
      assert s[1..] == b;
    } else {
      assert s[1..] == a[1..] + [sep] + b;
      SplitAt(a[1..], b, sep);
      assert [a[0]] + a[1..] == a;
    }
  }

  /** Splitting and joining again with the same separator gives back the input. */
  lemma {:induction false} JoinSplit(s: string, sep: char)
    ensures Join(Split(s, sep), [sep]) == s
  {
    if |s| > 0 {
      var rest := Split(s[1..], sep);
      JoinSplit(s[1..], sep);
      if s[0] == sep {
        assert Split(s, sep) == [""] + rest;
        assert ([""] + rest)[1..] == rest;
      } else {
        var r := [[s[0]] + rest[0]] + rest[1..];
        assert r[1..] == rest[1..];
        if |rest| == 1 {
          assert s == [s[0]] + s[1..];
        } else {
          assert Join(rest, [sep]) == rest[0] + [sep] + Join(rest[1..], [sep]);
          assert s == [s[0]] + s[1..];
        }
      }
    }
  }

  function DigitChar(d: nat): (c: char)
    requires d < 10
    ensures IsDigit(c)
  {
    ('0' as int + d) as char
  }

  function DigitValue(c: char): (d: nat)
    requires IsDigit(c)
    ensures d < 10
  {
    c as int - '0' as int
  }

  /** `String(n)` for a non-negative integer. */
  function NatToString(n: nat): (r: string)
    ensures |r| >= 1
    ensures forall i :: 0 <= i < |r| ==> IsDigit(r[i])
    ensures n >= 10 ==> r[0] != '0'
    decreases n
  {
    if n < 10 then [DigitChar(n)] else NatToString(n / 10) + [DigitChar(n % 10)]
  }

  /** The value of a non-empty run of decimal digits. */
  function DigitsValue(s: string): nat
    requires forall i :: 0 <= i < |s| ==> IsDigit(s[i])
  {
    if |s| == 0 then 0 else DigitsValue(s[..|s| - 1]) * 10 + DigitValue(s[|s| - 1])
  }

  lemma {:induction false} DigitsNatToString(n: nat)
    ensures DigitsValue(NatToString(n)) == n
    decreases n
  {
    var r := NatToString(n);
    if n >= 10 {
      DigitsNatToString(n / 10);
      assert r[..|r| - 1] == NatToString(n / 10);
    }
  }

  /** Distinct numbers print differently. */
  lemma NatToStringInjective(m: nat, n: nat)
    requires NatToString(m) == NatToString(n)
    ensures m == n
  {
    DigitsNatToString(m);
    DigitsNatToString(n);
  }

  /** `String(i)` for any integer. */
  function IntToString(i: int): (r: string)
    ensures |r| >= 1
  {
    if i < 0 then "-" + NatToString(-i) else NatToString(i)
  }

  /** `String(n).padStart(2, '0')`. */
  function Pad2(n: nat): (r: string)
    ensures n < 100 ==> |r| == 2 && IsDigit(r[0]) && IsDigit(r[1]) && DigitsValue(r) == n
    ensures n >= 100 ==> r == NatToString(n)
  {
    if n < 10 then
      var r := ['0', DigitChar(n)];
      assert r[..1] == ['0'] && DigitsValue(r[..1]) == 0;
      r
    else if n < 100 then
      var r := [DigitChar(n / 10), DigitChar(n % 10)];
      assert r[..1] == [DigitChar(n / 10)];
      assert r[..1][..0] == [];
      assert DigitsValue(r[..1]) == n / 10;
      r
    else NatToString(n)
  }
}
