/**
 * The two policy texts of the lab-management page: `savePolicies` writes
 * each as three labelled lines, and `updatePoliciesForm` reads the fields
 * back with one regular expression per label. The expressions are modelled
 * with their backtracking, so the round trip is proved against what they
 * actually capture.
 */
module Policies {
  import opened Wrappers
  import opened Text

  const CoursesLabel := "Cursos previos:"
  const InductionLabel := "Inducción obligatoria:"
  const CertificationsLabel := "Certificaciones:"
  const PpeLabel := "EPP requerido:"
  const RiskLabel := "Nivel de riesgo:"
  const RestrictionsLabel := "Restricciones:"

  /** No character that ends a line for the regular-expression `.`. */
  predicate SingleLine(s: string) {
    forall j :: 0 <= j < |s| ==> !IsLineTerminator(s[j])
  }

  /** `s || d` for a form value. */
  function OrDefault(s: string, d: string): (r: string)
    ensures r == "" <==> s == "" && d == ""
    ensures s != "" ==> r == s
    ensures s == "" ==> r == d
  {
    if s == "" then d else s
  }

  function YesNo(b: bool): (r: string)
    ensures r == "Sí" || r == "No"
    ensures b <==> r == "Sí"
  {
    if b then "Sí" else "No"
  }

  /** `[first, second, third].join('\n')`. */
  function ThreeLines(first: string, second: string, third: string): (r: string)
    ensures r == first + "\n" + second + "\n" + third
  {
    var parts := [first, second, third];
    assert parts[1..] == [second, third];
    assert [second, third][1..] == [third];
    assert Join([second, third], "\n") == second + "\n" + third;
    var r := Join(parts, "\n");
    assert r == first + "\n" + (second + "\n" + third);
    r
  }

  /** The `academic_requirements` text `savePolicies` sends. */
  function AcademicText(courses: string, induction: bool, certifications: string): string {
    ThreeLines(CoursesLabel + " " + OrDefault(courses, "Ninguno"),
               InductionLabel + " " + YesNo(induction),
               CertificationsLabel + " " + OrDefault(certifications, "Ninguna"))
  }

  /** The `safety_requirements` text `savePolicies` sends. */
  function SafetyText(ppe: bool, risk: string, restrictions: string): string {
    ThreeLines(PpeLabel + " " + YesNo(ppe),
               RiskLabel + " " + OrDefault(risk, "Bajo"),
               RestrictionsLabel + " " + OrDefault(restrictions, "Ninguna"))
  }

  // ===== The regular expressions =====

  /** The capture group after `key\s*`: `(.+?)(?:\n|$)` or `(Sí|No)`. */
  datatype Group = RestOfLine | YesOrNo

  /** The end of the longest run of `\s` starting at `i`. */
  function WsRun(s: string, i: nat): (k: nat)
    requires i <= |s|
    ensures i <= k <= |s|
    ensures forall j :: i <= j < k ==> IsWs(s[j])
    ensures k == |s| || !IsWs(s[k])
    decreases |s| - i
  {
    if i < |s| && IsWs(s[i]) then WsRun(s, i + 1) else i
  }

  /** The first line terminator at or after `i`, or the end of the text. */
  function LineEnd(s: string, i: nat): (e: nat)
    requires i <= |s|
    ensures i <= e <= |s|
    ensures forall j :: i <= j < e ==> !IsLineTerminator(s[j])
    ensures e == |s| || IsLineTerminator(s[e])
    decreases |s| - i
  {
    if i < |s| && !IsLineTerminator(s[i]) then LineEnd(s, i + 1) else i
  }

  /**
   * The group tried at `q`. The lazy `.+?` stops at the first `\n` or at the
   * end of the text, and cannot step over any other line terminator.
   */
  function GroupAt(s: string, q: nat, g: Group): (r: Option<string>)
    requires q <= |s|
  {
    match g
    case RestOfLine =>
      var e := LineEnd(s, q);
      if e > q && (e == |s| || s[e] == '\n') then Some(s[q..e]) else None
    case YesOrNo =>
      if StartsWith(s[q..], "Sí") then Some("Sí")
      else if StartsWith(s[q..], "No") then Some("No")
      else None
  }

  /**
   * `\s*` followed by the group, after a key that ends at `i`: the greedy
   * `\s*` first takes the whole whitespace run and then gives it back one
   * character at a time, so `q` goes down from the end of the run to `i`.
   */
  function Backtrack(s: string, i: nat, q: nat, g: Group): (r: Option<string>)
    requires i <= q <= |s|
    decreases q - i
  {
    match GroupAt(s, q, g)
    case Some(v) => Some(v)
    case None => if q == i then None else Backtrack(s, i, q - 1, g)
  }

  /** The match of `key\s*group` tried at `p` and, failing that, further right. */
  function MatchFrom(s: string, key: string, g: Group, p: nat): (r: Option<string>)
    requires p <= |s|
    decreases |s| - p
  {
    var i := p + |key|;
    if OccursAt(s, key, p) && Backtrack(s, i, WsRun(s, i), g).Some? then Backtrack(s, i, WsRun(s, i), g)
    else if p == |s| then None
    else MatchFrom(s, key, g, p + 1)
  }

  /** `s.match(/key\s*group/)`, read as its first capture group. */
  function Match(s: string, key: string, g: Group): Option<string> {
    MatchFrom(s, key, g, 0)
  }

  /** What `updatePoliciesForm` puts in the academic fields. */
  datatype AcademicFields = AcademicFields(courses: string, induction: bool, certifications: string)

  /** What `updatePoliciesForm` puts in the safety fields. */
  datatype SafetyFields = SafetyFields(ppe: bool, risk: string, restrictions: string)

  /** A captured group, trimmed, or the default when the expression does not match. */
  function TrimmedOr(m: Option<string>, d: string): string {
    match m
    case Some(v) => Trim(v)
    case None => d
  }

  function ParseAcademic(text: string): AcademicFields {
    AcademicFields(
      TrimmedOr(Match(text, CoursesLabel, RestOfLine), ""),
      Match(text, InductionLabel, YesOrNo) == Some("Sí"),
      TrimmedOr(Match(text, CertificationsLabel, RestOfLine), ""))
  }

  function ParseSafety(text: string): SafetyFields {
    SafetyFields(
      Match(text, PpeLabel, YesOrNo) == Some("Sí"),
      TrimmedOr(Match(text, RiskLabel, RestOfLine), "Bajo"),
      TrimmedOr(Match(text, RestrictionsLabel, RestOfLine), ""))
  }

  // ===== Matching facts, for any key =====

  lemma WsRunIs(s: string, i: nat, k: nat)
    requires i <= k <= |s|
    requires forall j :: i <= j < k ==> IsWs(s[j])
    requires k == |s| || !IsWs(s[k])
    ensures WsRun(s, i) == k
  {
  }

  lemma LineEndIs(s: string, i: nat, e: nat)
    requires i <= e <= |s|
    requires forall j :: i <= j < e ==> !IsLineTerminator(s[j])
    requires e == |s| || IsLineTerminator(s[e])
    ensures LineEnd(s, i) == e
  {
  }

  /** Positions where the key does not occur are skipped. */
  lemma {:induction false} MatchSkip(s: string, key: string, g: Group, p: nat, k: nat)
    requires p <= k <= |s|
    requires forall j :: p <= j < k ==> !OccursAt(s, key, j)
    ensures MatchFrom(s, key, g, p) == MatchFrom(s, key, g, k)
    decreases k - p
  {
    if p < k {
      MatchSkip(s, key, g, p + 1, k);
    }
  }

  /** The first occurrence of the key decides the match when the rest matches there. */
  lemma MatchAtFirst(s: string, key: string, g: Group, k: nat)
    requires k + |key| <= |s| && OccursAt(s, key, k)
    requires forall j :: 0 <= j < k ==> !OccursAt(s, key, j)
    requires Backtrack(s, k + |key|, WsRun(s, k + |key|), g).Some?
    ensures Match(s, key, g) == Backtrack(s, k + |key|, WsRun(s, k + |key|), g)
  {
    MatchSkip(s, key, g, 0, k);
  }

  /** Without the key there is no match. */
  lemma {:induction false} MatchAbsent(s: string, key: string, g: Group, p: nat)
    requires p <= |s|
    requires !Contains(s, key)
    ensures MatchFrom(s, key, g, p) == None
    decreases |s| - p
  {
    assert !OccursAt(s, key, p);
    if p < |s| {
      MatchAbsent(s, key, g, p + 1);
    }
  }

  /**
   * The layout after a key ending at `i`: whitespace up to `w`, then a
   * non-blank character and the rest of a line up to a `\n` or the end at `e`.
   */
  predicate LineLayout(s: string, i: nat, w: nat, e: nat) {
    i <= w < e <= |s|
    && (forall j :: i <= j < w ==> IsWs(s[j]))
    && !IsWs(s[w])
    && (forall j :: w <= j < e ==> !IsLineTerminator(s[j]))
    && (e == |s| || s[e] == '\n')
  }

  /**
   * After the key come whitespace up to `w`, then a line from `w` to a
   * `\n` or the end at `e`: the group captures that line.
   */
  lemma CaptureLine(s: string, i: nat, w: nat, e: nat)
    requires LineLayout(s, i, w, e)
    ensures Backtrack(s, i, WsRun(s, i), RestOfLine) == Some(s[w..e])
  {
    WsRunIs(s, i, w);
    LineEndIs(s, w, e);
  }

  /** The same, naming the captured text. */
  lemma CaptureText(s: string, i: nat, w: nat, e: nat, t: string)
    requires LineLayout(s, i, w, e) && s[w..e] == t
    ensures Backtrack(s, i, WsRun(s, i), RestOfLine) == Some(t)
  {
    CaptureLine(s, i, w, e);
  }

  /** A blank last line: the greedy `\s*` gives back its last character, which is captured. */
  lemma CaptureTrailingBlank(s: string, i: nat)
    requires i < |s|
    requires forall j :: i <= j < |s| ==> IsWs(s[j]) && !IsLineTerminator(s[j])
    ensures Backtrack(s, i, WsRun(s, i), RestOfLine) == Some(s[|s| - 1..])
  {
    var q := |s| - 1;
    WsRunIs(s, i, |s|);
    LineEndIs(s, q, |s|);
    assert GroupAt(s, |s|, RestOfLine) == None;
    assert s[q..|s|] == s[q..];
    assert GroupAt(s, q, RestOfLine) == Some(s[q..]);
  }

  lemma CaptureYesNo(s: string, i: nat, yn: string)
    requires yn == "Sí" || yn == "No"
    requires i + 3 <= |s| && s[i] == ' ' && s[i + 1..i + 3] == yn
    ensures Backtrack(s, i, WsRun(s, i), YesOrNo) == Some(yn)
  {
    assert s[i + 1] == yn[0];
    WsRunIs(s, i, i + 1);
    assert s[i + 1..][..2] == yn;
  }

  /** `s` holds the line `key + " " + v` at `k`, followed by a newline or the end of the text. */
  predicate HasLine(s: string, k: nat, key: string, v: string) {
    ValueEnd(k, key, v) <= |s| && s[k..k + |key|] == key && s[k + |key|] == ' '
    && s[k + |key| + 1..ValueEnd(k, key, v)] == v
    && (ValueEnd(k, key, v) == |s| || s[ValueEnd(k, key, v)] == '\n')
  }

  /** The characters of a slice are those of the text at its place. */
  lemma SliceChars(s: string, a: nat, v: string)
    requires a + |v| <= |s| && s[a..a + |v|] == v
    ensures forall j :: a <= j < a + |v| ==> s[j] == v[j - a]
  {
    forall j | a <= j < a + |v|
      ensures s[j] == v[j - a]
    {
      assert s[a..a + |v|][j - a] == s[j];
    }
  }

  /** Where the value of a line `key + " " + v` starts once its leading whitespace is skipped. */
  function ValueStart(k: nat, key: string, v: string): nat {
    k + |key| + 1 + (|v| - |TrimStart(v)|)
  }

  /** The end of the line `key + " " + v` written at `k`. */
  function ValueEnd(k: nat, key: string, v: string): nat {
    k + |key| + 1 + |v|
  }

  /** The blank after the key and the value's leading whitespace make one run of `\s`. */
  lemma WsBeforeValue(s: string, k: nat, key: string, v: string)
    requires HasLine(s, k, key, v)
    ensures forall j :: k + |key| <= j < ValueStart(k, key, v) ==> IsWs(s[j])
  {
    var i := k + |key|;
    SliceChars(s, i + 1, v);
    forall j | i <= j < ValueStart(k, key, v)
      ensures IsWs(s[j])
    {
      if j > i {
        assert s[j] == v[j - (i + 1)];
      }
    }
  }

  /** A single-line value puts no line terminator in the text from its first non-blank character to its end. */
  lemma NoTerminatorInValue(s: string, k: nat, key: string, v: string)
    requires HasLine(s, k, key, v) && SingleLine(v)
    ensures forall j :: ValueStart(k, key, v) <= j < ValueEnd(k, key, v) ==> !IsLineTerminator(s[j])
  {
    var a := k + |key| + 1;
    SliceChars(s, a, v);
    forall j | ValueStart(k, key, v) <= j < ValueEnd(k, key, v)
      ensures !IsLineTerminator(s[j])
    {
      assert s[j] == v[j - a];
    }
  }

  /** A suffix of a slice is the slice that starts further on. */
  lemma SuffixSlice(s: string, a: nat, v: string, t: string, b: nat, e: nat)
    requires e == a + |v| <= |s| && s[a..e] == v
    requires |t| <= |v| && t == v[|v| - |t|..] && b == e - |t|
    ensures s[b..e] == t
  {
    assert s[b..e] == s[a..e][|v| - |t|..];
  }

  /** The text from the value's first non-blank character to the end of the line is the value without its leading whitespace. */
  lemma ValueSlice(s: string, k: nat, key: string, v: string)
    requires HasLine(s, k, key, v)
    ensures s[ValueStart(k, key, v)..ValueEnd(k, key, v)] == TrimStart(v)
  {
    SuffixSlice(s, k + |key| + 1, v, TrimStart(v), ValueStart(k, key, v), ValueEnd(k, key, v));
  }

  /** A line `key + " " + v`, with a non-blank character in `v`, has the layout the group captures. */
  lemma ValueLayout(s: string, k: nat, key: string, v: string)
    requires HasLine(s, k, key, v)
    requires SingleLine(v) && TrimStart(v) != ""
    ensures LineLayout(s, k + |key|, ValueStart(k, key, v), ValueEnd(k, key, v))
    ensures s[ValueStart(k, key, v)..ValueEnd(k, key, v)] == TrimStart(v)
  {
    WsBeforeValue(s, k, key, v);
    NoTerminatorInValue(s, k, key, v);
    ValueSlice(s, k, key, v);
    assert s[ValueStart(k, key, v)..ValueEnd(k, key, v)][0] == s[ValueStart(k, key, v)];
  }

  /** A value with a non-blank character after `key + " "` is captured without its leading whitespace. */
  lemma CaptureValue(s: string, k: nat, key: string, v: string)
    requires HasLine(s, k, key, v)
    requires SingleLine(v) && TrimStart(v) != ""
    ensures Backtrack(s, k + |key|, WsRun(s, k + |key|), RestOfLine) == Some(TrimStart(v))
  {
    ValueLayout(s, k, key, v);
    CaptureText(s, k + |key|, ValueStart(k, key, v), ValueEnd(k, key, v), TrimStart(v));
  }

  /** `Trim` only looks past leading whitespace. */
  lemma TrimOfTrimStart(v: string)
    ensures Trim(TrimStart(v)) == Trim(v)
  {
    var t := TrimStart(v);
    assert TrimStart(t) == t;
  }

  /** A single-line value with a non-blank character comes back trimmed from the line it was written on. */
  lemma LineValueRoundTrip(s: string, k: nat, key: string, v: string)
    requires HasLine(s, k, key, v)
    requires SingleLine(v) && Trim(v) != ""
    requires forall j :: 0 <= j < k ==> !OccursAt(s, key, j)
    ensures TrimmedOr(Match(s, key, RestOfLine), "") == Trim(v)
  {
    TrimOfTrimStart(v);
    assert TrimStart(v) != "";
    CaptureValue(s, k, key, v);
    MatchAtFirst(s, key, RestOfLine, k);
  }

  /** The yes/no flag on the line written at `k` is read back. */
  lemma LineYesNoRoundTrip(s: string, k: nat, key: string, yn: string)
    requires yn == "Sí" || yn == "No"
    requires HasLine(s, k, key, yn)
    requires forall j :: 0 <= j < k ==> !OccursAt(s, key, j)
    ensures Match(s, key, YesOrNo) == Some(yn)
  {
    CaptureYesNo(s, k + |key|, yn);
    MatchAtFirst(s, key, YesOrNo, k);
  }

  /**
   * The last line `key + " " + (v || d)` of a text: the empty value comes
   * back as `d`, any other value trimmed (a blank one as the empty text).
   */
  lemma TailLineRoundTrip(s: string, k: nat, key: string, v: string, d: string)
    requires SingleLine(v) && SingleLine(d) && Trim(d) == d != ""
    requires HasLine(s, k, key, OrDefault(v, d)) && |s| == k + |key| + 1 + |OrDefault(v, d)|
    requires forall j :: 0 <= j < k ==> !OccursAt(s, key, j)
    ensures TrimmedOr(Match(s, key, RestOfLine), "") == if v == "" then d else Trim(v)
  {
    var t := OrDefault(v, d);
    var i := k + |key|;
    if Trim(t) != "" {
      LineValueRoundTrip(s, k, key, t);
    } else {
      TrimEmptyIff(t);
      forall j | i < j < |s|
        ensures IsWs(s[j]) && !IsLineTerminator(s[j])
      {
        assert s[j] == s[i + 1..|s|][j - i - 1] == t[j - i - 1];
      }
      CaptureTrailingBlank(s, i);
      MatchAtFirst(s, key, RestOfLine, k);
      var last := s[|s| - 1..];
      assert IsWs(last[0]);
      TrimAllWs(last);
    }
  }

  // ===== Where the lines of a three-line text sit =====

  lemma FirstLine(key: string, v: string, b: string, c: string)
    ensures HasLine(ThreeLines(key + " " + v, b, c), 0, key, v)
  {
    var a := key + " " + v;
    var s := ThreeLines(a, b, c);
    var i := |key|;
    forall j | 0 <= j < |a| ensures s[j] == a[j] { }
    assert s[0..i] == key;
    assert s[i + 1..i + 1 + |v|] == v;
    assert s[|a|] == '\n';
  }

  lemma SecondLine(a: string, key: string, v: string, c: string)
    ensures HasLine(ThreeLines(a, key + " " + v, c), |a| + 1, key, v)
  {
    var b := key + " " + v;
    var s := ThreeLines(a, b, c);
    var k := |a| + 1;
    var i := k + |key|;
    forall j | 0 <= j < |b| ensures s[k + j] == b[j] { }
    assert s[k..i] == key;
    assert s[i + 1..i + 1 + |v|] == v;
    assert s[k + |b|] == '\n';
  }

  lemma ThirdLine(a: string, b: string, key: string, v: string)
    ensures var s := ThreeLines(a, b, key + " " + v);
      |s| == |a| + |b| + 2 + |key| + 1 + |v| && HasLine(s, |a| + |b| + 2, key, v)
  {
    var c := key + " " + v;
    var s := ThreeLines(a, b, c);
    var k := |a| + |b| + 2;
    var i := k + |key|;
    forall j | 0 <= j < |c| ensures s[k + j] == c[j] { }
    assert s[k..i] == key;
    assert s[i + 1..i + 1 + |v|] == v;
  }

  /** A key without a newline that is not in `a` does not start in the first line or on the newline after it. */
  lemma NotInFirstLine(a: string, b: string, c: string, key: string)
    requires |key| > 0 && '\n' !in key && !Contains(a, key)
    ensures forall j :: 0 <= j < |a| + 1 ==> !OccursAt(ThreeLines(a, b, c), key, j)
  {
    var s := ThreeLines(a, b, c);
    forall j: nat | j < |a| + 1
      ensures !OccursAt(s, key, j)
    {
      if j + |key| > |s| {
      } else if j + |key| <= |a| {
        assert s[j..j + |key|] == a[j..j + |key|];
        assert !OccursAt(a, key, j);
      } else {
        assert s[j..j + |key|][|a| - j] == s[|a|] == '\n';
        assert key[|a| - j] in key;
      }
    }
  }

  /** Nor, when it is not in `b` either, in the second line or on the newline after it. */
  lemma NotInSecondLine(a: string, b: string, c: string, key: string)
    requires |key| > 0 && '\n' !in key && !Contains(b, key)
    ensures forall j :: |a| + 1 <= j < |a| + |b| + 2 ==> !OccursAt(ThreeLines(a, b, c), key, j)
  {
    var s := ThreeLines(a, b, c);
    var k := |a| + 1;
    forall j: nat | k <= j < k + |b| + 1
      ensures !OccursAt(s, key, j)
    {
      if j + |key| > |s| {
      } else if j + |key| <= k + |b| {
        assert s[j..j + |key|] == b[j - k..j - k + |key|];
        assert !OccursAt(b, key, j - k);
      } else {
        assert s[j..j + |key|][k + |b| - j] == s[k + |b|] == '\n';
        assert key[k + |b| - j] in key;
      }
    }
  }

  /** Where the three lines and the two newlines sit in the joined text. */
  lemma LinesAt(a: string, b: string, c: string)
    ensures var s := ThreeLines(a, b, c);
      |s| == |a| + |b| + |c| + 2 && s[|a|] == '\n' && s[|a| + 1..|a| + 1 + |b|] == b
      && s[|a| + 1 + |b|] == '\n' && s[|a| + |b| + 2..|s|] == c
  {
  }

  /**
   * A line `key + " " + v` with a blank `v` that a one-line `line` follows:
   * the run of `\s` crosses the newline and stops at the start of `line`.
   */
  lemma BlankBeforeLine(s: string, k: nat, key: string, v: string, line: string, e: nat)
    requires HasLine(s, k, key, v) && ValueEnd(k, key, v) < |s| && Trim(v) == ""
    requires e == ValueEnd(k, key, v) + 1 + |line| <= |s| && s[ValueEnd(k, key, v) + 1..e] == line
    requires e == |s| || s[e] == '\n'
    requires |line| > 0 && !IsWs(line[0]) && SingleLine(line)
    ensures LineLayout(s, k + |key|, ValueEnd(k, key, v) + 1, e)
  {
    var i := k + |key|;
    TrimEmptyIff(v);
    SliceChars(s, i + 1, v);
    SliceChars(s, ValueEnd(k, key, v) + 1, line);
    forall j | i <= j < ValueEnd(k, key, v) + 1
      ensures IsWs(s[j])
    {
      if i < j < ValueEnd(k, key, v) {
        assert s[j] == v[j - (i + 1)];
      }
    }
  }

  /** The first `key` is followed by a run of `\s` and then `line`: the group captures `line`. */
  lemma MatchIsLine(s: string, key: string, k: nat, w: nat, e: nat, line: string)
    requires OccursAt(s, key, k) && forall j :: 0 <= j < k ==> !OccursAt(s, key, j)
    requires LineLayout(s, k + |key|, w, e) && s[w..e] == line
    ensures Match(s, key, RestOfLine) == Some(line)
  {
    CaptureLine(s, k + |key|, w, e);
    MatchAtFirst(s, key, RestOfLine, k);
  }

  /** Blank text after `key + " "` on the first line: the group captures the whole second line. */
  lemma BlankFirstSwallowsSecond(key: string, v: string, b: string, c: string)
    requires v != "" && SingleLine(v) && Trim(v) == ""
    requires |b| > 0 && !IsWs(b[0]) && SingleLine(b)
    ensures Match(ThreeLines(key + " " + v, b, c), key, RestOfLine) == Some(b)
  {
    var a := key + " " + v;
    var s := ThreeLines(a, b, c);
    FirstLine(key, v, b, c);
    LinesAt(a, b, c);
    BlankBeforeLine(s, 0, key, v, b, |a| + 1 + |b|);
    MatchIsLine(s, key, 0, |a| + 1, |a| + 1 + |b|, b);
  }

  /** Blank text after `key + " "` on the second line: the group captures the whole third line. */
  lemma BlankSecondSwallowsThird(a: string, key: string, v: string, c: string)
    requires |key| > 0 && '\n' !in key && !Contains(a, key)
    requires v != "" && SingleLine(v) && Trim(v) == ""
    requires |c| > 0 && !IsWs(c[0]) && SingleLine(c)
    ensures Match(ThreeLines(a, key + " " + v, c), key, RestOfLine) == Some(c)
  {
    var b := key + " " + v;
    var s := ThreeLines(a, b, c);
    NotInFirstLine(a, b, c, key);
    SecondLine(a, key, v, c);
    LinesAt(a, b, c);
    BlankBeforeLine(s, |a| + 1, key, v, c, |s|);
    MatchIsLine(s, key, |a| + 1, |a| + |b| + 2, |s|, c);
  }

  /** A one-line label followed by a space and a one-line value is one line. */
  lemma LabelLineSingle(name: string, v: string)
    requires SingleLine(name) && SingleLine(v)
    ensures SingleLine(name + " " + v)
  {
    var l := name + " " + v;
    forall j | 0 <= j < |l| ensures !IsLineTerminator(l[j]) {
      if j < |name| {
        assert l[j] == name[j];
      } else if j > |name| {
        assert l[j] == v[j - |name| - 1];
      }
    }
  }

  // ===== Facts about the labels =====

  lemma ShortNoContains(v: string, key: string)
    requires |v| < |key|
    ensures !Contains(v, key)
  {
  }

  /** A literal prefix that lacks the key's first character adds no occurrence. */
  lemma NoContainsAfterLiteral(p: string, v: string, key: string)
    requires |key| > 0 && key[0] !in p && !Contains(v, key)
    ensures !Contains(p + v, key)
  {
    var s := p + v;
    forall j: nat | j + |key| <= |s|
      ensures !OccursAt(s, key, j)
    {
      if j < |p| {
        assert s[j] == p[j] && p[j] in p;
        assert s[j..j + |key|][0] == s[j];
      } else {
        assert s[j..j + |key|] == v[j - |p|..j - |p| + |key|];
        assert !OccursAt(v, key, j - |p|);
      }
    }
  }

  lemma NoTerminatorSingleLine(s: string)
    requires '\n' !in s && '\r' !in s && '\U{2028}' !in s && '\U{2029}' !in s
    ensures SingleLine(s)
  {
    forall j | 0 <= j < |s|
      ensures !IsLineTerminator(s[j])
    {
      assert s[j] in s;
    }
  }

  lemma LabelsAreOneLine()
    ensures '\n' !in InductionLabel && '\n' !in CertificationsLabel
    ensures '\n' !in RiskLabel && '\n' !in RestrictionsLabel
    ensures SingleLine(RestrictionsLabel)
  {
    NoTerminatorSingleLine(RestrictionsLabel);
  }

  /** A word with no whitespace at either end and no line terminator. */
  predicate PlainWord(d: string) {
    |d| > 0 && !IsWs(d[0]) && !IsWs(d[|d| - 1])
    && '\n' !in d && '\r' !in d && '\U{2028}' !in d && '\U{2029}' !in d
  }

  lemma DefaultsArePlain()
    ensures PlainWord("Ninguna") && PlainWord("Ninguno") && PlainWord("Bajo")
  {
  }

  /** A plain word is one line and has no whitespace to trim. */
  lemma WordIsTrimmed(d: string)
    requires PlainWord(d)
    ensures SingleLine(d) && Trim(d) == d
  {
    NoTerminatorSingleLine(d);
    TrimFixed(d);
  }

  lemma DefaultsAreTrimmed()
    ensures SingleLine("Ninguna") && Trim("Ninguna") == "Ninguna"
    ensures SingleLine("Ninguno") && Trim("Ninguno") == "Ninguno"
    ensures SingleLine("Bajo") && Trim("Bajo") == "Bajo"
  {
    DefaultsArePlain();
    WordIsTrimmed("Ninguna");
    WordIsTrimmed("Ninguno");
    WordIsTrimmed("Bajo");
  }

  /** The induction label is not in the courses line unless the courses hold it. */
  lemma CoursesLineLacksInduction(v: string)
    requires !Contains(v, InductionLabel)
    ensures !Contains(CoursesLabel + " " + v, InductionLabel)
  {
    assert InductionLabel[0] == 'I' && 'I' !in CoursesLabel + " ";
    NoContainsAfterLiteral(CoursesLabel + " ", v, InductionLabel);
  }

  /** `Certificaciones:` cannot start inside `Cursos previos: `. */
  lemma CoursesLineLacksCertifications(v: string)
    requires !Contains(v, CertificationsLabel)
    ensures !Contains(CoursesLabel + " " + v, CertificationsLabel)
  {
    var tail := "ursos previos: ";
    var key := CertificationsLabel;
    assert key[0] == 'C' && 'C' !in tail;
    NoContainsAfterLiteral(tail, v, key);
    assert CoursesLabel + " " + v == ['C'] + (tail + v);
    assert (tail + v)[0] == 'u' && key[1] == 'e';
    NoContainsAfterHead('C', tail + v, key);
  }

  /** A key whose second character differs from the text's first is not found at the character put before it. */
  lemma NoContainsAfterHead(c: char, rest: string, key: string)
    requires !Contains(rest, key)
    requires |key| >= 2 && |rest| >= 1 && rest[0] != key[1]
    ensures !Contains([c] + rest, key)
  {
    var s := [c] + rest;
    forall j: nat | j + |key| <= |s|
      ensures !OccursAt(s, key, j)
    {
      if j == 0 {
        assert s[j..j + |key|][1] == rest[0];
      } else {
        SliceOfSlice(s, rest, 1, j - 1, |key|);
        assert !OccursAt(rest, key, j - 1);
      }
    }
  }

  lemma InductionLineLacksCertifications(induction: bool)
    ensures !Contains(InductionLabel + " " + YesNo(induction), CertificationsLabel)
  {
    ShortNoContains(YesNo(induction), CertificationsLabel);
    assert CertificationsLabel[0] == 'C' && 'C' !in InductionLabel + " ";
    NoContainsAfterLiteral(InductionLabel + " ", YesNo(induction), CertificationsLabel);
  }

  lemma PpeLineLacks(ppe: bool)
    ensures !Contains(PpeLabel + " " + YesNo(ppe), RiskLabel)
    ensures !Contains(PpeLabel + " " + YesNo(ppe), RestrictionsLabel)
  {
    ShortNoContains(YesNo(ppe), RiskLabel);
    ShortNoContains(YesNo(ppe), RestrictionsLabel);
    assert RiskLabel[0] == 'N' && 'N' !in PpeLabel + " ";
    assert RestrictionsLabel[0] == 'R' && 'R' !in PpeLabel + " ";
    NoContainsAfterLiteral(PpeLabel + " ", YesNo(ppe), RiskLabel);
    NoContainsAfterLiteral(PpeLabel + " ", YesNo(ppe), RestrictionsLabel);
  }

  lemma RiskLineLacksRestrictions(v: string)
    requires !Contains(v, RestrictionsLabel)
    ensures !Contains(RiskLabel + " " + v, RestrictionsLabel)
  {
    assert RestrictionsLabel[0] == 'R' && 'R' !in RiskLabel + " ";
    NoContainsAfterLiteral(RiskLabel + " ", v, RestrictionsLabel);
  }

  /** A piece of a slice is the same piece of the text it was cut from. */
  lemma SliceOfSlice(s: string, t: string, a: nat, j: nat, n: nat)
    requires a + |t| <= |s| && t == s[a..a + |t|] && j + n <= |t|
    ensures t[j..j + n] == s[a + j..a + j + n]
  {
    forall i | j <= i < j + n
      ensures t[i] == s[a + i]
    {
    }
  }

  /** A slice of a one-line text is one line. */
  lemma SliceKeepsSingleLine(s: string, t: string, a: nat)
    requires a + |t| <= |s| && t == s[a..a + |t|] && SingleLine(s)
    ensures SingleLine(t)
  {
    forall j | 0 <= j < |t|
      ensures !IsLineTerminator(t[j])
    {
      assert t[j] == s[a + j];
    }
  }

  /** A slice of a text without `key` does not hold `key` either. */
  lemma SliceKeepsAbsent(s: string, t: string, a: nat, key: string)
    requires a + |t| <= |s| && t == s[a..a + |t|] && !Contains(s, key)
    ensures !Contains(t, key)
  {
    forall j: nat | j + |key| <= |t|
      ensures !OccursAt(t, key, j)
    {
      SliceOfSlice(s, t, a, j, |key|);
      assert !OccursAt(s, key, a + j);
    }
  }

  /** `Trim` keeps a part of its input. */
  lemma TrimKeeps(s: string, key: string)
    ensures SingleLine(s) ==> SingleLine(Trim(s))
    ensures !Contains(s, key) ==> !Contains(Trim(s), key)
  {
    var t := Trim(s);
    var a: nat :| InfixWithWsAround(s, t, a);
    if SingleLine(s) {
      SliceKeepsSingleLine(s, t, a);
    }
    if !Contains(s, key) {
      SliceKeepsAbsent(s, t, a, key);
    }
  }

  // ===== The academic text =====

  /** The courses come back trimmed when they have a non-blank character, and as `Ninguno` when empty. */
  lemma AcademicCoursesRoundTrip(courses: string, induction: bool, certifications: string)
    requires SingleLine(courses) && (courses == "" || Trim(courses) != "")
    ensures ParseAcademic(AcademicText(courses, induction, certifications)).courses
         == OrDefault(Trim(courses), "Ninguno")
  {
    var v := OrDefault(courses, "Ninguno");
    DefaultsAreTrimmed();
    FirstLine(CoursesLabel, v, InductionLabel + " " + YesNo(induction),
              CertificationsLabel + " " + OrDefault(certifications, "Ninguna"));
    LineValueRoundTrip(AcademicText(courses, induction, certifications), 0, CoursesLabel, v);
  }

  /** The induction flag comes back unless the courses text itself holds its label. */
  lemma AcademicInductionRoundTrip(courses: string, induction: bool, certifications: string)
    requires !Contains(courses, InductionLabel)
    ensures ParseAcademic(AcademicText(courses, induction, certifications)).induction == induction
  {
    var v := OrDefault(courses, "Ninguno");
    var a := CoursesLabel + " " + v;
    var c := CertificationsLabel + " " + OrDefault(certifications, "Ninguna");
    var s := AcademicText(courses, induction, certifications);
    if courses == "" {
      ShortNoContains("Ninguno", InductionLabel);
    }
    CoursesLineLacksInduction(v);
    LabelsAreOneLine();
    NotInFirstLine(a, InductionLabel + " " + YesNo(induction), c, InductionLabel);
    SecondLine(a, InductionLabel, YesNo(induction), c);
    LineYesNoRoundTrip(s, |a| + 1, InductionLabel, YesNo(induction));
  }

  /**
   * The certifications come back as `Ninguna` when empty and trimmed
   * otherwise, unless the courses text itself holds their label.
   */
  lemma AcademicCertificationsRoundTrip(courses: string, induction: bool, certifications: string)
    requires !Contains(courses, CertificationsLabel)
    requires SingleLine(certifications)
    ensures ParseAcademic(AcademicText(courses, induction, certifications)).certifications
         == if certifications == "" then "Ninguna" else Trim(certifications)
  {
    var v := OrDefault(courses, "Ninguno");
    var t := OrDefault(certifications, "Ninguna");
    var a := CoursesLabel + " " + v;
    var b := InductionLabel + " " + YesNo(induction);
    var s := AcademicText(courses, induction, certifications);
    if courses == "" {
      ShortNoContains("Ninguno", CertificationsLabel);
    }
    CoursesLineLacksCertifications(v);
    InductionLineLacksCertifications(induction);
    LabelsAreOneLine();
    NotInFirstLine(a, b, CertificationsLabel + " " + t, CertificationsLabel);
    NotInSecondLine(a, b, CertificationsLabel + " " + t, CertificationsLabel);
    ThirdLine(a, b, CertificationsLabel, t);
    DefaultsAreTrimmed();
    TailLineRoundTrip(s, |a| + |b| + 2, CertificationsLabel, certifications, "Ninguna");
  }

  /**
   * A blank (non-empty, all-whitespace) courses text is written as is; the
   * `\s*` of the parser then runs over the newline, and the courses field
   * reads back the whole induction line.
   */
  lemma BlankCoursesSwallowNextLine(courses: string, induction: bool, certifications: string)
    requires courses != "" && SingleLine(courses) && Trim(courses) == ""
    ensures ParseAcademic(AcademicText(courses, induction, certifications)).courses
         == InductionLabel + " " + YesNo(induction)
  {
    var b := InductionLabel + " " + YesNo(induction);
    InductionLineIsTrimmed(induction);
    BlankFirstSwallowsSecond(CoursesLabel, courses, b,
                             CertificationsLabel + " " + OrDefault(certifications, "Ninguna"));
  }

  lemma InductionLineIsPlain(induction: bool)
    ensures var b := InductionLabel + " " + YesNo(induction);
      b[0] == 'I' && PlainWord(b)
  {
    LabelIsPlain();
    YesNoIsPlain(induction);
    JoinedIsPlain(InductionLabel, YesNo(induction));
  }

  lemma LabelIsPlain()
    ensures InductionLabel[0] == 'I' && PlainWord(InductionLabel)
  {
  }

  lemma YesNoIsPlain(b: bool)
    ensures PlainWord(YesNo(b))
  {
  }

  /** Two plain words joined by a space make a plain word. */
  lemma JoinedIsPlain(x: string, y: string)
    requires PlainWord(x) && PlainWord(y)
    ensures PlainWord(x + " " + y)
  {
    var b := x + " " + y;
    assert b[0] == x[0] && b[|b| - 1] == y[|y| - 1];
  }

  lemma InductionLineIsTrimmed(induction: bool)
    ensures var b := InductionLabel + " " + YesNo(induction);
      |b| > 0 && b[0] == 'I' && SingleLine(b) && Trim(b) == b
  {
    InductionLineIsPlain(induction);
    WordIsTrimmed(InductionLabel + " " + YesNo(induction));
  }

  /** Two academic records with the same fields are the same record. */
  lemma AcademicFieldsEqual(p: AcademicFields, q: AcademicFields)
    requires p.courses == q.courses && p.induction == q.induction && p.certifications == q.certifications
    ensures p == q
  {
  }

  /** What `savePolicies` should send: the free-text fields trimmed before `|| default`. */
  function AcademicTextTrimmed(courses: string, induction: bool, certifications: string): string {
    AcademicText(Trim(courses), induction, Trim(certifications))
  }

  /**
   * With the fields trimmed first, every single-line entry reads back as it
   * was typed (trimmed), or as the default when it is blank.
   */
  lemma AcademicRoundTrip(courses: string, induction: bool, certifications: string)
    requires SingleLine(courses) && SingleLine(certifications)
    requires !Contains(courses, InductionLabel) && !Contains(courses, CertificationsLabel)
    ensures ParseAcademic(AcademicTextTrimmed(courses, induction, certifications))
         == AcademicFields(OrDefault(Trim(courses), "Ninguno"), induction,
                           OrDefault(Trim(certifications), "Ninguna"))
  {
    var c := Trim(courses);
    var t := Trim(certifications);
    TrimKeeps(courses, InductionLabel);
    TrimKeeps(courses, CertificationsLabel);
    TrimKeeps(certifications, InductionLabel);
    TrimIdempotent(courses);
    TrimIdempotent(certifications);
    AcademicCoursesRoundTrip(c, induction, t);
    AcademicInductionRoundTrip(c, induction, t);
    AcademicCertificationsRoundTrip(c, induction, t);
    AcademicFieldsEqual(ParseAcademic(AcademicText(c, induction, t)),
      AcademicFields(OrDefault(Trim(courses), "Ninguno"), induction, OrDefault(Trim(certifications), "Ninguna")));
  }

  // ===== The safety text =====

  lemma SafetyPpeRoundTrip(ppe: bool, risk: string, restrictions: string)
    ensures ParseSafety(SafetyText(ppe, risk, restrictions)).ppe == ppe
  {
    FirstLine(PpeLabel, YesNo(ppe), RiskLabel + " " + OrDefault(risk, "Bajo"),
              RestrictionsLabel + " " + OrDefault(restrictions, "Ninguna"));
    LineYesNoRoundTrip(SafetyText(ppe, risk, restrictions), 0, PpeLabel, YesNo(ppe));
  }

  /** The risk level comes back trimmed when it has a non-blank character, and as `Bajo` when empty. */
  lemma SafetyRiskRoundTrip(ppe: bool, risk: string, restrictions: string)
    requires SingleLine(risk) && (risk == "" || Trim(risk) != "")
    ensures ParseSafety(SafetyText(ppe, risk, restrictions)).risk == OrDefault(Trim(risk), "Bajo")
  {
    var v := OrDefault(risk, "Bajo");
    var a := PpeLabel + " " + YesNo(ppe);
    var c := RestrictionsLabel + " " + OrDefault(restrictions, "Ninguna");
    var s := SafetyText(ppe, risk, restrictions);
    DefaultsAreTrimmed();
    PpeLineLacks(ppe);
    LabelsAreOneLine();
    NotInFirstLine(a, RiskLabel + " " + v, c, RiskLabel);
    SecondLine(a, RiskLabel, v, c);
    LineValueRoundTrip(s, |a| + 1, RiskLabel, v);
  }

  /**
   * The restrictions come back as `Ninguna` when empty and trimmed
   * otherwise, unless the risk text itself holds their label.
   */
  lemma SafetyRestrictionsRoundTrip(ppe: bool, risk: string, restrictions: string)
    requires !Contains(risk, RestrictionsLabel)
    requires SingleLine(restrictions)
    ensures ParseSafety(SafetyText(ppe, risk, restrictions)).restrictions
         == if restrictions == "" then "Ninguna" else Trim(restrictions)
  {
    var v := OrDefault(risk, "Bajo");
    var t := OrDefault(restrictions, "Ninguna");
    var a := PpeLabel + " " + YesNo(ppe);
    var b := RiskLabel + " " + v;
    var s := SafetyText(ppe, risk, restrictions);
    if risk == "" {
      ShortNoContains("Bajo", RestrictionsLabel);
    }
    PpeLineLacks(ppe);
    RiskLineLacksRestrictions(v);
    LabelsAreOneLine();
    NotInFirstLine(a, b, RestrictionsLabel + " " + t, RestrictionsLabel);
    NotInSecondLine(a, b, RestrictionsLabel + " " + t, RestrictionsLabel);
    ThirdLine(a, b, RestrictionsLabel, t);
    DefaultsAreTrimmed();
    TailLineRoundTrip(s, |a| + |b| + 2, RestrictionsLabel, restrictions, "Ninguna");
  }

  /** A text without the risk line reads as risk `Bajo`. */
  lemma RiskDefaultsToBajo(text: string)
    requires !Contains(text, RiskLabel)
    ensures ParseSafety(text).risk == "Bajo"
  {
    MatchAbsent(text, RiskLabel, RestOfLine, 0);
  }

  /** A blank risk level swallows the restrictions line in the same way as blank courses. */
  lemma BlankRiskSwallowsNextLine(ppe: bool, risk: string, restrictions: string)
    requires risk != "" && SingleLine(risk) && Trim(risk) == ""
    requires SingleLine(restrictions)
    ensures ParseSafety(SafetyText(ppe, risk, restrictions)).risk
         == Trim(RestrictionsLabel + " " + OrDefault(restrictions, "Ninguna"))
  {
    var a := PpeLabel + " " + YesNo(ppe);
    var t := OrDefault(restrictions, "Ninguna");
    var c := RestrictionsLabel + " " + t;
    PpeLineLacks(ppe);
    LabelsAreOneLine();
    DefaultsAreTrimmed();
    assert SingleLine(t);
    LabelLineSingle(RestrictionsLabel, t);
    assert c[0] == 'R';
    BlankSecondSwallowsThird(a, RiskLabel, risk, c);
  }

  /** What `savePolicies` should send for safety: the free-text fields trimmed before `|| default`. */
  function SafetyTextTrimmed(ppe: bool, risk: string, restrictions: string): string {
    SafetyText(ppe, Trim(risk), Trim(restrictions))
  }

  lemma SafetyRoundTrip(ppe: bool, risk: string, restrictions: string)
    requires SingleLine(risk) && SingleLine(restrictions)
    requires !Contains(risk, RestrictionsLabel)
    ensures ParseSafety(SafetyTextTrimmed(ppe, risk, restrictions))
         == SafetyFields(ppe, OrDefault(Trim(risk), "Bajo"), OrDefault(Trim(restrictions), "Ninguna"))
  {
    var r := Trim(risk);
    var x := Trim(restrictions);
    TrimKeeps(risk, RestrictionsLabel);
    TrimKeeps(restrictions, RestrictionsLabel);
    assert SingleLine(r) && SingleLine(x) && !Contains(r, RestrictionsLabel);
    TrimIdempotent(risk);
    TrimIdempotent(restrictions);
    SafetyPpeRoundTrip(ppe, r, x);
    SafetyRiskRoundTrip(ppe, r, x);
    SafetyRestrictionsRoundTrip(ppe, r, x);
  }
}
