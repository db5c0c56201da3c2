/**
 * The JavaScript string primitives the app leans on: `\s` and `trim()`, `\d`, ASCII case
 * folding for `includes` searches, decimal rendering of integers and `Number(...)` on the
 * decimal strings a numeric input produces.
 */
module Text {
  import opened Basics

  /** A character `\s` matches and `trim()` removes (ECMAScript WhiteSpace and LineTerminator). */
  predicate IsJsWhitespace(c: char) {
    c == '\t' || c == '\n' || c == '\U{000B}' || c == '\U{000C}' || c == '\r' || c == ' '
    || c == '\U{00A0}' || c == '\U{1680}' || ('\U{2000}' <= c <= '\U{200A}')
    || c == '\U{2028}' || c == '\U{2029}' || c == '\U{202F}' || c == '\U{205F}'
    || c == '\U{3000}' || c == '\U{FEFF}'
  }

  /** A character `\d` matches. */
  predicate IsDigit(c: char) {
    '0' <= c <= '9'
  }

  predicate AllDigits(s: string) {
    forall i :: 0 <= i < |s| ==> IsDigit(s[i])
  }

  /** `s` with its leading whitespace removed. */
  function TrimStart(s: string): (r: string)
    ensures |r| <= |s| && r == s[|s| - |r|..]
    ensures forall k :: 0 <= k < |s| - |r| ==> IsJsWhitespace(s[k])
    ensures r == [] || !IsJsWhitespace(r[0])
  {
    if s == [] || !IsJsWhitespace(s[0]) then s else TrimStart(s[1..])
  }

  /** `s` with its trailing whitespace removed. */
  function TrimEnd(s: string): (r: string)
    ensures |r| <= |s| && r == s[..|r|]
    ensures forall k :: |r| <= k < |s| ==> IsJsWhitespace(s[k])
    ensures r == [] || !IsJsWhitespace(r[|r| - 1])
  {
    if s == [] || !IsJsWhitespace(s[|s| - 1]) then s else TrimEnd(s[..|s| - 1])
  }

  /** `s[a..b]` is a slice of `s` with nothing but whitespace before and after it. */
  predicate OnlyWhitespaceOutside(s: string, a: int, b: int) {
    0 <= a <= b <= |s|
    && (forall k :: 0 <= k < a ==> IsJsWhitespace(s[k]))
    && (forall k :: b <= k < |s| ==> IsJsWhitespace(s[k]))
  }

  /** `String.prototype.trim`: the slice of `s` left once whitespace is cut from both ends. */
  function Trim(s: string): (r: string)
    ensures exists a, b :: OnlyWhitespaceOutside(s, a, b) && r == s[a..b]
    ensures r == [] || (!IsJsWhitespace(r[0]) && !IsJsWhitespace(r[|r| - 1]))
    ensures r == [] <==> forall k :: 0 <= k < |s| ==> IsJsWhitespace(s[k])
  {
    var t := TrimStart(s);
    var r := TrimEnd(t);
    CutBothEnds(s, |s| - |t|, t, r);
    r
  }

  /** Whitespace cut from the front of `s`, then from the back of what is left: a slice with only whitespace outside it. */
  lemma CutBothEnds(s: string, a: nat, t: string, r: string)
    requires a <= |s| && t == s[a..] && forall k :: 0 <= k < a ==> IsJsWhitespace(s[k])
    requires |r| <= |t| && r == t[..|r|] && forall k :: |r| <= k < |t| ==> IsJsWhitespace(t[k])
    ensures OnlyWhitespaceOutside(s, a, a + |r|) && r == s[a..a + |r|]
  {
    forall k | a + |r| <= k < |s| ensures IsJsWhitespace(s[k]) {
      assert s[k] == t[k - a];
    }
  }

  /** A string that neither starts nor ends with whitespace is its own trim. */
  lemma TrimUnchanged(s: string)
    requires s == [] || (!IsJsWhitespace(s[0]) && !IsJsWhitespace(s[|s| - 1]))
    ensures Trim(s) == s
  {
  }

  /** ASCII case folding; other letters are kept as they are. */
  function LowerChar(c: char): char {
    if 'A' <= c <= 'Z' then (c as int + 32) as char else c
  }

  function AsciiLower(s: string): (r: string)
    ensures |r| == |s|
    ensures forall i :: 0 <= i < |s| ==> r[i] == LowerChar(s[i])
  {
    seq(|s|, i requires 0 <= i < |s| => LowerChar(s[i]))
  }

  /** `String.prototype.includes`: `needle` occurs in `hay` at some position. */
  predicate Contains(hay: string, needle: string) {
    exists i :: 0 <= i <= |hay| - |needle| && OccursAt(hay, needle, i)
  }

  predicate OccursAt(hay: string, needle: string, i: nat)
    requires i + |needle| <= |hay|
  {
    hay[i..i + |needle|] == needle
  }

  /** Every string includes the empty string. */
  lemma ContainsEmpty(hay: string)
    ensures Contains(hay, "")
  {
    assert OccursAt(hay, "", 0);
  }

  /** The first index of `c` in `s`, or `|s|` when there is none. */
  function IndexOf(s: string, c: char): (r: nat)
    ensures r <= |s|
    ensures r < |s| ==> s[r] == c
    ensures forall k :: 0 <= k < r ==> s[k] != c
  {
    if s == [] then 0
    else if s[0] == c then 0
    else 1 + IndexOf(s[1..], c)
  }

  function DigitChar(d: nat): (c: char)
    requires d < 10
    ensures IsDigit(c)
  {
    ('0' as int + d) as char
  }

  function DigitValue(c: char): (d: nat)
    requires IsDigit(c)
    ensures d < 10 && DigitChar(d) == c
  {
    c as int - '0' as int
  }

  /** The number a string of decimal digits denotes. */
  function DecimalValue(s: string): nat
    requires AllDigits(s)
  {
    if s == [] then 0 else DecimalValue(s[..|s| - 1]) * 10 + DigitValue(s[|s| - 1])
  }

  /** The decimal rendering of `n`, as a template literal prints it. */
  function NatToString(n: nat): (r: string)
    ensures 1 <= |r| && AllDigits(r)
    ensures DecimalValue(r) == n
    ensures |r| > 1 ==> r[0] != '0'
  {
    if n < 10 then [DigitChar(n)]
    else
      var prefix := NatToString(n / 10);
      var r := prefix + [DigitChar(n % 10)];
      assert r[..|r| - 1] == prefix;
      r
  }

  function Pow10(k: nat): (r: nat)
    ensures r >= 1
  {
    if k == 0 then 1 else 10 * Pow10(k - 1)
  }

  /**
   * `Number(s)` for the strings a numeric input holds: optional surrounding whitespace, an
   * optional sign and decimal digits with at most one point. None stands for NaN.
   */
  function ParseDecimal(s: string): Option<real> {
    var t := Trim(s);
    if t == [] then Some(0.0)
    else if t[0] == '-' then
      match ParseUnsigned(t[1..])
      case Some(x) => Some(-x)
      case None => None
    else if t[0] == '+' then ParseUnsigned(t[1..])
    else ParseUnsigned(t)
  }

  /** Digits with at most one decimal point and at least one digit. */
  function ParseUnsigned(u: string): Option<real> {
    var dot := IndexOf(u, '.');
    var whole := u[..dot];
    var fraction := if dot < |u| then u[dot + 1..] else [];
    if !(AllDigits(whole) && AllDigits(fraction) && |whole| + |fraction| > 0) then None
    else if fraction == [] then Some(DecimalValue(whole) as real)
    else Some(DecimalValue(whole) as real + (DecimalValue(fraction) as real) / (Pow10(|fraction|) as real))
  }

  /** A character that does not occur is found at the end. */
  lemma {:induction false} IndexOfAbsent(s: string, c: char)
    requires forall i :: 0 <= i < |s| ==> s[i] != c
    ensures IndexOf(s, c) == |s|
  {
    if s != [] {
      IndexOfAbsent(s[1..], c);
    }
  }

  /** Plain digits read as their decimal value. */
  lemma UnsignedDigits(s: string)
    requires 1 <= |s| && AllDigits(s)
    ensures ParseUnsigned(s) == Some(DecimalValue(s) as real)
  {
    IndexOfAbsent(s, '.');
    assert s[..|s|] == s;
    assert AllDigits([]);
  }

  /** A non-empty run of digits is a number: no sign, no whitespace to trim. */
  lemma DigitsParse(s: string)
    requires 1 <= |s| && AllDigits(s)
    ensures ParseDecimal(s) == Some(DecimalValue(s) as real)
  {
    assert IsDigit(s[0]) && IsDigit(s[|s| - 1]);
    TrimUnchanged(s);
    UnsignedDigits(s);
  }

  /** Rendering a count and reading it back as a number gives the count. */
  lemma NatToStringParses(n: nat)
    ensures ParseDecimal(NatToString(n)) == Some(n as real)
  {
    DigitsParse(NatToString(n));
  }
}
