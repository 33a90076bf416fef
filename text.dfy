/**
 * String helpers shared by the server, the prototype client and the networked client:
 * whitespace and blankness, trimming, substring search, decimal digits with zero padding,
 * replacement of non-overlapping occurrences and ASCII case folding.
 * A `string` is a sequence of Unicode scalar values.
 */
module Text {

  /** The characters that Ruby's `[[:space:]]` (used by `blank?`) and Foundation's
    * `.whitespacesAndNewlines` (used by `trimmingCharacters(in:)`) both class as white space. */
  predicate IsWhitespace(c: char) {
    c == ' ' || c == '\t' || c == '\n' || c == '\U{000B}' || c == '\U{000C}' || c == '\r'
    || c == '\U{0085}' || c == '\U{00A0}' || c == '\U{1680}'
    || ('\U{2000}' <= c <= '\U{200A}')
    || c == '\U{2028}' || c == '\U{2029}' || c == '\U{202F}' || c == '\U{205F}' || c == '\U{3000}'
  }

  /** Ruby's `blank?` on a string, Swift's `trimmingCharacters(...).isEmpty`. */
  predicate IsBlank(s: string) {
    forall i | 0 <= i < |s| :: IsWhitespace(s[i])
  }

  function TrimStart(s: string): (r: string)
    ensures |r| <= |s| && r == s[|s| - |r|..]
    ensures r == [] || !IsWhitespace(r[0])
    ensures forall i | 0 <= i < |s| - |r| :: IsWhitespace(s[i])
  {
    if |s| > 0 && IsWhitespace(s[0]) then TrimStart(s[1..]) else s
  }

  function TrimEnd(s: string): (r: string)
    ensures |r| <= |s| && r == s[..|r|]
    ensures r == [] || !IsWhitespace(r[|r| - 1])
    ensures forall i | |r| <= i < |s| :: IsWhitespace(s[i])
  {
    if |s| > 0 && IsWhitespace(s[|s| - 1]) then TrimEnd(s[..|s| - 1]) else s
  }

  /** `trimmingCharacters(in: .whitespacesAndNewlines)`: white space removed from both ends. */
  function Trim(s: string): (r: string)
    ensures r == [] || (!IsWhitespace(r[0]) && !IsWhitespace(r[|r| - 1]))
    ensures exists i :: OccursAt(s, r, i) && IsBlank(s[..i]) && IsBlank(s[i + |r|..])
  {
    var t := TrimStart(s);
    var r := TrimEnd(t);
    TrimWitness(s, t, r);
    r
  }

  lemma TrimWitness(s: string, t: string, r: string)
    requires |t| <= |s| && t == s[|s| - |t|..] && |r| <= |t| && r == t[..|r|]
    requires forall k | 0 <= k < |s| - |t| :: IsWhitespace(s[k])
    requires forall k | |r| <= k < |t| :: IsWhitespace(t[k])
    ensures OccursAt(s, r, |s| - |t|)
    ensures IsBlank(s[..|s| - |t|]) && IsBlank(s[|s| - |t| + |r|..])
  {
    var i := |s| - |t|;
    var w := s[i..i + |r|];
    forall k | 0 <= k < |r| ensures w[k] == r[k] {
      assert w[k] == s[i + k] == t[k] == t[..|r|][k];
    }
    assert w == r;
  }

  /** A string trims to nothing exactly when it is blank. */
  lemma TrimEmptyIffBlank(s: string)
    ensures Trim(s) == [] <==> IsBlank(s)
  {
    var t := TrimStart(s);
    if Trim(s) == [] {
      assert t == [];
    } else {
      var r := Trim(s);
      assert !IsWhitespace(r[0]);
      assert r[0] == s[|s| - |t|];
    }
  }

  predicate OccursAt(s: string, pat: string, i: int) {
    0 <= i && i + |pat| <= |s| && s[i..i + |pat|] == pat
  }

  /** Ruby `include?`, Swift `contains`: `pat` is a substring of `s`. */
  predicate Contains(s: string, pat: string) {
    exists i | 0 <= i <= |s| - |pat| :: OccursAt(s, pat, i)
  }

  function Repeat(c: char, n: nat): (r: string)
    ensures |r| == n && forall i | 0 <= i < n :: r[i] == c
  {
    if n == 0 then [] else [c] + Repeat(c, n - 1)
  }

  predicate IsDigit(c: char) { '0' <= c <= '9' }

  predicate AllDigits(s: string) { forall i | 0 <= i < |s| :: IsDigit(s[i]) }

  function DigitChar(d: nat): (c: char)
    requires d < 10
    ensures IsDigit(c)
  {
    "0123456789"[d]
  }

  function DigitValue(c: char): nat
    requires IsDigit(c)
  {
    (c - '0') as nat
  }

  /** The value of a string of decimal digits, read most significant digit first. */
  function DecimalValue(s: string): nat
    requires AllDigits(s)
  {
    if s == [] then 0 else DecimalValue(s[..|s| - 1]) * 10 + DigitValue(s[|s| - 1])
  }

  /** Ruby `to_s` / Swift `%d` on a non-negative integer. */
  function Digits(n: nat): (r: string)
    ensures |r| >= 1 && AllDigits(r)
  {
    if n < 10 then [DigitChar(n)] else Digits(n / 10) + [DigitChar(n % 10)]
  }

  lemma {:induction false} DigitsRoundTrip(n: nat)
    ensures DecimalValue(Digits(n)) == n
  {
    if n >= 10 {
      DigitsRoundTrip(n / 10);
      var d := Digits(n);
      assert d[..|d| - 1] == Digits(n / 10);
    }
  }

  function Pow10(k: nat): (p: nat)
    ensures p >= 1
  {
    if k == 0 then 1 else 10 * Pow10(k - 1)
  }

  lemma {:induction false} DigitsLength(n: nat, k: nat)
    requires k >= 1 && n < Pow10(k)
    ensures |Digits(n)| <= k
  {
    if n >= 10 {
      assert Pow10(1) == 10;
      assert k >= 2;
      assert n / 10 < Pow10(k - 1);
      DigitsLength(n / 10, k - 1);
    }
  }

  /** A leading zero does not change the value of a digit string. */
  lemma {:induction false} LeadingZero(t: string)
    requires AllDigits(t)
    ensures AllDigits("0" + t) && DecimalValue("0" + t) == DecimalValue(t)
  {
    var u := "0" + t;
    if t != [] {
      assert u[..|u| - 1] == "0" + t[..|t| - 1];
      LeadingZero(t[..|t| - 1]);
    } else {
      assert DecimalValue(u[..|u| - 1]) == 0;
    }
  }

  /** `d` left-padded with zeros to at least `width` characters. */
  function PadZeros(d: string, width: nat): (r: string)
    requires AllDigits(d)
    ensures AllDigits(r) && DecimalValue(r) == DecimalValue(d)
    ensures |r| == if |d| < width then width else |d|
    decreases width
  {
    if |d| >= width then d
    else
      var t := PadZeros(d, width - 1);
      LeadingZero(t);
      "0" + t
  }

  /** Ruby `n.to_s.rjust(width, '0')` and Swift `String(format: "%0<width>d", n)` for n >= 0:
    * the decimal digits of `n`, left-padded with zeros to at least `width` characters,
    * never truncated. */
  function ZeroPad(n: nat, width: nat): (r: string)
    ensures AllDigits(r)
    ensures |r| >= width && (|Digits(n)| <= width ==> |r| == width)
    ensures DecimalValue(r) == n
  {
    DigitsRoundTrip(n);
    PadZeros(Digits(n), width)
  }

  /** Swift `replacingOccurrences(of: pat, with: rep)`: a single left-to-right pass replacing
    * non-overlapping occurrences. */
  function ReplaceAll(s: string, pat: string, rep: string): string
    requires |pat| > 0
    decreases |s|
  {
    if |s| == 0 then []
    else if |pat| <= |s| && s[..|pat|] == pat then rep + ReplaceAll(s[|pat|..], pat, rep)
    else [s[0]] + ReplaceAll(s[1..], pat, rep)
  }

  /** ASCII case folding, the part of `lowercased()` the model captures. */
  function LowerChar(c: char): char {
    if 'A' <= c <= 'Z' then (c as int + 32) as char else c
  }

  function Lower(s: string): (r: string)
    ensures |r| == |s| && forall i | 0 <= i < |s| :: r[i] == LowerChar(s[i])
  {
    seq(|s|, i requires 0 <= i < |s| => LowerChar(s[i]))
  }

  predicate IsAsciiLetter(c: char) { ('A' <= c <= 'Z') || ('a' <= c <= 'z') }
}
