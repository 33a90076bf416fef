/**
 * The server's content validator (ContentFilters::ValidateService): a post or reply text is
 * refused when it is blank, when it contains one of the NG words, or when it contains something
 * shaped like a phone number, an e-mail address or a postal code. The checks run in that order
 * and the first one that fires decides the error.
 *
 * The three patterns are regular expressions searched anywhere in the text; each is modelled as
 * "there is a position (or a set of positions) where the shape occurs", which is what a
 * backtracking search reports. `\d` and the bracketed classes are ASCII only, while `\b` uses
 * the encoding's notion of a word character, so kana and kanji count as word characters there.
 */
module ContentFilters {
  import opened Wrappers
  import opened Text

  const NgWords: seq<string> := ["死ね", "殺す", "バカ", "アホ"]

  datatype Reason = EmptyContent | NgWordFound | PersonalInfoFound

  /** The `error:` string of the failure hash. */
  function ReasonMessage(r: Reason): (m: string)
    ensures |m| > 0
  {
    match r
    case EmptyContent => "コンテンツが空です"
    case NgWordFound => "不適切な単語が含まれています"
    case PersonalInfoFound => "個人情報が含まれている可能性があります"
  }

  lemma ReasonMessagesDistinct(a: Reason, b: Reason)
    ensures ReasonMessage(a) == ReasonMessage(b) ==> a == b
  {
    if a != b {
      assert ReasonMessage(a)[0] != ReasonMessage(b)[0];
    }
  }

  /** `NG_WORDS.any? { |word| content.include?(word) }`: a case-sensitive substring match. */
  predicate ContainsNgWord(s: string) {
    exists w | w in NgWords :: Contains(s, w)
  }

  /** A word character for `\b`: ASCII letters, digits and `_`, Latin letters, kana, the
    * prolonged sound mark, CJK ideographs and full-width letters and digits. */
  predicate IsWordChar(c: char) {
    IsAsciiLetter(c) || IsDigit(c) || c == '_'
    || ('\U{00C0}' <= c <= '\U{024F}' && c != '\U{00D7}' && c != '\U{00F7}')
    || ('\U{3041}' <= c <= '\U{3096}') || ('\U{30A1}' <= c <= '\U{30FA}') || c == '\U{30FC}'
    || ('\U{3400}' <= c <= '\U{4DBF}') || ('\U{4E00}' <= c <= '\U{9FFF}')
    || ('\U{FF10}' <= c <= '\U{FF19}') || ('\U{FF21}' <= c <= '\U{FF3A}')
    || ('\U{FF41}' <= c <= '\U{FF5A}') || ('\U{FF66}' <= c <= '\U{FF9F}')
  }

  /** `\b` at position `i`: exactly one of the characters either side is a word character. */
  predicate Boundary(s: string, i: int)
    requires 0 <= i <= |s|
  {
    (i > 0 && IsWordChar(s[i - 1])) != (i < |s| && IsWordChar(s[i]))
  }

  /** `\d{n}` at position `i`. */
  predicate DigitsAt(s: string, i: int, n: nat) {
    0 <= i && i + n <= |s| && forall k | i <= k < i + n :: IsDigit(s[k])
  }

  /** `\b\d{3}-\d{4}-\d{4}\b` matching at `i`. */
  predicate PhoneAt(s: string, i: int) {
    0 <= i && i + 13 <= |s| && Boundary(s, i)
    && DigitsAt(s, i, 3) && s[i + 3] == '-' && DigitsAt(s, i + 4, 4) && s[i + 8] == '-'
    && DigitsAt(s, i + 9, 4) && Boundary(s, i + 13)
  }

  /** `\b\d{3}-\d{4}\b` matching at `i`. */
  predicate PostalAt(s: string, i: int) {
    0 <= i && i + 8 <= |s| && Boundary(s, i)
    && DigitsAt(s, i, 3) && s[i + 3] == '-' && DigitsAt(s, i + 4, 4) && Boundary(s, i + 8)
  }

  predicate IsLocalChar(c: char) {
    IsAsciiLetter(c) || IsDigit(c) || c == '.' || c == '_' || c == '%' || c == '+' || c == '-'
  }

  predicate IsDomainChar(c: char) { IsAsciiLetter(c) || IsDigit(c) || c == '.' || c == '-' }

  /** `[A-Z|a-z]`: the `|` inside the brackets is a literal member of the class. */
  predicate IsTldChar(c: char) { IsAsciiLetter(c) || c == '|' }

  /** `\b[A-Za-z0-9._%+-]+@[A-Za-z0-9.-]+\.[A-Z|a-z]{2,}\b` matching `s[a..e]` with the `@` at
    * `at` and the last dot before the top-level part at `dot`. */
  predicate EmailAt(s: string, a: int, at: int, dot: int, e: int) {
    0 <= a < at && at + 1 < dot && dot + 3 <= e <= |s|
    && Boundary(s, a) && Boundary(s, e)
    && (forall k | a <= k < at :: IsLocalChar(s[k]))
    && s[at] == '@'
    && (forall k | at < k < dot :: IsDomainChar(s[k]))
    && s[dot] == '.'
    && (forall k | dot < k < e :: IsTldChar(s[k]))
  }

  predicate ContainsPhone(s: string) { exists i | 0 <= i <= |s| :: PhoneAt(s, i) }

  predicate ContainsPostal(s: string) { exists i | 0 <= i <= |s| :: PostalAt(s, i) }

  predicate ContainsEmail(s: string) {
    exists a, at, dot, e | 0 <= a < at < dot < e <= |s| :: EmailAt(s, a, at, dot, e)
  }

  /** `PERSONAL_INFO_PATTERNS.any? { |pattern| content.match?(pattern) }`. */
  predicate ContainsPersonalInfo(s: string) {
    ContainsPhone(s) || ContainsEmail(s) || ContainsPostal(s)
  }

  /** `ValidateService.call(content:)`; `None` is a nil content, which `blank?` accepts. */
  function Validate(content: Option<string>): (r: Result<(), Reason>)
    ensures r.Success? <==>
      content.Some? && !IsBlank(content.value) && !ContainsNgWord(content.value)
      && !ContainsPersonalInfo(content.value)
    ensures r == Failure(EmptyContent) <==> content.None? || IsBlank(content.value)
    ensures r == Failure(NgWordFound) <==>
      content.Some? && !IsBlank(content.value) && ContainsNgWord(content.value)
    ensures r == Failure(PersonalInfoFound) <==>
      content.Some? && !IsBlank(content.value) && !ContainsNgWord(content.value)
      && ContainsPersonalInfo(content.value)
  {
    match content
    case None => Failure(EmptyContent)
    case Some(s) =>
      if IsBlank(s) then Failure(EmptyContent)
      else if ContainsNgWord(s) then Failure(NgWordFound)
      else if ContainsPersonalInfo(s) then Failure(PersonalInfoFound)
      else Success(())
  }

  /** A phone number standing on its own is refused as personal information. */
  lemma BarePhoneRefused()
    ensures Validate(Some("090-1234-5678")) == Failure(PersonalInfoFound)
  {
    var s := "090-1234-5678";
    assert PhoneAt(s, 0);
    assert !ContainsNgWord(s) by {
      forall w | w in NgWords ensures !Contains(s, w) {
        forall i | 0 <= i <= |s| - |w| ensures !OccursAt(s, w, i) {
          assert s[i] != w[0];
        }
      }
    }
  }

  /** An NG word on its own is refused as such. */
  lemma BareNgWordRefused()
    ensures Validate(Some("バカ")) == Failure(NgWordFound)
  {
    var s := "バカ";
    assert !IsBlank(s) by { assert !IsWhitespace(s[0]); }
    assert ContainsNgWord(s) by {
      assert OccursAt(s, NgWords[2], 0);
      assert Contains(s, NgWords[2]);
    }
  }

  /** With a kana written straight against the digits on both sides there is no `\b`, so the
    * same number inside a Japanese sentence passes the filter. */
  lemma PhoneInsideSentenceAccepted()
    ensures Validate(Some("連絡は090-1234-5678まで")).Success?
  {
    var s := "連絡は090-1234-5678まで";
    assert |s| == 18;
    assert !ContainsNgWord(s) by {
      forall w | w in NgWords ensures !Contains(s, w) {
        forall i | 0 <= i <= |s| - |w| ensures !OccursAt(s, w, i) {
          assert s[i] != w[0];
        }
      }
    }
    forall i | 0 <= i <= |s| ensures !PhoneAt(s, i) && !PostalAt(s, i) {
    }
    assert forall k | 0 <= k < |s| :: s[k] != '@';
    assert !ContainsPhone(s) && !ContainsPostal(s);
    assert !ContainsEmail(s);
    assert !IsBlank(s) by { assert !IsWhitespace(s[0]); }
  }
}
