/**
 * The prototype client's content filter: a length check on the trimmed text (10 to 500
 * characters), a banned-word test over an empty list, a spam test that needs three different
 * patterns, and a sanitiser that trims and shortens runs of three newlines.
 */
module KuyouContentFilter {
  import opened Wrappers
  import opened Text
  import Ordering

  datatype ContentError = TooShort(minLength: nat) | TooLong(maxLength: nat) | InappropriateContent | SpamDetected

  /** The Japanese message each error shows. */
  function ErrorDescription(e: ContentError): (m: string)
    ensures m != []
  {
    match e
    case TooShort(n) => "投稿は" + Digits(n) + "文字以上で入力してください"
    case TooLong(n) => "投稿は" + Digits(n) + "文字以内で入力してください"
    case InappropriateContent => "不適切な内容が含まれています"
    case SpamDetected => "スパムの可能性があります"
  }

  const MinContentLength: nat := 10
  const MaxContentLength: nat := 500

  /** The banned words: the list is empty. */
  const BannedWords: set<string> := {}

  const SpamPatterns: seq<string> := ["http://", "https://", "www.", ".com", "儲かる", "稼げる", "クリック", "今すぐ"]

  /** A case-insensitive substring test. */
  predicate ContainsFolded(content: string, word: string) {
    Contains(Lower(content), Lower(word))
  }

  /** `containsBannedWords`: with an empty list it never fires. */
  function ContainsBannedWords(content: string): (r: bool)
    ensures r <==> exists w | w in BannedWords :: ContainsFolded(content, w)
    ensures !r
  {
    exists w | w in BannedWords :: ContainsFolded(content, w)
  }

  /** The spam patterns found in the content. */
  function SpamHits(content: string): (r: seq<string>)
    ensures forall i | 0 <= i < |r| :: r[i] in SpamPatterns && ContainsFolded(content, r[i])
  {
    var r := Ordering.Filter(SpamPatterns, (p: string) => ContainsFolded(content, p));
    assert forall i | 0 <= i < |r| :: r[i] in SpamPatterns by {
      forall i | 0 <= i < |r| ensures r[i] in SpamPatterns {
        Ordering.FilterMultiset(SpamPatterns, (p: string) => ContainsFolded(content, p), r[i]);
      }
    }
    r
  }

  /** `isSpam`: at least three patterns are present. */
  predicate IsSpam(content: string) {
    |SpamHits(content)| >= 3
  }

  /** The patterns are all different. */
  lemma SpamPatternsDistinct()
    ensures Ordering.Distinct(SpamPatterns)
  {
    var p := SpamPatterns;
    assert p[0][4] == ':' && p[1][4] == 's' && |p[2]| == 4 && |p[3]| == 4 && p[2][0] != p[3][0];
    assert p[4][0] == '儲' && p[5][0] == '稼' && p[6][0] == 'ク' && p[7][0] == '今';
  }

  /** Spam counts patterns, not occurrences: the count is the number of different patterns
    * present, however often each occurs, so no text scores more than eight. */
  lemma {:induction false} SpamCountsPatterns(content: string)
    ensures |SpamHits(content)| == |set p | p in SpamPatterns && ContainsFolded(content, p)|
    ensures |SpamHits(content)| <= |SpamPatterns|
  {
    var f := (p: string) => ContainsFolded(content, p);
    var hits := SpamHits(content);
    SpamPatternsDistinct();
    Ordering.FilterDistinct(SpamPatterns, f);
    Ordering.DistinctCardinality(hits);
    forall p ensures p in hits <==> p in SpamPatterns && ContainsFolded(content, p) {
      Ordering.FilterMultiset(SpamPatterns, f, p);
    }
    assert (set x | x in hits) == set p | p in SpamPatterns && ContainsFolded(content, p);
  }

  /** Three different patterns make spam, and text in which no more than two patterns occur
    * is not spam however often they repeat. */
  lemma SpamThreshold(content: string, i: nat, j: nat, k: nat)
    requires i < j < k < |SpamPatterns|
    ensures (ContainsFolded(content, SpamPatterns[i]) && ContainsFolded(content, SpamPatterns[j])
             && ContainsFolded(content, SpamPatterns[k])) ==> IsSpam(content)
    ensures (forall m | 0 <= m < |SpamPatterns| && m != i && m != j :: !ContainsFolded(content, SpamPatterns[m]))
            ==> !IsSpam(content)
  {
    SpamPatternsDistinct();
    CountBounds(SpamPatterns, (p: string) => ContainsFolded(content, p), i, j, k);
  }

  /** Over distinct patterns, three hits give a count of at least three, and hits confined to
    * two positions give at most two. */
  lemma {:induction false} CountBounds(ps: seq<string>, f: string -> bool, i: nat, j: nat, k: nat)
    requires Ordering.Distinct(ps) && i < j < k < |ps|
    ensures f(ps[i]) && f(ps[j]) && f(ps[k]) ==> |Ordering.Filter(ps, f)| >= 3
    ensures (forall m | 0 <= m < |ps| && m != i && m != j :: !f(ps[m])) ==> |Ordering.Filter(ps, f)| <= 2
  {
    var hits := Ordering.Filter(ps, f);
    Ordering.FilterDistinct(ps, f);
    Ordering.DistinctCardinality(hits);
    var present := set x | x in hits;
    forall x ensures x in present <==> x in ps && f(x) {
      Ordering.FilterMultiset(ps, f, x);
    }
    if f(ps[i]) && f(ps[j]) && f(ps[k]) {
      assert {ps[i], ps[j], ps[k]} <= present;
      assert |{ps[i], ps[j], ps[k]}| == 3;
      Ordering.SubsetCardinality({ps[i], ps[j], ps[k]}, present);
    }
    if forall m | 0 <= m < |ps| && m != i && m != j :: !f(ps[m]) {
      forall x | x in present ensures x in {ps[i], ps[j]} {
        var m :| 0 <= m < |ps| && ps[m] == x;
      }
      Ordering.SubsetCardinality(present, {ps[i], ps[j]});
    }
  }

  /** `validate`: on the trimmed text, too short, then too long, then banned words, then
    * spam; anything else passes. */
  function Validate(content: string): (r: Result<(), ContentError>)
    ensures var t := Trim(content);
      (r == Failure(TooShort(MinContentLength)) <==> |t| < MinContentLength)
      && (r == Failure(TooLong(MaxContentLength)) <==> |t| > MaxContentLength)
      && (r == Failure(SpamDetected) <==> MinContentLength <= |t| <= MaxContentLength && IsSpam(t))
      && (r.Success? <==> MinContentLength <= |t| <= MaxContentLength && !IsSpam(t))
    ensures r != Failure(InappropriateContent)
  {
    var t := Trim(content);
    if |t| < MinContentLength then Failure(TooShort(MinContentLength))
    else if |t| > MaxContentLength then Failure(TooLong(MaxContentLength))
    else if ContainsBannedWords(t) then Failure(InappropriateContent)
    else if IsSpam(t) then Failure(SpamDetected)
    else Success(())
  }

  /** `sanitize`: trim, then one pass replacing "\n\n\n" with "\n\n". */
  function Sanitize(content: string): (r: string)
    ensures r == [] || (!IsWhitespace(r[0]) && !IsWhitespace(r[|r| - 1]))
    ensures |r| <= |Trim(content)|
  {
    var t := Trim(content);
    ReplaceKeepsEnds(t);
    ReplaceAll(t, "\n\n\n", "\n\n")
  }

  /** The replacement never touches a first or last character that is not a newline, and
    * never makes the text longer. */
  lemma {:induction false} ReplaceKeepsEnds(s: string)
    ensures var r := ReplaceAll(s, "\n\n\n", "\n\n");
      |r| <= |s|
      && (s != [] && s[0] != '\n' ==> r != [] && r[0] == s[0])
      && (s != [] && s[|s| - 1] != '\n' ==> r != [] && r[|r| - 1] == s[|s| - 1])
      && (s == [] ==> r == [])
  {
    var pat := "\n\n\n";
    if s != [] {
      if 3 <= |s| && s[..3] == pat {
        var rest := s[3..];
        ReplaceKeepsEnds(rest);
        assert s[2] == '\n';
        if s[|s| - 1] != '\n' {
          assert |s| > 3;
          assert rest[|rest| - 1] == s[|s| - 1];
        }
      } else {
        var rest := s[1..];
        ReplaceKeepsEnds(rest);
        if |s| > 1 {
          assert rest[|rest| - 1] == s[|s| - 1];
        }
      }
    }
  }

  /** A text with no white space at either end trims to itself. */
  lemma TrimClean(s: string)
    requires s == [] || (!IsWhitespace(s[0]) && !IsWhitespace(s[|s| - 1]))
    ensures Trim(s) == s
  {
  }

  /** Sanitised text is already trimmed, so the check that follows it sees exactly the text
    * that is saved. */
  lemma SanitizedIsTrimmed(content: string)
    ensures Trim(Sanitize(content)) == Sanitize(content)
    ensures Validate(Sanitize(content)).Success? ==>
      MinContentLength <= |Sanitize(content)| <= MaxContentLength && !IsSpam(Sanitize(content))
  {
    TrimClean(Sanitize(content));
  }

  /** Sanitising is not idempotent: four newlines between two letters become three, and three
    * become two, so a second pass changes the text again. */
  lemma SanitizeNotIdempotent(x: char, y: char)
    requires !IsWhitespace(x) && !IsWhitespace(y)
    ensures Sanitize([x, '\n', '\n', '\n', '\n', y]) == [x, '\n', '\n', '\n', y]
    ensures Sanitize([x, '\n', '\n', '\n', y]) == [x, '\n', '\n', y]
  {
    var four, three := [x, '\n', '\n', '\n', '\n', y], [x, '\n', '\n', '\n', y];
    SanitizeClean(four);
    SanitizeClean(three);
    ReplaceRuns(x, y);
  }

  /** Text with no white space at either end is only shortened in its newline runs. */
  lemma SanitizeClean(s: string)
    requires s == [] || (!IsWhitespace(s[0]) && !IsWhitespace(s[|s| - 1]))
    ensures Sanitize(s) == ReplaceAll(s, "\n\n\n", "\n\n")
  {
    TrimClean(s);
  }

  /** The single pass on four and on three newlines between two other characters. */
  lemma ReplaceRuns(x: char, y: char)
    requires x != '\n' && y != '\n'
    ensures ReplaceAll([x, '\n', '\n', '\n', '\n', y], "\n\n\n", "\n\n") == [x, '\n', '\n', '\n', y]
    ensures ReplaceAll([x, '\n', '\n', '\n', y], "\n\n\n", "\n\n") == [x, '\n', '\n', y]
  {
    var t1, t2, t3, t4 := [y], ['\n', y], ['\n', '\n', y], ['\n', '\n', '\n', y];
    var t5 := ['\n'] + t4;
    ReplaceKeeps(t1);
    assert ReplaceAll(t1, "\n\n\n", "\n\n") == t1;
    ReplaceKeeps(t2);
    ReplaceKeeps(t3);
    ReplaceRun(t4);
    ReplaceRun(t5);
    ReplaceKeeps([x] + t5);
    ReplaceKeeps([x] + t4);
  }

  /** A text not starting with the run keeps its first character. */
  lemma ReplaceKeeps(s: string)
    requires s != [] && (|s| < 3 || s[0] != '\n' || s[1] != '\n' || s[2] != '\n')
    ensures ReplaceAll(s, "\n\n\n", "\n\n") == [s[0]] + ReplaceAll(s[1..], "\n\n\n", "\n\n")
  {
  }

  /** A text starting with the run has it shortened by one. */
  lemma ReplaceRun(s: string)
    requires |s| >= 3 && s[0] == '\n' && s[1] == '\n' && s[2] == '\n'
    ensures ReplaceAll(s, "\n\n\n", "\n\n") == "\n\n" + ReplaceAll(s[3..], "\n\n\n", "\n\n")
  {
    assert s[..3] == "\n\n\n";
  }
}
