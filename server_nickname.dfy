/**
 * Utils::NicknameGenerator: a pseudonym made of one adjective, one noun, `#` and a four-digit
 * number between 0001 and 9999. The three random choices are the parameter `Draw`.
 */
module NicknameGenerator {
  import opened Text

  /** `ADJECTIVES`, by index. */
  function Adjective(i: nat): string
    requires i < 10
  {
    match i
    case 0 => "迷える" case 1 => "悩める" case 2 => "恥ずかしがりの" case 3 => "反省中の"
    case 4 => "後悔の" case 5 => "懺悔の" case 6 => "悔いる" case 7 => "内省的な"
    case 8 => "思い出したくない" case _ => "黒歴史の"
  }

  /** `NOUNS`, by index. */
  function Noun(i: nat): string
    requires i < 10
  {
    match i
    case 0 => "子羊" case 1 => "旅人" case 2 => "求道者" case 3 => "悟り人"
    case 4 => "修行僧" case 5 => "巡礼者" case 6 => "懺悔者" case 7 => "反省人"
    case 8 => "後悔人" case _ => "黒歴史持ち"
  }

  /** `ADJECTIVES.sample`, `NOUNS.sample` and `rand(1..9999)`, as indices and a number. */
  datatype Draw = Draw(adjective: nat, noun: nat, number: nat)

  predicate ValidDraw(d: Draw) {
    d.adjective < 10 && d.noun < 10 && 1 <= d.number <= 9999
  }

  predicate NoHash(w: string) { forall i | 0 <= i < |w| :: w[i] != '#' }

  /** The adjective a nickname starts with, recognised by its first character. */
  function AdjectiveIndex(c: char): nat {
    match c
    case '迷' => 0 case '悩' => 1 case '恥' => 2 case '反' => 3 case '後' => 4
    case '懺' => 5 case '悔' => 6 case '内' => 7 case '思' => 8 case _ => 9
  }

  /** The noun that follows the adjective, recognised by its first character. */
  function NounIndex(c: char): nat {
    match c
    case '子' => 0 case '旅' => 1 case '求' => 2 case '悟' => 3 case '修' => 4
    case '巡' => 5 case '懺' => 6 case '反' => 7 case '後' => 8 case _ => 9
  }

  lemma AdjectiveFacts(i: nat)
    requires i < 10
    ensures 3 <= |Adjective(i)| <= 8 && NoHash(Adjective(i))
    ensures AdjectiveIndex(Adjective(i)[0]) == i
  {
  }

  lemma NounFacts(i: nat)
    requires i < 10
    ensures 2 <= |Noun(i)| <= 5 && NoHash(Noun(i))
    ensures NounIndex(Noun(i)[0]) == i
  {
  }

  /** `"#{adjective}#{noun}##{number}"` for any two words and a four-digit number. */
  function Compose(adj: string, noun: string, num: string): (r: string)
    requires |num| == 4 && AllDigits(num)
    ensures |r| == |adj| + |noun| + 5
    ensures r[..|adj|] == adj && r[|adj|..|r| - 5] == noun && r[|r| - 4..] == num
    ensures NoHash(adj) && NoHash(noun) ==> forall i | 0 <= i < |r| :: r[i] == '#' <==> i == |r| - 5
  {
    var r := adj + noun + "#" + num;
    assert r[..|adj|] == adj;
    assert r[|adj|..|r| - 5] == noun;
    assert r[|r| - 4..] == num;
    assert NoHash(adj) && NoHash(noun) ==> forall i | 0 <= i < |r| :: r[i] == '#' <==> i == |r| - 5 by {
      if NoHash(adj) && NoHash(noun) {
        forall i | 0 <= i < |r| ensures r[i] == '#' <==> i == |r| - 5 {
          if i < |adj| {
            assert r[i] == adj[i];
          } else if i < |adj| + |noun| {
            assert r[i] == noun[i - |adj|];
          } else if i > |r| - 5 {
            assert r[i] == num[i - (|r| - 4)];
          }
        }
      }
    }
    r
  }

  /** The nickname for words of the lengths the two lists have and a number in 1..9999. */
  function Format(adj: string, noun: string, number: nat): (r: string)
    requires 3 <= |adj| <= 8 && NoHash(adj) && 2 <= |noun| <= 5 && NoHash(noun)
    requires 1 <= number <= 9999
    ensures 10 <= |r| <= 18 && |r| == |adj| + |noun| + 5
    ensures r[..|adj|] == adj && r[|adj|..|r| - 5] == noun
    ensures forall i | 0 <= i < |r| :: r[i] == '#' <==> i == |r| - 5
    ensures AllDigits(r[|r| - 4..]) && DecimalValue(r[|r| - 4..]) == number
    ensures r[|r| - 4..] != "0000"
  {
    PadToFour(number);
    Compose(adj, noun, ZeroPad(number, 4))
  }

  /** `rand(1..9999).to_s.rjust(4, '0')` is exactly four digits and never `0000`. */
  lemma PadToFour(n: nat)
    requires 1 <= n <= 9999
    ensures |ZeroPad(n, 4)| == 4 && ZeroPad(n, 4) != "0000"
  {
    assert Pow10(4) == 10000;
    DigitsLength(n, 4);
    assert DecimalValue("0") == 0;
    LeadingZero("0");
    assert "0" + "0" == "00";
    LeadingZero("00");
    assert "0" + "00" == "000";
    LeadingZero("000");
    assert "0" + "000" == "0000";
  }

  /** `NicknameGenerator.call`: the drawn adjective, the drawn noun, `#` and the drawn number
    * padded to four digits. */
  function Generate(d: Draw): (r: string)
    requires ValidDraw(d)
    ensures 10 <= |r| <= 18
    ensures forall i | 0 <= i < |r| :: r[i] == '#' <==> i == |r| - 5
    ensures AllDigits(r[|r| - 4..]) && DecimalValue(r[|r| - 4..]) == d.number
  {
    AdjectiveFacts(d.adjective);
    NounFacts(d.noun);
    Format(Adjective(d.adjective), Noun(d.noun), d.number)
  }

  /** Reads a nickname back into the draw that produced it: the adjective from the first
    * character, the noun from the character after the adjective, the number from the last four
    * digits. Strings of any other shape map to an arbitrary draw. */
  function Recover(r: string): (d: Draw)
    ensures d.adjective < 10 && d.noun < 10
  {
    var a := AdjectiveIndex(if |r| > 0 then r[0] else ' ');
    var k := |Adjective(a)|;
    var n := NounIndex(if k < |r| then r[k] else ' ');
    var x := if |r| >= 4 && AllDigits(r[|r| - 4..]) then DecimalValue(r[|r| - 4..]) else 0;
    Draw(a, n, x)
  }

  lemma RecoverShape(r: string, i: nat, j: nat, x: nat)
    requires i < 10 && j < 10
    requires |r| == |Adjective(i)| + |Noun(j)| + 5
    requires r[..|Adjective(i)|] == Adjective(i) && r[|Adjective(i)|..|r| - 5] == Noun(j)
    requires AllDigits(r[|r| - 4..]) && DecimalValue(r[|r| - 4..]) == x
    ensures Recover(r) == Draw(i, j, x)
  {
    AdjectiveFacts(i);
    NounFacts(j);
    assert r[0] == r[..|Adjective(i)|][0];
    assert r[|Adjective(i)|] == r[|Adjective(i)|..|r| - 5][0];
  }

  /** The nickname keeps the whole draw: reading it back gives the adjective, the noun and the
    * number it was made of. */
  lemma {:induction false} RecoverGenerate(d: Draw)
    requires ValidDraw(d)
    ensures Recover(Generate(d)) == d
  {
    AdjectiveFacts(d.adjective);
    NounFacts(d.noun);
    var r := Format(Adjective(d.adjective), Noun(d.noun), d.number);
    RecoverShape(r, d.adjective, d.noun, d.number);
  }

  /** Different draws give different nicknames. */
  lemma {:induction false} GenerateInjective(d1: Draw, d2: Draw)
    requires ValidDraw(d1) && ValidDraw(d2)
    requires Generate(d1) == Generate(d2)
    ensures d1 == d2
  {
    RecoverGenerate(d1);
    RecoverGenerate(d2);
  }
}
