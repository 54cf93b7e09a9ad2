/** The two pieces of text processing both implementations share, and what they mean. */
module Text {

  /** Replaces every occurrence of `pattern`, scanning left to right without overlap. */
  function ReplaceAll(s: string, pattern: string, replacement: string): string
    requires pattern != []
  {
    if |s| < |pattern| then s
    else if s[..|pattern|] == pattern then replacement + ReplaceAll(s[|pattern|..], pattern, replacement)
    else [s[0]] + ReplaceAll(s[1..], pattern, replacement)
  }

  predicate OccursAt(s: string, pattern: string, k: int) {
    0 <= k && k + |pattern| <= |s| && s[k..k + |pattern|] == pattern
  }

  /** The pieces of `s` between the occurrences of `pattern`, each occurrence the first one after the
      end of the one before. */
  ghost predicate AreBetween(pieces: seq<string>, s: string, pattern: string)
    decreases |pieces|
  {
    && pieces != []
    && var k := |pieces[0]|;
    && pieces[0] <= s
    && (forall j :: 0 <= j < k ==> !OccursAt(s, pattern, j))
    && if |pieces| == 1 then k == |s| && !OccursAt(s, pattern, k)
       else OccursAt(s, pattern, k) && AreBetween(pieces[1..], s[k + |pattern|..], pattern)
  }

  function Join(pieces: seq<string>, separator: string): string {
    if pieces == [] then ""
    else if |pieces| == 1 then pieces[0]
    else pieces[0] + separator + Join(pieces[1..], separator)
  }

  /** The replacement stands exactly where the left-to-right occurrences of the pattern stood, and
      everything between them is kept. */
  lemma {:induction false} ReplaceAllJoins(s: string, pattern: string, replacement: string) returns (pieces: seq<string>)
    requires pattern != []
    ensures AreBetween(pieces, s, pattern) && Join(pieces, replacement) == ReplaceAll(s, pattern, replacement)
    decreases |s|
  {
    if |s| < |pattern| {
      pieces := [s];
    } else if s[..|pattern|] == pattern {
      var rest := ReplaceAllJoins(s[|pattern|..], pattern, replacement);
      pieces := [""] + rest;
      EmptyBefore(s, pattern, rest);
      JoinEmptyFirst(rest, replacement);
    } else {
      var rest := ReplaceAllJoins(s[1..], pattern, replacement);
      pieces := [[s[0]] + rest[0]] + rest[1..];
      assert !OccursAt(s, pattern, 0);
      OneMoreBefore(s, pattern, rest);
      JoinOneMore(s[0], rest, replacement);
    }
  }

  /** An occurrence right at the start has an empty piece before it. */
  lemma EmptyBefore(s: string, pattern: string, rest: seq<string>)
    requires OccursAt(s, pattern, 0) && AreBetween(rest, s[|pattern|..], pattern)
    ensures AreBetween([""] + rest, s, pattern)
  {
    var pieces := [""] + rest;
    assert pieces[0] == "" && |pieces| > 1;
    assert pieces[1..] == rest;
    assert s[|pieces[0]| + |pattern|..] == s[|pattern|..];
  }

  lemma JoinEmptyFirst(rest: seq<string>, separator: string)
    requires rest != []
    ensures Join([""] + rest, separator) == separator + Join(rest, separator)
  {
    var pieces := [""] + rest;
    assert pieces[1..] == rest;
    assert "" + separator == separator;
  }

  lemma JoinOneMore(c: char, rest: seq<string>, separator: string)
    requires rest != []
    ensures Join([[c] + rest[0]] + rest[1..], separator) == [c] + Join(rest, separator)
  {
    var pieces := [[c] + rest[0]] + rest[1..];
    assert pieces[1..] == rest[1..];
    if |rest| > 1 { assert [c] + rest[0] + separator + Join(rest[1..], separator) == [c] + (rest[0] + separator + Join(rest[1..], separator)); }
  }

  lemma OccursShifted(s: string, pattern: string, j: nat)
    requires s != ""
    ensures OccursAt(s, pattern, j + 1) <==> OccursAt(s[1..], pattern, j)
  {
    if j + 1 + |pattern| <= |s| { assert s[1..][j..j + |pattern|] == s[j + 1..j + 1 + |pattern|]; }
  }

  /** A character in front that starts no occurrence joins the first piece. */
  lemma OneMoreBefore(s: string, pattern: string, rest: seq<string>)
    requires s != "" && pattern != [] && !OccursAt(s, pattern, 0) && AreBetween(rest, s[1..], pattern)
    ensures AreBetween([[s[0]] + rest[0]] + rest[1..], s, pattern)
  {
    var pieces, k := [[s[0]] + rest[0]] + rest[1..], |rest[0]|;
    assert pieces[1..] == rest[1..] && pieces[0] == [s[0]] + rest[0];
    NoneUpToShifted(s, pattern, k);
    OccursShifted(s, pattern, k);
    assert s == [s[0]] + s[1..];
    if |rest| > 1 { assert s[1..][k + |pattern|..] == s[k + 1 + |pattern|..]; }
  }

  lemma NoneUpToShifted(s: string, pattern: string, k: nat)
    requires s != "" && !OccursAt(s, pattern, 0) && forall j :: 0 <= j < k ==> !OccursAt(s[1..], pattern, j)
    ensures forall j :: 0 <= j < k + 1 ==> !OccursAt(s, pattern, j)
  {
    forall j | 0 <= j < k + 1 ensures !OccursAt(s, pattern, j) {
      if j > 0 { OccursShifted(s, pattern, j - 1); }
    }
  }

  /** A text has one such list of pieces, so this decides the replacement. */
  lemma {:induction false} BetweenIsUnique(a: seq<string>, b: seq<string>, s: string, pattern: string)
    requires pattern != [] && AreBetween(a, s, pattern) && AreBetween(b, s, pattern)
    ensures a == b
    decreases |a|
  {
    var j, k := |a[0]|, |b[0]|;
    assert j == k && a[0] == s[..j] && b[0] == s[..k];
    if |a| > 1 && |b| > 1 {
      BetweenIsUnique(a[1..], b[1..], s[k + |pattern|..], pattern);
      assert a == [a[0]] + a[1..] && b == [b[0]] + b[1..];
    }
  }

  lemma ReplaceAllIs(s: string, pattern: string, replacement: string, pieces: seq<string>)
    requires pattern != [] && AreBetween(pieces, s, pattern)
    ensures ReplaceAll(s, pattern, replacement) == Join(pieces, replacement)
  {
    var own := ReplaceAllJoins(s, pattern, replacement);
    BetweenIsUnique(own, pieces, s, pattern);
  }

  function Digit(n: nat): char
    requires n < 10
  {
    "0123456789"[n]
  }

  /** The decimal rendering of a natural number. */
  function Decimal(n: nat): string {
    if n < 10 then [Digit(n)] else Decimal(n / 10) + [Digit(n % 10)]
  }

  /** The number a text of digits denotes, from the codes of its characters. */
  function ValueOf(s: string): int {
    if s == "" then 0 else 10 * ValueOf(s[..|s| - 1]) + (s[|s| - 1] as int - '0' as int)
  }

  /** The text is the number in decimal: digits only, denoting it, and no leading zero. */
  predicate IsNumeral(s: string, n: int) {
    && s != ""
    && (forall i :: 0 <= i < |s| ==> '0' <= s[i] <= '9')
    && ValueOf(s) == n
    && (s[0] == '0' ==> n == 0 && |s| == 1)
  }

  /** Reading the rendering back gives the number. */
  lemma {:induction false} DecimalReadsBack(n: nat)
    ensures IsNumeral(Decimal(n), n)
  {
    var s := Decimal(n);
    DigitCode(n % 10);
    if n < 10 {
      assert s[..|s| - 1] == "";
    } else {
      DecimalReadsBack(n / 10);
      assert s[..|s| - 1] == Decimal(n / 10);
    }
  }

  lemma DigitCode(n: nat)
    requires n < 10
    ensures Digit(n) as int == '0' as int + n
  {
    var digits := "0123456789";
    assert digits[0] == '0' && digits[1] == '1' && digits[2] == '2' && digits[3] == '3' && digits[4] == '4';
    assert digits[5] == '5' && digits[6] == '6' && digits[7] == '7' && digits[8] == '8' && digits[9] == '9';
  }

  lemma {:induction false} ValueNotNegative(s: string)
    requires forall i :: 0 <= i < |s| ==> '0' <= s[i] <= '9'
    ensures ValueOf(s) >= 0 && (s != "" && s[0] != '0' ==> ValueOf(s) > 0)
  {
    if s != "" { ValueNotNegative(s[..|s| - 1]); }
  }

  lemma SameDigits(a: int, c: int, b: int, d: int)
    requires 10 * a + c == 10 * b + d && 0 <= c <= 9 && 0 <= d <= 9
    ensures a == b && c == d
  {}

  /** There is one numeral of each number. */
  lemma {:induction false} NumeralIsUnique(s: string, t: string, n: int)
    requires IsNumeral(s, n) && IsNumeral(t, n)
    ensures s == t
    decreases |s|
  {
    var a, b := s[..|s| - 1], t[..|t| - 1];
    ValueNotNegative(a);
    ValueNotNegative(b);
    var c, d := s[|s| - 1] as int - '0' as int, t[|t| - 1] as int - '0' as int;
    SameDigits(ValueOf(a), c, ValueOf(b), d);
    if a != "" && b != "" {
      NumeralIsUnique(a, b, ValueOf(a));
    }
    assert s == a + [s[|s| - 1]] && t == b + [t[|t| - 1]];
  }

  lemma DecimalInjective(m: nat, n: nat)
    requires Decimal(m) == Decimal(n)
    ensures m == n
  {
    DecimalReadsBack(m);
    DecimalReadsBack(n);
  }

  lemma DecimalIs(text: string, n: nat)
    requires IsNumeral(text, n)
    ensures Decimal(n) == text
  {
    DecimalReadsBack(n);
    NumeralIsUnique(Decimal(n), text, n);
  }
}
