/**
 Character classes, maximal runs and decimal numerals: the few regular expressions that the
 path, field-path and expression grammars are made of.
 */
module Text {

  // ----- Code units -----

  /**
   Characters stand for UTF-16 code units. A char cannot hold half of a surrogate pair, so the unit u
   of such a half is written as the character U+100000 + u.
   */
  function Unit(c: char): int {
    if IsHighSurrogate(c) || IsLowSurrogate(c) then c as int - 0x100000 else c as int
  }

  predicate IsHighSurrogate(c: char) {
    '\U{10D800}' <= c <= '\U{10DBFF}'
  }

  predicate IsLowSurrogate(c: char) {
    '\U{10DC00}' <= c <= '\U{10DFFF}'
  }

  /** Well-formed UTF-16: surrogates come in pairs only. */
  predicate IsWellFormed(s: string) {
    forall i :: 0 <= i < |s| ==>
      && (IsHighSurrogate(s[i]) ==> i + 1 < |s| && IsLowSurrogate(s[i + 1]))
      && (IsLowSurrogate(s[i]) ==> 0 < i && IsHighSurrogate(s[i - 1]))
  }

  // ----- Character classes -----

  predicate IsDigit(c: char) {
    '0' <= c <= '9'
  }

  predicate IsWordStart(c: char) {
    'A' <= c <= 'Z' || 'a' <= c <= 'z' || c == '_'
  }

  predicate IsWordPart(c: char) {
    IsWordStart(c) || IsDigit(c)
  }

  predicate IsKeyStart(c: char) {
    IsWordStart(c) || c == '$'
  }

  /** The classes the patterns repeat: [0-9], [A-Za-z0-9_] and [^"]. */
  datatype CharClass = Digit | WordPart | NotQuote

  predicate Matches(c: char, cls: CharClass) {
    match cls
    case Digit => IsDigit(c)
    case WordPart => IsWordPart(c)
    case NotQuote => c != '"'
  }

  /** The characters that JavaScript's \s matches. */
  predicate IsSpace(c: char) {
    || c == ' ' || '\t' <= c <= '\r' || c == '\U{a0}' || c == '\U{1680}'
    || '\U{2000}' <= c <= '\U{200a}' || c == '\U{2028}' || c == '\U{2029}'
    || c == '\U{202f}' || c == '\U{205f}' || c == '\U{3000}' || c == '\U{feff}'
  }

  predicate All(cls: CharClass, s: string) {
    forall i :: 0 <= i < |s| ==> Matches(s[i], cls)
  }

  /** End of the longest run of class characters that starts at i. */
  function RunEnd(cls: CharClass, s: string, i: nat): (end: nat)
    requires i <= |s|
    ensures i <= end <= |s|
    decreases |s| - i
  {
    if i == |s| || !Matches(s[i], cls) then i else RunEnd(cls, s, i + 1)
  }

  lemma {:induction false} RunIsInClass(cls: CharClass, s: string, i: nat)
    requires i <= |s|
    ensures All(cls, s[i..RunEnd(cls, s, i)])
    ensures RunEnd(cls, s, i) < |s| ==> !Matches(s[RunEnd(cls, s, i)], cls)
    decreases |s| - i
  {
    if i < |s| && Matches(s[i], cls) {
      RunIsInClass(cls, s, i + 1);
      var end := RunEnd(cls, s, i);
      assert s[i..end] == [s[i]] + s[i + 1..end];
    }
  }

  /** The run is the only maximal one. */
  lemma {:induction false} RunEndsAt(cls: CharClass, s: string, i: nat, end: nat)
    requires i <= end <= |s|
    requires forall k :: i <= k < end ==> Matches(s[k], cls)
    requires end == |s| || !Matches(s[end], cls)
    ensures RunEnd(cls, s, i) == end
    decreases end - i
  {
    if i < end {
      RunEndsAt(cls, s, i + 1, end);
    }
  }

  /** indexOf(c, i): the first position of c at or after i, |s| when there is none. */
  function Find(c: char, s: string, i: nat): (r: nat)
    requires i <= |s|
    ensures i <= r <= |s|
    ensures r < |s| ==> s[r] == c
    decreases |s| - i
  {
    if i == |s| || s[i] == c then i else Find(c, s, i + 1)
  }

  lemma {:induction false} FindSkips(c: char, s: string, i: nat)
    requires i <= |s|
    ensures forall k :: i <= k < Find(c, s, i) ==> s[k] != c
    decreases |s| - i
  {
    if i < |s| && s[i] != c {
      FindSkips(c, s, i + 1);
    }
  }

  lemma {:induction false} FindIsFirst(c: char, s: string, i: nat, r: nat)
    requires i <= r <= |s| && (r == |s| || s[r] == c)
    requires forall k :: i <= k < r ==> s[k] != c
    ensures Find(c, s, i) == r
    decreases r - i
  {
    if i < r {
      FindIsFirst(c, s, i + 1, r);
    }
  }

  // ----- [A-Za-z_$][A-Za-z0-9_]* -----

  predicate IsIdentifier(s: string) {
    s != "" && IsKeyStart(s[0]) && forall i :: 1 <= i < |s| ==> IsWordPart(s[i])
  }

  /** End of the identifier at i; i itself when there is none. */
  function KeyEnd(s: string, i: nat): (end: nat)
    requires i <= |s|
    ensures i <= end <= |s|
  {
    if i == |s| || !IsKeyStart(s[i]) then i else RunEnd(WordPart, s, i + 1)
  }

  lemma KeyIsIdentifier(s: string, i: nat)
    requires i < |s| && i < KeyEnd(s, i)
    ensures IsIdentifier(s[i..KeyEnd(s, i)])
  {
    var end := KeyEnd(s, i);
    RunIsInClass(WordPart, s, i + 1);
    var key, run := s[i..end], s[i + 1..end];
    assert forall k :: 1 <= k < |key| ==> key[k] == run[k - 1];
  }

  lemma KeyEndsAt(s: string, i: nat, end: nat)
    requires i < end <= |s| && IsIdentifier(s[i..end])
    requires end == |s| || !IsWordPart(s[end])
    ensures KeyEnd(s, i) == end
  {
    var key := s[i..end];
    assert s[i] == key[0];
    assert forall k :: i + 1 <= k < end ==> s[k] == key[k - i];
    RunEndsAt(WordPart, s, i + 1, end);
  }

  // ----- \[([0-9]+)\] -----

  predicate IsNumeral(s: string) {
    s != "" && All(Digit, s)
  }

  /** End of the bracketed numeral at i; i itself when there is none. */
  function IndexEnd(s: string, i: nat): (end: nat)
    requires i <= |s|
    ensures i <= end <= |s|
    ensures i < end ==> i + 3 <= end && IsNumeral(s[i + 1..end - 1])
  {
    if i == |s| || s[i] != '[' then i
    else
      var close := RunEnd(Digit, s, i + 1);
      RunIsInClass(Digit, s, i + 1);
      if i + 1 < close < |s| && s[close] == ']' then close + 1 else i
  }

  lemma IndexEndsAt(s: string, i: nat, end: nat)
    requires i + 3 <= end <= |s| && s[i] == '[' && s[end - 1] == ']' && IsNumeral(s[i + 1..end - 1])
    ensures IndexEnd(s, i) == end
  {
    var digits := s[i + 1..end - 1];
    assert forall k :: i + 1 <= k < end - 1 ==> s[k] == digits[k - i - 1];
    RunEndsAt(Digit, s, i + 1, end - 1);
  }

  // ----- \["([^"]+)"\] -----

  predicate IsQuotable(s: string) {
    s != "" && All(NotQuote, s)
  }

  /** End of the bracketed quoted key at i; i itself when there is none. */
  function QuotedEnd(s: string, i: nat): (end: nat)
    requires i <= |s|
    ensures i <= end <= |s|
    ensures i < end ==> i + 5 <= end
  {
    if |s| < i + 2 || s[i] != '[' || s[i + 1] != '"' then i
    else
      var close := RunEnd(NotQuote, s, i + 2);
      if i + 2 < close < |s| - 1 && s[close + 1] == ']' then close + 2 else i
  }

  lemma QuotedIsQuotable(s: string, i: nat)
    requires i < |s| && i < QuotedEnd(s, i)
    ensures var end := QuotedEnd(s, i);
            && IsQuotable(s[i + 2..end - 2])
            && s[i] == '[' && s[i + 1] == '"' && s[end - 2] == '"' && s[end - 1] == ']'
  {
    RunIsInClass(NotQuote, s, i + 2);
  }

  lemma QuotedEndsAt(s: string, i: nat, end: nat)
    requires i + 5 <= end <= |s| && IsQuotable(s[i + 2..end - 2])
    requires s[i] == '[' && s[i + 1] == '"' && s[end - 2] == '"' && s[end - 1] == ']'
    ensures QuotedEnd(s, i) == end
  {
    var name := s[i + 2..end - 2];
    assert forall k :: i + 2 <= k < end - 2 ==> s[k] == name[k - i - 2];
    RunEndsAt(NotQuote, s, i + 2, end - 2);
  }

  // ----- \[\*\] -----

  predicate StarAt(s: string, i: nat) {
    i + 3 <= |s| && s[i] == '[' && s[i + 1] == '*' && s[i + 2] == ']'
  }

  // ----- Decimal numerals -----

  function DigitValue(c: char): (d: nat)
    requires IsDigit(c)
    ensures d < 10
  {
    c as int - '0' as int
  }

  function DigitChar(d: nat): (c: char)
    requires d < 10
    ensures IsDigit(c) && DigitValue(c) == d
  {
    ('0' as int + d) as char
  }

  /** Number(digits): leading zeros are allowed. */
  function NumeralValue(s: string): nat
    requires All(Digit, s)
  {
    if s == "" then 0 else 10 * NumeralValue(s[..|s| - 1]) + DigitValue(s[|s| - 1])
  }

  /** String(n). */
  function Numeral(n: nat): (s: string)
    ensures IsNumeral(s)
    ensures s[0] == '0' ==> s == "0"
    ensures NumeralValue(s) == n
  {
    if n < 10 then
      assert [DigitChar(n)][..0] == "";
      [DigitChar(n)]
    else
      var s := Numeral(n / 10);
      assert (s + [DigitChar(n % 10)])[..|s|] == s;
      s + [DigitChar(n % 10)]
  }

  lemma NumeralStep(n: nat, d: nat)
    requires 0 < n && d < 10
    ensures Numeral(10 * n + d) == Numeral(n) + [DigitChar(d)]
  {
    assert (10 * n + d) / 10 == n && (10 * n + d) % 10 == d;
  }

  /** Appending a digit to a numeral without leading zeros. */
  lemma NumeralOfAppended(front: string, d: char)
    requires All(Digit, front) && IsDigit(d) && 0 < NumeralValue(front)
    ensures All(Digit, front + [d])
    ensures Numeral(NumeralValue(front + [d])) == Numeral(NumeralValue(front)) + [d]
  {
    hide Numeral;
    var s := front + [d];
    assert s[..|s| - 1] == front && s[|s| - 1] == d;
    assert NumeralValue(s) == 10 * NumeralValue(front) + DigitValue(d);
    NumeralStep(NumeralValue(front), DigitValue(d));
    assert DigitChar(DigitValue(d)) == d;
  }

  /** The printed numeral is the shortest spelling of its value; only leading zeros are lost. */
  lemma {:induction false} NumeralIsShortest(s: string)
    requires IsNumeral(s)
    ensures |Numeral(NumeralValue(s))| <= |s|
    ensures |Numeral(NumeralValue(s))| == |s| ==> Numeral(NumeralValue(s)) == s
    ensures Numeral(NumeralValue(s)) == s <==> (s[0] == '0' ==> |s| == 1)
  {
    if |s| == 1 {
      assert s == [s[0]];
    } else {
      var front, d := s[..|s| - 1], s[|s| - 1];
      assert s == front + [d];
      NumeralIsShortest(front);
      NumeralPositive(front);
      if NumeralValue(front) == 0 {
      } else {
        NumeralOfAppended(front, d);
        AppendMatches(Numeral(NumeralValue(front)), front, d);
      }
    }
  }

  lemma AppendMatches(a: string, b: string, d: char)
    ensures a + [d] == b + [d] <==> a == b
  {
    if a + [d] == b + [d] {
      assert a == (a + [d])[..|a|] && b == (b + [d])[..|b|];
    }
  }

  lemma {:induction false} NumeralPositive(s: string)
    requires IsNumeral(s)
    ensures s[0] != '0' ==> 0 < NumeralValue(s)
  {
    if 1 < |s| {
      NumeralPositive(s[..|s| - 1]);
    }
  }
}
