/**
 What the tokenizer (expression.ts) does to any text, said without scanning it: at each position it
 takes the longest stretch that writes a token, whatever stands next to it.
 */
module Lexing {
  import opened Prelude
  import opened Text
  import opened Paths
  import opened Tokens

  predicate IsKeyword(kind: Kind) {
    kind.True? || kind.False? || kind.Null? || kind.Exists?
  }

  /** The text from i up to j writes the token; a keyword has to be a whole word. */
  predicate Stands(s: string, i: nat, j: nat, kind: Kind) {
    && i < j <= |s|
    && Writable(kind) && Writes(s[i..j], kind)
    && (IsKeyword(kind) && j < |s| ==> !IsWordPart(s[j]))
  }

  /** It stands there, and no longer stretch from i writes any token. */
  ghost predicate LongestAt(s: string, i: nat, j: nat, kind: Kind) {
    Stands(s, i, j, kind) && forall k: nat, other: Kind :: j < k ==> !Stands(s, i, k, other)
  }

  ghost predicate NothingStands(s: string, i: nat) {
    forall j: nat, kind: Kind :: !Stands(s, i, j, kind)
  }

  // ----- What stands is read -----

  lemma {:induction false} RunCovers(cls: CharClass, s: string, i: nat, j: nat)
    requires i <= j <= |s| && forall k :: i <= k < j ==> Matches(s[k], cls)
    ensures j <= RunEnd(cls, s, i)
    decreases j - i
  {
    if i < j {
      RunCovers(cls, s, i + 1, j);
    }
  }

  lemma NumeralCovers(s: string, i: nat, j: nat)
    requires i < j <= |s| && IsNumeral(s[i..j])
    ensures j <= RunEnd(Digit, s, i) && IsDigit(s[i])
  {
    assert forall k :: i <= k < j ==> s[k] == s[i..j][k - i];
    RunCovers(Digit, s, i, j);
  }

  lemma UnsignedCovers(s: string, i: nat, j: nat)
    requires i < j <= |s| && IsUnsigned(s[i..j])
    ensures IsDigit(s[i])
    ensures var whole := RunEnd(Digit, s, i);
            j <= whole || (whole < |s| && s[whole] == '.' && whole + 1 < j <= RunEnd(Digit, s, whole + 1))
  {
    if IsNumeral(s[i..j]) {
      NumeralCovers(s, i, j);
    } else {
      var point := PointOf(s, i, j);
      NumeralIsRead(s, i, point);
      NumeralCovers(s, point + 1, j);
    }
  }

  lemma NumberCovers(s: string, i: nat, j: nat)
    requires i < j <= |s| && IsNumber(s[i..j])
    ensures (IsDigit(s[i]) || s[i] == '-') && j <= NumberEnd(s, i)
  {
    assert s[i] == s[i..j][0];
    if s[i] == '-' {
      assert s[i + 1..j] == s[i..j][1..];
      UnsignedCovers(s, i + 1, j);
    } else {
      UnsignedCovers(s, i, j);
    }
  }

  lemma NumberStandsIsRead(s: string, i: nat, j: nat)
    requires i < j <= |s| && IsNumber(s[i..j])
    ensures Scan(s, i) == Read(NumberLit(s[i..NumberEnd(s, i)]), NumberEnd(s, i)) && j <= NumberEnd(s, i)
  {
    NumberCovers(s, i, j);
  }

  lemma KeywordStandsIsRead(s: string, i: nat, j: nat, kind: Kind)
    requires Stands(s, i, j, kind) && IsKeyword(kind)
    ensures Scan(s, i) == Read(kind, j)
  {
    var word := Lexeme(kind);
    assert s[i] == word[0] && IsWordStart(word[0]);
    assert forall k :: 0 <= k < |word| ==> IsWordPart(word[k]);
    assert forall k :: i + 1 <= k < j ==> s[k] == word[k - i];
    RunEndsAt(WordPart, s, i + 1, j);
  }

  lemma StringStandsIsRead(s: string, i: nat, j: nat, text: string)
    requires Stands(s, i, j, StringLit(text))
    ensures Scan(s, i) == Read(StringLit(text), j)
  {
    var written, q := s[i..j], s[i];
    assert written[0] == s[i] && written[|written| - 1] == s[j - 1];
    assert written[1..|written| - 1] == text;
    SliceOfSlice(s, i, j, 1, |written| - 1);
    QuotedTextIsRead(s, i, j, q, text);
  }

  predicate IsSymbol(kind: Kind) {
    !kind.PathLit? && !kind.NumberLit? && !kind.StringLit? && !kind.Eof? && !IsKeyword(kind)
  }

  /** A symbol is read, or the longer one it starts. */
  lemma SymbolStandsIsRead(s: string, i: nat, j: nat, kind: Kind)
    requires Stands(s, i, j, kind) && IsSymbol(kind)
    ensures Scan(s, i) == Read(kind, j) || (Scan(s, i).Read? && j < Scan(s, i).end)
  {
    assert s[i..j][0] == s[i];
    assert j == i + 2 ==> s[i..j][1] == s[i + 1];
  }

  /** Where a token stands one is read, and it is that one or a longer one. */
  lemma StandsIsRead(s: string, i: nat, j: nat, kind: Kind)
    requires Stands(s, i, j, kind)
    ensures Scan(s, i).Read? && j <= Scan(s, i).end && (j == Scan(s, i).end ==> Scan(s, i).kind == kind)
  {
    hide Scan;
    if kind.PathLit? {
      PathIsRead(s, i, j, kind);
    } else if kind.NumberLit? {
      NumberStandsIsRead(s, i, j);
    } else if kind.StringLit? {
      StringStandsIsRead(s, i, j, kind.text);
    } else if IsKeyword(kind) {
      KeywordStandsIsRead(s, i, j, kind);
    } else {
      SymbolStandsIsRead(s, i, j, kind);
    }
  }

  // ----- What is read stands -----

  lemma KeywordEndsItsWord(s: string, i: nat)
    requires i < |s| && Scan(s, i).Read? && IsKeyword(Scan(s, i).kind)
    ensures Scan(s, i).end < |s| ==> !IsWordPart(s[Scan(s, i).end])
  {
    RunIsInClass(WordPart, s, i + 1);
  }

  lemma ReadStands(s: string, i: nat)
    requires i < |s| && Scan(s, i).Read?
    ensures Stands(s, i, Scan(s, i).end, Scan(s, i).kind)
  {
    ReadIsWritten(s, i);
    if IsKeyword(Scan(s, i).kind) {
      KeywordEndsItsWord(s, i);
    }
  }

  /** Both directions, for every text: a token is read exactly where it is the longest that stands. */
  lemma ReadIsLongest(s: string, i: nat, j: nat, kind: Kind)
    requires i < |s|
    ensures Scan(s, i) == Read(kind, j) <==> LongestAt(s, i, j, kind)
  {
    hide Scan, Stands;
    if Scan(s, i) == Read(kind, j) {
      ReadStands(s, i);
      forall k: nat, other: Kind | j < k ensures !Stands(s, i, k, other) {
        if Stands(s, i, k, other) {
          StandsIsRead(s, i, k, other);
        }
      }
    }
    if LongestAt(s, i, j, kind) {
      StandsIsRead(s, i, j, kind);
      ReadStands(s, i);
    }
  }

  lemma SpaceIsSkipped(s: string, i: nat)
    requires i < |s|
    ensures Scan(s, i) == Space <==> IsSpace(s[i])
  {
  }

  /** The tokenizer stops exactly where no token stands and no white space. */
  lemma BadIsNothing(s: string, i: nat)
    requires i < |s|
    ensures Scan(s, i).Bad? <==> !IsSpace(s[i]) && NothingStands(s, i)
  {
    hide Scan, Stands;
    SpaceIsSkipped(s, i);
    if Scan(s, i).Read? {
      ReadStands(s, i);
    } else if Scan(s, i).Bad? {
      forall j: nat, kind: Kind ensures !Stands(s, i, j, kind) {
        if Stands(s, i, j, kind) {
          StandsIsRead(s, i, j, kind);
        }
      }
    }
  }

  /** What the error says about the text at i. */
  lemma ProblemMeaning(s: string, i: nat)
    requires i < |s| && Scan(s, i).Bad?
    ensures var problem, c := Scan(s, i).problem, s[i];
            var second := if i + 1 < |s| then s[i + 1] else ' ';
            && (problem.RegexUnsupported? <==> c == '=' && second == '~')
            && (problem.UnterminatedString? <==> (c == '"' || c == '\'') && c !in s[i + 1..])
            && (problem.UnterminatedPath? <==> c == '{' && second == '$' && '}' !in s[i..])
            && (problem.InvalidNumber? <==> IsDigit(c) || c == '-')
            && (problem == UnexpectedChar(c) || !problem.UnexpectedChar?)
  {
    if IsQuote(s[i]) {
      FindInRest(s[i], s, i + 1);
    } else if s[i] == '{' && i + 1 < |s| && s[i + 1] == '$' {
      FindInRest('}', s, i + 2);
      assert s[i..] == [s[i], s[i + 1]] + s[i + 2..];
    }
  }

  predicate IsQuote(c: char) {
    c == '"' || c == '\''
  }

  lemma FindInRest(c: char, s: string, i: nat)
    requires i <= |s|
    ensures Find(c, s, i) == |s| <==> c !in s[i..]
  {
    FindSkips(c, s, i);
    if Find(c, s, i) < |s| {
      assert s[i..][Find(c, s, i) - i] == c;
    }
  }

  // ----- Whole texts -----

  /** From i on, s is these tokens, each the longest that stands where it starts, with white space around. */
  ghost predicate IsLexed(s: string, i: nat, tokens: seq<Token>)
    requires i <= |s|
    decreases |tokens|
  {
    if |tokens| <= 1 then
      tokens == [Token(Eof, |s|)] && AllSpace(s, i, |s|)
    else
      var start := tokens[0].start;
      && i <= start < |s| && AllSpace(s, i, start) && !IsSpace(s[start])
      && exists end :: start < end <= |s| && LongestAt(s, start, end, tokens[0].kind) && IsLexed(s, end, tokens[1..])
  }

  lemma {:induction false} SpaceIsNoToken(s: string, i: nat, j: nat)
    requires i <= j <= |s| && AllSpace(s, i, j)
    ensures TokensFrom(s, i) == TokensFrom(s, j)
    decreases j - i
  {
    if i < j {
      SpaceIsNoToken(s, i + 1, j);
      SpaceIsSkipped(s, i);
    }
  }

  lemma SpaceBeforeLexed(s: string, i: nat, tokens: seq<Token>)
    requires i < |s| && IsSpace(s[i]) && IsLexed(s, i + 1, tokens)
    ensures IsLexed(s, i, tokens)
  {
    hide LongestAt;
  }

  lemma {:induction false} TokensAreLexed(s: string, i: nat)
    requires i <= |s| && TokensFrom(s, i).Ok?
    ensures TokensFrom(s, i).value != [] && IsLexed(s, i, TokensFrom(s, i).value)
    decreases |s| - i
  {
    hide Scan, LongestAt;
    if i < |s| {
      SpaceIsSkipped(s, i);
      match Scan(s, i)
      case Space =>
        TokensAreLexed(s, i + 1);
        SpaceBeforeLexed(s, i, TokensFrom(s, i + 1).value);
      case Read(kind, end) =>
        TokensAreLexed(s, end);
        ReadIsLongest(s, i, end, kind);
        var rest := TokensFrom(s, end).value;
        assert ([Token(kind, i)] + rest)[1..] == rest;
    }
  }

  lemma {:induction false} LexedAreTokens(s: string, i: nat, tokens: seq<Token>)
    requires i <= |s| && IsLexed(s, i, tokens)
    ensures TokensFrom(s, i) == Ok(tokens)
    decreases |tokens|
  {
    hide Scan, LongestAt;
    if |tokens| <= 1 {
      SpaceIsNoToken(s, i, |s|);
    } else {
      var start, kind := tokens[0].start, tokens[0].kind;
      var end :| start < end <= |s| && LongestAt(s, start, end, kind) && IsLexed(s, end, tokens[1..]);
      LexedAreTokens(s, end, tokens[1..]);
      SpaceIsNoToken(s, i, start);
      ReadIsLongest(s, start, end, kind);
      assert tokens == [Token(kind, start)] + tokens[1..];
    }
  }

  /** For every text: tokenizing succeeds with these tokens if and only if they are its longest-match cover. */
  lemma TokenizedExactlyWhenLexed(s: string, tokens: seq<Token>)
    ensures TokensFrom(s, 0) == Ok(tokens) <==> IsLexed(s, 0, tokens)
  {
    if TokensFrom(s, 0) == Ok(tokens) {
      TokensAreLexed(s, 0);
    }
    if IsLexed(s, 0, tokens) {
      LexedAreTokens(s, 0, tokens);
    }
  }

  /** So it fails if and only if there is no such cover. */
  lemma FailsExactlyWithoutCover(s: string)
    ensures TokensFrom(s, 0).Err? <==> forall tokens :: !IsLexed(s, 0, tokens)
  {
    if TokensFrom(s, 0).Ok? {
      TokenizedExactlyWhenLexed(s, TokensFrom(s, 0).value);
    } else {
      forall tokens ensures !IsLexed(s, 0, tokens) {
        TokenizedExactlyWhenLexed(s, tokens);
      }
    }
  }

  /** White space and longest tokens lead from i to position. */
  ghost predicate LeadsTo(s: string, i: nat, position: nat)
    requires i <= |s|
    decreases |s| - i
  {
    || i == position
    || (i < |s| && IsSpace(s[i]) && LeadsTo(s, i + 1, position))
    || (i < |s| && exists end, kind :: i < end <= |s| && LongestAt(s, i, end, kind) && LeadsTo(s, end, position))
  }

  /** A tokenizing error stands at the first position that is reached and where nothing can be read. */
  lemma {:induction false} ErrorIsWhereNothingStands(s: string, i: nat)
    requires i <= |s| && TokensFrom(s, i).Err?
    ensures var at := TokensFrom(s, i).error.position;
            && i <= at < |s| && LeadsTo(s, i, at) && !IsSpace(s[at]) && NothingStands(s, at)
            && Scan(s, at) == Bad(TokensFrom(s, i).error.problem)
    decreases |s| - i
  {
    hide Scan, LongestAt, Stands;
    if i < |s| {
      match Scan(s, i)
      case Space =>
        SpaceIsSkipped(s, i);
        ErrorIsWhereNothingStands(s, i + 1);
      case Read(kind, end) =>
        ReadIsLongest(s, i, end, kind);
        ErrorIsWhereNothingStands(s, end);
      case Bad(_) =>
        BadIsNothing(s, i);
    }
  }
}
