/**
 The tokenizer of the predicate language (expression.ts). Tokens keep a number's lexeme, so a
 token list determines its text up to spacing and the choice of quotes.
 */
module Tokens {
  import opened Prelude
  import opened Text
  import opened Paths

  datatype Kind =
    | PathLit(expression: string, segments: seq<Segment>)
    | NumberLit(lexeme: string)
    | StringLit(text: string)
    | True | False | Null | Exists
    | Eq | Neq | Gt | Gte | Lt | Lte | And | Or | Not
    | LParen | RParen | Eof

  datatype Token = Token(kind: Kind, start: nat)

  datatype Problem =
    | RegexUnsupported | UnterminatedString | UnterminatedPath | BadPath(expression: string) | BadRoot
    | InvalidNumber | UnexpectedChar(c: char)
    | EmptyExpression | ExpectedParen | ExpectedValue(found: Kind) | UnexpectedToken(found: Kind)

  /** ExpressionSyntaxError: what is wrong, and where in the source. */
  datatype SyntaxError = SyntaxError(problem: Problem, position: nat)

  /** What the tokenizer finds at one position. */
  datatype Lexed = Space | Read(kind: Kind, end: nat) | Bad(problem: Problem)

  function PairKind(a: char, b: char): Option<Kind> {
    if a == '&' && b == '&' then Some(And)
    else if a == '|' && b == '|' then Some(Or)
    else if b != '=' then None
    else if a == '=' then Some(Eq)
    else if a == '!' then Some(Neq)
    else if a == '>' then Some(Gte)
    else if a == '<' then Some(Lte)
    else None
  }

  function SingleKind(c: char): Option<Kind> {
    if c == '>' then Some(Gt)
    else if c == '<' then Some(Lt)
    else if c == '!' then Some(Not)
    else if c == '(' then Some(LParen)
    else if c == ')' then Some(RParen)
    else None
  }

  function Keyword(word: string): Option<Kind> {
    if word == "true" then Some(True)
    else if word == "false" then Some(False)
    else if word == "null" then Some(Null)
    else if word == "exists" then Some(Exists)
    else None
  }

  predicate HasValidRoot(segments: seq<Segment>) {
    segments != [] && segments[0].Key? && segments[0].name in {"context", "output", "env"}
  }

  function PathLexed(expression: string, end: nat): Lexed {
    var segments := PathSegments(expression);
    if segments.None? then Bad(BadPath(expression))
    else if HasValidRoot(segments.value) then Read(PathLit(expression, segments.value), end)
    else Bad(BadRoot)
  }

  /** End of -?[0-9]+(\.[0-9]+)? at i; i itself when it does not match. */
  function NumberEnd(s: string, i: nat): (end: nat)
    requires i < |s|
    ensures i <= end <= |s|
  {
    var digits := if s[i] == '-' then i + 1 else i;
    var whole := RunEnd(Digit, s, digits);
    if whole == digits then i
    else if whole < |s| && s[whole] == '.' && whole + 1 < RunEnd(Digit, s, whole + 1) then RunEnd(Digit, s, whole + 1)
    else whole
  }

  function Scan(s: string, i: nat): (r: Lexed)
    requires i < |s|
    ensures r.Read? ==> i < r.end <= |s|
  {
    var c := s[i];
    if IsSpace(c) then Space
    else if i + 1 < |s| && c == '=' && s[i + 1] == '~' then Bad(RegexUnsupported)
    else if i + 1 < |s| && PairKind(c, s[i + 1]).Some? then Read(PairKind(c, s[i + 1]).value, i + 2)
    else if SingleKind(c).Some? then Read(SingleKind(c).value, i + 1)
    else if c == '"' || c == '\'' then
      var end := Find(c, s, i + 1);
      if end == |s| then Bad(UnterminatedString) else Read(StringLit(s[i + 1..end]), end + 1)
    else if i + 1 < |s| && c == '{' && s[i + 1] == '$' then
      var end := Find('}', s, i + 2);
      if end == |s| then Bad(UnterminatedPath) else PathLexed(s[i..end + 1], end + 1)
    else if IsDigit(c) || c == '-' then
      var end := NumberEnd(s, i);
      if end == i then Bad(InvalidNumber) else Read(NumberLit(s[i..end]), end)
    else if IsWordStart(c) then
      var end := RunEnd(WordPart, s, i + 1);
      var keyword := Keyword(s[i..end]);
      if keyword.Some? then Read(keyword.value, end) else Bad(UnexpectedChar(c))
    else Bad(UnexpectedChar(c))
  }

  method ScanToken(source: string, cursor: nat) returns (r: Lexed)
    requires cursor < |source|
    ensures r == Scan(source, cursor)
  {
    var c := source[cursor];
    if IsSpace(c) {
      return Space;
    }
    if cursor + 1 < |source| {
      if c == '=' && source[cursor + 1] == '~' {
        return Bad(RegexUnsupported);
      }
      var pair := PairKind(c, source[cursor + 1]);
      if pair.Some? {
        return Read(pair.value, cursor + 2);
      }
    }
    if SingleKind(c).Some? {
      return Read(SingleKind(c).value, cursor + 1);
    }
    if c == '"' || c == '\'' {
      var end := Find(c, source, cursor + 1);
      return if end == |source| then Bad(UnterminatedString) else Read(StringLit(source[cursor + 1..end]), end + 1);
    }
    if cursor + 1 < |source| && c == '{' && source[cursor + 1] == '$' {
      var end := cursor + 2;
      while end < |source| && source[end] != '}'
        invariant cursor + 2 <= end <= |source|
        invariant Find('}', source, cursor + 2) == Find('}', source, end)
      {
        end := end + 1;
      }
      if end == |source| {
        return Bad(UnterminatedPath);
      }
      var expression := source[cursor..end + 1];
      var segments := ParsePath(expression);
      if segments.None? {
        return Bad(BadPath(expression));
      }
      return if HasValidRoot(segments.value) then Read(PathLit(expression, segments.value), end + 1) else Bad(BadRoot);
    }
    if IsDigit(c) || c == '-' {
      var end := NumberEnd(source, cursor);
      return if end == cursor then Bad(InvalidNumber) else Read(NumberLit(source[cursor..end]), end);
    }
    if IsWordStart(c) {
      var end := RunEnd(WordPart, source, cursor + 1);
      var keyword := Keyword(source[cursor..end]);
      if keyword.Some? {
        return Read(keyword.value, end);
      }
    }
    return Bad(UnexpectedChar(c));
  }

  function After(tokens: seq<Token>, rest: Result<seq<Token>, SyntaxError>): Result<seq<Token>, SyntaxError> {
    if rest.Err? then rest else Ok(tokens + rest.value)
  }

  /** The tokens of the text from i on, closed by the end-of-input token. */
  function TokensFrom(s: string, i: nat): (r: Result<seq<Token>, SyntaxError>)
    requires i <= |s|
    decreases |s| - i
  {
    if i == |s| then Ok([Token(Eof, |s|)])
    else
      match Scan(s, i)
      case Space => TokensFrom(s, i + 1)
      case Read(kind, end) => After([Token(kind, i)], TokensFrom(s, end))
      case Bad(problem) => Err(SyntaxError(problem, i))
  }

  lemma AfterTwice(a: seq<Token>, b: seq<Token>, rest: Result<seq<Token>, SyntaxError>)
    ensures After(a, After(b, rest)) == After(a + b, rest)
  {
    if rest.Ok? {
      assert a + (b + rest.value) == a + b + rest.value;
    }
  }

  method Tokenize(source: string) returns (r: Result<seq<Token>, SyntaxError>)
    ensures r == TokensFrom(source, 0)
  {
    var tokens: seq<Token> := [];
    var cursor := 0;
    if TokensFrom(source, 0).Ok? {
      assert [] + TokensFrom(source, 0).value == TokensFrom(source, 0).value;
    }
    while cursor < |source|
      invariant 0 <= cursor <= |source|
      invariant TokensFrom(source, 0) == After(tokens, TokensFrom(source, cursor))
      decreases |source| - cursor
    {
      var lexed := ScanToken(source, cursor);
      match lexed
      case Space =>
        cursor := cursor + 1;
      case Read(kind, end) =>
        AfterTwice(tokens, [Token(kind, cursor)], TokensFrom(source, end));
        tokens, cursor := tokens + [Token(kind, cursor)], end;
      case Bad(problem) =>
        return Err(SyntaxError(problem, cursor));
    }
    return Ok(tokens + [Token(Eof, |source|)]);
  }

  // ----- What tokens are written as -----

  /** [0-9]+(\.[0-9]+)? with an optional minus sign, as a whole string. */
  predicate IsUnsigned(s: string) {
    IsNumeral(s) || exists d :: 0 < d < |s| - 1 && s[d] == '.' && IsNumeral(s[0..d]) && IsNumeral(s[d + 1..|s|])
  }

  predicate IsNumber(s: string) {
    s != "" && (if s[0] == '-' then IsUnsigned(s[1..]) else IsUnsigned(s))
  }

  function QuoteFor(text: string): char {
    if '"' in text then '\'' else '"'
  }

  /** The canonical text of a token. */
  function Lexeme(kind: Kind): string {
    match kind
    case PathLit(expression, _) => expression
    case NumberLit(lexeme) => lexeme
    case StringLit(text) => [QuoteFor(text)] + text + [QuoteFor(text)]
    case True => "true" case False => "false" case Null => "null" case Exists => "exists"
    case Eq => "==" case Neq => "!=" case Gt => ">" case Gte => ">=" case Lt => "<" case Lte => "<="
    case And => "&&" case Or => "||" case Not => "!"
    case LParen => "(" case RParen => ")" case Eof => ""
  }

  /** The tokens some text can produce. */
  predicate Writable(kind: Kind) {
    match kind
    case PathLit(expression, segments) => PathSegments(expression) == Some(segments) && HasValidRoot(segments)
    case NumberLit(lexeme) => IsNumber(lexeme)
    case StringLit(text) => !('"' in text && '\'' in text)
    case Eof => false
    case _ => true
  }

  predicate AllWritable(kinds: seq<Kind>) {
    forall i :: 0 <= i < |kinds| ==> Writable(kinds[i])
  }

  /** text is one way of writing the token: either quote will do for a string without that quote. */
  predicate Writes(text: string, kind: Kind) {
    match kind
    case StringLit(t) => (text == "\"" + t + "\"" && '"' !in t) || (text == "'" + t + "'" && '\'' !in t)
    case _ => kind != Eof && text == Lexeme(kind)
  }

  // ----- Tokens cover the text -----

  lemma NumberIsWritten(s: string, i: nat)
    requires i < |s| && i < NumberEnd(s, i)
    ensures IsNumber(s[i..NumberEnd(s, i)])
  {
    var end := NumberEnd(s, i);
    var digits := if s[i] == '-' then i + 1 else i;
    var whole := RunEnd(Digit, s, digits);
    RunIsInClass(Digit, s, digits);
    if end != whole {
      RunIsInClass(Digit, s, whole + 1);
      FractionIsWritten(s, digits, whole, end);
    }
    if digits == i + 1 {
      assert s[i..end][1..] == s[digits..end];
    }
  }

  lemma FractionIsWritten(s: string, i: nat, point: nat, end: nat)
    requires i < point < end <= |s| && s[point] == '.' && IsNumeral(s[i..point]) && IsNumeral(s[point + 1..end])
    ensures IsUnsigned(s[i..end])
  {
    var unsigned, d := s[i..end], point - i;
    SliceOfSlice(s, i, end, 0, d);
    SliceOfSlice(s, i, end, d + 1, end - i);
    assert unsigned[d] == '.' && IsNumeral(unsigned[0..d]) && IsNumeral(unsigned[d + 1..|unsigned|]);
  }

  lemma PunctuationIsWritten(s: string, i: nat)
    requires i < |s| && Scan(s, i).Read? && !IsSpace(s[i])
    requires (i + 1 < |s| && PairKind(s[i], s[i + 1]).Some?) || SingleKind(s[i]).Some?
    ensures Writes(s[i..Scan(s, i).end], Scan(s, i).kind) && Writable(Scan(s, i).kind)
  {
    var end := Scan(s, i).end;
    var text := s[i..end];
    assert text[0] == s[i];
    assert end == i + 2 ==> text[1] == s[i + 1];
  }

  lemma StringIsWritten(s: string, i: nat, end: nat)
    requires i + 1 < end <= |s| && (s[i] == '"' || s[i] == '\'') && Find(s[i], s, i + 1) == end - 1
    ensures Writes(s[i..end], StringLit(s[i + 1..end - 1])) && Writable(StringLit(s[i + 1..end - 1]))
  {
    var text := s[i + 1..end - 1];
    FindSkips(s[i], s, i + 1);
    assert s[i] !in text;
    SplitThree(s, i, i + 1, end - 1, end);
    assert s[i..i + 1] == [s[i]] && s[end - 1..end] == [s[i]];
  }

  /** Whatever the tokenizer reads is a way of writing the token it returns. */
  lemma ReadIsWritten(s: string, i: nat)
    requires i < |s| && Scan(s, i).Read?
    ensures Writes(s[i..Scan(s, i).end], Scan(s, i).kind) && Writable(Scan(s, i).kind)
  {
    var Read(kind, end) := Scan(s, i);
    var c := s[i];
    if (i + 1 < |s| && PairKind(c, s[i + 1]).Some?) || SingleKind(c).Some? {
      PunctuationIsWritten(s, i);
    } else if c == '"' || c == '\'' {
      StringIsWritten(s, i, end);
    } else if IsDigit(c) || c == '-' {
      NumberIsWritten(s, i);
    }
  }

  predicate AllSpace(s: string, i: nat, j: nat)
    requires i <= j <= |s|
  {
    forall k :: i <= k < j ==> IsSpace(s[k])
  }

  /** From i on, s is nothing but these tokens, in order, with only white space around them. */
  ghost predicate Covers(s: string, i: nat, tokens: seq<Token>)
    requires i <= |s|
    decreases |tokens|
  {
    if |tokens| <= 1 then
      tokens == [Token(Eof, |s|)] && AllSpace(s, i, |s|)
    else
      var start := tokens[0].start;
      && i <= start < |s| && AllSpace(s, i, start)
      && exists end :: start < end <= |s| && Writes(s[start..end], tokens[0].kind) && Covers(s, end, tokens[1..])
  }

  lemma SpaceBeforeCovered(s: string, i: nat, tokens: seq<Token>)
    requires i < |s| && IsSpace(s[i]) && Covers(s, i + 1, tokens)
    ensures Covers(s, i, tokens)
  {
  }

  /** Tokenizing is lossless: the tokens strictly advance and leave out only white space. */
  lemma {:induction false} TokensCoverSource(s: string, i: nat)
    requires i <= |s| && TokensFrom(s, i).Ok?
    ensures TokensFrom(s, i).value != [] && Covers(s, i, TokensFrom(s, i).value)
    decreases |s| - i
  {
    if i < |s| {
      match Scan(s, i)
      case Space =>
        TokensCoverSource(s, i + 1);
        SpaceBeforeCovered(s, i, TokensFrom(s, i + 1).value);
      case Read(kind, end) =>
        TokensCoverSource(s, end);
        ReadIsWritten(s, i);
    }
  }

  // ----- Rendering and reading back -----

  function Kinds(tokens: seq<Token>): (kinds: seq<Kind>)
    ensures |kinds| == |tokens|
    ensures forall i :: 0 <= i < |tokens| ==> kinds[i] == tokens[i].kind
  {
    seq(|tokens|, i requires 0 <= i < |tokens| => tokens[i].kind)
  }

  lemma {:induction false} TokensAreWritable(s: string, i: nat)
    requires i <= |s| && TokensFrom(s, i).Ok?
    ensures var ts := TokensFrom(s, i).value;
            && ts != [] && ts[|ts| - 1] == Token(Eof, |s|)
            && forall k :: 0 <= k < |ts| - 1 ==> Writable(ts[k].kind)
    decreases |s| - i
  {
    if i < |s| {
      match Scan(s, i)
      case Space =>
        TokensAreWritable(s, i + 1);
      case Read(kind, end) =>
        TokensAreWritable(s, end);
        ReadIsWritten(s, i);
        var ts, rest := TokensFrom(s, i).value, TokensFrom(s, end).value;
        assert ts == [Token(kind, i)] + rest;
        assert forall k :: 1 <= k < |ts| ==> ts[k] == rest[k - 1];
    }
  }

  lemma SymbolIsRead(s: string, i: nat, j: nat, kind: Kind)
    requires i < j <= |s| && s[i..j] == Lexeme(kind) && (j == |s| || s[j] == ' ')
    requires !kind.PathLit? && !kind.NumberLit? && !kind.StringLit?
    requires kind !in {True, False, Null, Exists, Eof}
    ensures Scan(s, i) == Read(kind, j)
  {
    assert s[i..j][0] == s[i];
    assert j == i + 2 ==> s[i..j][1] == s[i + 1];
  }

  lemma KeywordIsRead(s: string, i: nat, j: nat, kind: Kind)
    requires i < j <= |s| && s[i..j] == Lexeme(kind) && (j == |s| || s[j] == ' ')
    requires kind in {True, False, Null, Exists}
    ensures Scan(s, i) == Read(kind, j)
  {
    var word := Lexeme(kind);
    assert s[i] == word[0] && IsWordStart(word[0]);
    assert forall k :: 0 <= k < |word| ==> IsWordPart(word[k]);
    assert forall k :: i + 1 <= k < j ==> s[k] == word[k - i];
    RunEndsAt(WordPart, s, i + 1, j);
  }

  lemma StringIsRead(s: string, i: nat, j: nat, text: string)
    requires Writable(StringLit(text)) && i < j <= |s| && s[i..j] == Lexeme(StringLit(text))
    ensures Scan(s, i) == Read(StringLit(text), j)
  {
    var q, lexeme := QuoteFor(text), Lexeme(StringLit(text));
    SliceOfSlice(s, i, j, 1, |lexeme| - 1);
    assert lexeme[1..|lexeme| - 1] == text;
    assert s[i] == lexeme[0] && s[j - 1] == lexeme[|lexeme| - 1];
    QuotedTextIsRead(s, i, j, q, text);
  }

  lemma QuotedTextIsRead(s: string, i: nat, j: nat, q: char, text: string)
    requires i + 2 <= j <= |s| && (q == '"' || q == '\'') && q !in text
    requires s[i] == q && s[j - 1] == q && s[i + 1..j - 1] == text
    ensures Scan(s, i) == Read(StringLit(text), j)
  {
    assert forall k :: i + 1 <= k < j - 1 ==> s[k] == text[k - i - 1];
    FindIsFirst(q, s, i + 1, j - 1);
  }

  lemma PathIsRead(s: string, i: nat, j: nat, kind: Kind)
    requires kind.PathLit? && Writable(kind) && i < j <= |s| && s[i..j] == kind.expression
    ensures Scan(s, i) == Read(kind, j)
  {
    var e := kind.expression;
    PathHasNoInnerBrace(e);
    assert forall k :: i <= k < j ==> s[k] == e[k - i];
    FindIsFirst('}', s, i + 2, j - 1);
  }

  lemma UnsignedIsRead(s: string, i: nat, j: nat)
    requires i < j <= |s| && IsUnsigned(s[i..j]) && (j == |s| || s[j] == ' ')
    ensures IsDigit(s[i])
    ensures var whole := RunEnd(Digit, s, i);
            && i < whole <= j
            && (whole == j || (s[whole] == '.' && whole + 1 < RunEnd(Digit, s, whole + 1) == j))
  {
    if IsNumeral(s[i..j]) {
      NumeralIsRead(s, i, j);
    } else {
      var point := PointOf(s, i, j);
      NumeralIsRead(s, i, point);
      NumeralIsRead(s, point + 1, j);
    }
  }

  lemma PointOf(s: string, i: nat, j: nat) returns (point: nat)
    requires i < j <= |s| && IsUnsigned(s[i..j]) && !IsNumeral(s[i..j])
    ensures i < point < j - 1 && s[point] == '.' && IsNumeral(s[i..point]) && IsNumeral(s[point + 1..j])
  {
    var text := s[i..j];
    var d :| 0 < d < |text| - 1 && text[d] == '.' && IsNumeral(text[0..d]) && IsNumeral(text[d + 1..|text|]);
    SliceOfSlice(s, i, j, 0, d);
    SliceOfSlice(s, i, j, d + 1, j - i);
    point := i + d;
  }

  lemma NumeralIsRead(s: string, i: nat, j: nat)
    requires i < j <= |s| && IsNumeral(s[i..j]) && (j == |s| || !IsDigit(s[j]))
    ensures IsDigit(s[i]) && RunEnd(Digit, s, i) == j
  {
    var text := s[i..j];
    assert forall k :: i <= k < j ==> s[k] == text[k - i];
    RunEndsAt(Digit, s, i, j);
  }

  lemma NumberIsRead(s: string, i: nat, j: nat, lexeme: string)
    requires IsNumber(lexeme) && i < j <= |s| && s[i..j] == lexeme && (j == |s| || s[j] == ' ')
    ensures Scan(s, i) == Read(NumberLit(lexeme), j)
  {
    assert s[i] == lexeme[0];
    if lexeme[0] == '-' {
      assert s[i + 1..j] == lexeme[1..];
      UnsignedIsRead(s, i + 1, j);
    } else {
      UnsignedIsRead(s, i, j);
    }
    assert NumberEnd(s, i) == j;
  }

  /** The canonical text of a writable token, closed by a space or the end, is read as that token. */
  lemma LexemeIsRead(s: string, i: nat, j: nat, kind: Kind)
    requires Writable(kind) && i <= j <= |s| && s[i..j] == Lexeme(kind) && (j == |s| || s[j] == ' ')
    ensures i < j && Scan(s, i) == Read(kind, j)
  {
    match kind
    case PathLit(_, _) =>
      PathHasNoInnerBrace(kind.expression);
      PathIsRead(s, i, j, kind);
    case NumberLit(lexeme) => NumberIsRead(s, i, j, lexeme);
    case StringLit(text) => StringIsRead(s, i, j, text);
    case True => KeywordIsRead(s, i, j, kind);
    case False => KeywordIsRead(s, i, j, kind);
    case Null => KeywordIsRead(s, i, j, kind);
    case Exists => KeywordIsRead(s, i, j, kind);
    case _ => SymbolIsRead(s, i, j, kind);
  }

  function RenderTail(kinds: seq<Kind>): string {
    if kinds == [] then "" else [' '] + (Lexeme(kinds[0]) + RenderTail(kinds[1..]))
  }

  /** The canonical texts of the tokens, joined by single spaces. */
  function Render(kinds: seq<Kind>): string {
    if kinds == [] then "" else Lexeme(kinds[0]) + RenderTail(kinds[1..])
  }

  /** The tokens of a rendered tail that starts at position at. */
  function PlacedTail(kinds: seq<Kind>, at: nat): seq<Token> {
    if kinds == [] then [Token(Eof, at)]
    else [Token(kinds[0], at + 1)] + PlacedTail(kinds[1..], at + 1 + |Lexeme(kinds[0])|)
  }

  lemma {:induction false} PlacedTailKinds(kinds: seq<Kind>, at: nat)
    ensures Kinds(PlacedTail(kinds, at)) == kinds + [Eof]
    decreases |kinds|
  {
    if kinds != [] {
      var next := at + 1 + |Lexeme(kinds[0])|;
      PlacedTailKinds(kinds[1..], next);
      ConsKinds(Token(kinds[0], at + 1), PlacedTail(kinds[1..], next), kinds[1..] + [Eof]);
      assert kinds + [Eof] == [kinds[0]] + (kinds[1..] + [Eof]);
    }
  }

  lemma RenderedTailHead(s: string, i: nat, kinds: seq<Kind>) returns (j: nat)
    requires kinds != [] && AllWritable(kinds) && i <= |s| && s[i..] == RenderTail(kinds)
    ensures AllWritable(kinds[1..])
    ensures i + 1 < j == i + 1 + |Lexeme(kinds[0])| <= |s|
    ensures s[i] == ' ' && Scan(s, i + 1) == Read(kinds[0], j)
    ensures s[j..] == RenderTail(kinds[1..])
  {
    hide Scan, Lexeme, Writable;
    j := i + 1 + |Lexeme(kinds[0])|;
    LexemeIsRead(s, i + 1, j, kinds[0]);
  }

  /** The rendering of a token after the first is read as that token. */
  lemma TailStep(s: string, i: nat, kinds: seq<Kind>) returns (j: nat)
    requires kinds != [] && AllWritable(kinds) && i <= |s| && s[i..] == RenderTail(kinds)
    ensures AllWritable(kinds[1..]) && j == i + 1 + |Lexeme(kinds[0])| <= |s| && s[j..] == RenderTail(kinds[1..])
    ensures TokensFrom(s, i) == After([Token(kinds[0], i + 1)], TokensFrom(s, j))
  {
    j := RenderedTailHead(s, i, kinds);
  }

  lemma {:induction false} RenderedTailIsRead(s: string, i: nat, kinds: seq<Kind>)
    requires AllWritable(kinds) && i <= |s| && s[i..] == RenderTail(kinds)
    ensures TokensFrom(s, i) == Ok(PlacedTail(kinds, i))
    decreases |kinds|
  {
    hide Scan, Lexeme, Writable;
    if kinds != [] {
      var j := TailStep(s, i, kinds);
      RenderedTailIsRead(s, j, kinds[1..]);
    }
  }

  lemma ConsKinds(token: Token, rest: seq<Token>, kinds: seq<Kind>)
    requires Kinds(rest) == kinds
    ensures Kinds([token] + rest) == [token.kind] + kinds
  {
  }

  /** The first token of a rendering, and the text after it. */
  lemma RenderedFirst(kinds: seq<Kind>) returns (j: nat)
    requires kinds != [] && AllWritable(kinds)
    ensures AllWritable(kinds[1..])
    ensures j == |Lexeme(kinds[0])| <= |Render(kinds)| && Render(kinds) != ""
    ensures Scan(Render(kinds), 0) == Read(kinds[0], j)
    ensures Render(kinds)[j..] == RenderTail(kinds[1..])
  {
    var s := Render(kinds);
    assert s[0..] == s;
    j := |Lexeme(kinds[0])|;
    LexemeIsRead(s, 0, j, kinds[0]);
  }

  lemma FirstStep(kinds: seq<Kind>) returns (j: nat)
    requires kinds != [] && AllWritable(kinds)
    ensures AllWritable(kinds[1..]) && j == |Lexeme(kinds[0])| <= |Render(kinds)|
    ensures Render(kinds)[j..] == RenderTail(kinds[1..])
    ensures TokensFrom(Render(kinds), 0) == After([Token(kinds[0], 0)], TokensFrom(Render(kinds), j))
  {
    j := RenderedFirst(kinds);
  }

  /** Tokenizing the rendering of any list of writable tokens returns that list. */
  lemma RenderRoundTrip(kinds: seq<Kind>)
    requires AllWritable(kinds)
    ensures TokensFrom(Render(kinds), 0).Ok?
    ensures Kinds(TokensFrom(Render(kinds), 0).value) == kinds + [Eof]
  {
    hide Scan, Lexeme, Writable;
    if kinds != [] {
      var j := FirstStep(kinds);
      RenderedTailIsRead(Render(kinds), j, kinds[1..]);
      PlacedTailKinds(kinds[1..], j);
      ConsKinds(Token(kinds[0], 0), PlacedTail(kinds[1..], j), kinds[1..] + [Eof]);
      assert kinds + [Eof] == [kinds[0]] + (kinds[1..] + [Eof]);
    }
  }
}
