/**
 The predicate parser (expression.ts): recursive descent over `||`, `&&`, `!` and comparisons.
 The grammar is stated by printing: an AST in canonical shape prints to one token list, and the
 parser inverts that printing exactly.
 */
module Parser {
  import opened Prelude
  import opened Paths
  import opened Tokens

  datatype Comparison = Equal | NotEqual | Greater | GreaterEqual | Less | LessEqual

  /** The value of a literal operand, with a number still in its written form. */
  datatype Scalar = NumberValue(lexeme: string) | StringValue(text: string) | TrueValue | FalseValue | NullValue

  datatype Operand =
    | PathOperand(expression: string, segments: seq<Segment>)
    | Literal(value: Scalar)
    | Group(node: Expr)

  datatype Expr =
    | OrExpr(left: Expr, right: Expr)
    | AndExpr(left: Expr, right: Expr)
    | NotExpr(operand: Expr)
    | CompareExpr(operator: Comparison, lhs: Operand, rhs: Operand)
    | ExistsExpr(subject: Operand)
    | ValueExpr(value: Operand)

  // ----- The grammar -----

  /** `||` associates to the left over `&&`, which associates to the left over `!`. */
  predicate OrShape(e: Expr)
    decreases e, 3
  {
    if e.OrExpr? then OrShape(e.left) && AndShape(e.right) else AndShape(e)
  }

  predicate AndShape(e: Expr)
    decreases e, 2
  {
    if e.AndExpr? then AndShape(e.left) && NotShape(e.right) else NotShape(e)
  }

  predicate NotShape(e: Expr)
    decreases e, 1
  {
    match e
    case NotExpr(operand) => NotShape(operand)
    case CompareExpr(_, lhs, rhs) => OperandShape(lhs) && OperandShape(rhs)
    case ExistsExpr(subject) => OperandShape(subject)
    case ValueExpr(value) => OperandShape(value)
    case _ => false
  }

  predicate OperandShape(v: Operand)
    decreases v, 0
  {
    v.Group? ==> OrShape(v.node)
  }

  function ComparisonToken(op: Comparison): Kind {
    match op
    case Equal => Eq case NotEqual => Neq
    case Greater => Gt case GreaterEqual => Gte
    case Less => Lt case LessEqual => Lte
  }

  function ScalarToken(v: Scalar): Kind {
    match v
    case NumberValue(lexeme) => NumberLit(lexeme)
    case StringValue(text) => StringLit(text)
    case TrueValue => True case FalseValue => False case NullValue => Null
  }

  function Print(e: Expr): seq<Kind>
    decreases e, 1
  {
    match e
    case OrExpr(left, right) => Print(left) + ([Or] + Print(right))
    case AndExpr(left, right) => Print(left) + ([And] + Print(right))
    case NotExpr(operand) => [Not] + Print(operand)
    case CompareExpr(op, lhs, rhs) => PrintOperand(lhs) + ([ComparisonToken(op)] + PrintOperand(rhs))
    case ExistsExpr(subject) => PrintOperand(subject) + [Exists]
    case ValueExpr(value) => PrintOperand(value)
  }

  function PrintOperand(v: Operand): seq<Kind>
    decreases v, 0
  {
    match v
    case PathOperand(expression, segments) => [PathLit(expression, segments)]
    case Literal(value) => [ScalarToken(value)]
    case Group(node) => [LParen] + (Print(node) + [RParen])
  }

  // ----- The parser, as functions from a position -----

  /** The node read and the position after it, or the error thrown. */
  datatype Parsed<+T> = Node(node: T, next: nat) | Fail(error: SyntaxError)

  predicate Terminated(ts: seq<Token>) {
    ts != [] && ts[|ts| - 1].kind == Eof
  }

  function ComparisonOf(kind: Kind): Option<Comparison> {
    match kind
    case Eq => Some(Equal) case Neq => Some(NotEqual)
    case Gt => Some(Greater) case Gte => Some(GreaterEqual)
    case Lt => Some(Less) case Lte => Some(LessEqual)
    case _ => None
  }

  function ScalarOf(kind: Kind): Option<Scalar> {
    match kind
    case NumberLit(lexeme) => Some(NumberValue(lexeme))
    case StringLit(text) => Some(StringValue(text))
    case True => Some(TrueValue) case False => Some(FalseValue) case Null => Some(NullValue)
    case _ => None
  }

  function ValueAt(ts: seq<Token>, p: nat): (r: Parsed<Operand>)
    requires Terminated(ts) && p < |ts|
    ensures r.Node? ==> p < r.next < |ts|
    decreases |ts| - p, 0
  {
    var token := ts[p];
    if token.kind.PathLit? then
      Node(PathOperand(token.kind.expression, token.kind.segments), p + 1)
    else if ScalarOf(token.kind).Some? then
      Node(Literal(ScalarOf(token.kind).value), p + 1)
    else if token.kind == LParen then
      match OrAt(ts, p + 1)
      case Fail(error) => Fail(error)
      case Node(node, q) =>
        if ts[q].kind == RParen then Node(Group(node), q + 1) else Fail(SyntaxError(ExpectedParen, ts[q].start))
    else
      Fail(SyntaxError(ExpectedValue(token.kind), token.start))
  }

  function ComparisonAt(ts: seq<Token>, p: nat): (r: Parsed<Expr>)
    requires Terminated(ts) && p < |ts|
    ensures r.Node? ==> p < r.next < |ts|
    decreases |ts| - p, 1
  {
    match ValueAt(ts, p)
    case Fail(error) => Fail(error)
    case Node(left, q) =>
      if ts[q].kind == Exists then Node(ExistsExpr(left), q + 1)
      else
        var operator := ComparisonOf(ts[q].kind);
        if operator.None? then Node(ValueExpr(left), q)
        else
          match ValueAt(ts, q + 1)
          case Fail(error) => Fail(error)
          case Node(right, next) => Node(CompareExpr(operator.value, left, right), next)
  }

  function NotAt(ts: seq<Token>, p: nat): (r: Parsed<Expr>)
    requires Terminated(ts) && p < |ts|
    ensures r.Node? ==> p < r.next < |ts|
    decreases |ts| - p, 2
  {
    if ts[p].kind == Not then
      match NotAt(ts, p + 1)
      case Fail(error) => Fail(error)
      case Node(operand, q) => Node(NotExpr(operand), q)
    else
      ComparisonAt(ts, p)
  }

  /** The loop of parseAnd, with the node built so far. */
  function AndLoop(ts: seq<Token>, node: Expr, p: nat): (r: Parsed<Expr>)
    requires Terminated(ts) && p < |ts|
    ensures r.Node? ==> p <= r.next < |ts|
    decreases |ts| - p, 3
  {
    if ts[p].kind != And then Node(node, p)
    else
      match NotAt(ts, p + 1)
      case Fail(error) => Fail(error)
      case Node(right, q) => AndLoop(ts, AndExpr(node, right), q)
  }

  function AndAt(ts: seq<Token>, p: nat): (r: Parsed<Expr>)
    requires Terminated(ts) && p < |ts|
    ensures r.Node? ==> p < r.next < |ts|
    decreases |ts| - p, 4
  {
    match NotAt(ts, p)
    case Fail(error) => Fail(error)
    case Node(node, q) => AndLoop(ts, node, q)
  }

  /** The loop of parseOr, with the node built so far. */
  function OrLoop(ts: seq<Token>, node: Expr, p: nat): (r: Parsed<Expr>)
    requires Terminated(ts) && p < |ts|
    ensures r.Node? ==> p <= r.next < |ts|
    decreases |ts| - p, 5
  {
    if ts[p].kind != Or then Node(node, p)
    else
      match AndAt(ts, p + 1)
      case Fail(error) => Fail(error)
      case Node(right, q) => OrLoop(ts, OrExpr(node, right), q)
  }

  function OrAt(ts: seq<Token>, p: nat): (r: Parsed<Expr>)
    requires Terminated(ts) && p < |ts|
    ensures r.Node? ==> p < r.next < |ts|
    decreases |ts| - p, 6
  {
    match AndAt(ts, p)
    case Fail(error) => Fail(error)
    case Node(node, q) => OrLoop(ts, node, q)
  }

  /** parseExpression on the token list. */
  function Parse(ts: seq<Token>): Result<Expr, SyntaxError>
    requires Terminated(ts)
  {
    if |ts| == 1 then Err(SyntaxError(EmptyExpression, 0))
    else
      match OrAt(ts, 0)
      case Fail(error) => Err(error)
      case Node(root, q) =>
        if ts[q].kind == Eof then Ok(root) else Err(SyntaxError(UnexpectedToken(ts[q].kind), ts[q].start))
  }

  // ----- The parser, as closures over a shared position -----

  /** The tokens and the cursor that parseExpression's closures share. */
  class Cursor {
    const tokens: seq<Token>
    var position: nat

    constructor (tokens: seq<Token>)
      ensures this.tokens == tokens && position == 0
    {
      this.tokens := tokens;
      position := 0;
    }

    ghost predicate Ready()
      reads this
    {
      Terminated(tokens) && position < |tokens|
    }

    /** What a closure leaves behind: its value and the advanced cursor, or an exception. */
    ghost predicate Left<T>(r: Result<T, SyntaxError>, spec: Parsed<T>)
      reads this
    {
      match spec
      case Node(node, next) => r == Ok(node) && position == next
      case Fail(error) => r == Err(error)
    }

    method ParseValue() returns (r: Result<Operand, SyntaxError>)
      requires Ready()
      modifies this
      ensures Left(r, ValueAt(tokens, old(position)))
      decreases |tokens| - position, 0
    {
      var token := tokens[position];
      if token.kind == Eof {
        return Err(SyntaxError(ExpectedValue(token.kind), token.start));
      }
      position := position + 1;
      if token.kind.PathLit? {
        return Ok(PathOperand(token.kind.expression, token.kind.segments));
      }
      var scalar := ScalarOf(token.kind);
      if scalar.Some? {
        return Ok(Literal(scalar.value));
      }
      if token.kind != LParen {
        return Err(SyntaxError(ExpectedValue(token.kind), token.start));
      }
      var node :- ParseOr();
      if tokens[position].kind != RParen {
        return Err(SyntaxError(ExpectedParen, tokens[position].start));
      }
      position := position + 1;
      return Ok(Group(node));
    }

    method ParseComparison() returns (r: Result<Expr, SyntaxError>)
      requires Ready()
      modifies this
      ensures Left(r, ComparisonAt(tokens, old(position)))
      decreases |tokens| - position, 1
    {
      var left :- ParseValue();
      if tokens[position].kind == Exists {
        position := position + 1;
        return Ok(ExistsExpr(left));
      }
      var operator := ComparisonOf(tokens[position].kind);
      if operator.None? {
        return Ok(ValueExpr(left));
      }
      position := position + 1;
      var right :- ParseValue();
      return Ok(CompareExpr(operator.value, left, right));
    }

    method ParseNot() returns (r: Result<Expr, SyntaxError>)
      requires Ready()
      modifies this
      ensures Left(r, NotAt(tokens, old(position)))
      decreases |tokens| - position, 2
    {
      if tokens[position].kind == Not {
        position := position + 1;
        var operand :- ParseNot();
        return Ok(NotExpr(operand));
      }
      r := ParseComparison();
    }

    method ParseAnd() returns (r: Result<Expr, SyntaxError>)
      requires Ready()
      modifies this
      ensures Left(r, AndAt(tokens, old(position)))
      decreases |tokens| - position, 4
    {
      var node :- ParseNot();
      while tokens[position].kind == And
        invariant old(position) < position < |tokens|
        invariant AndAt(tokens, old(position)) == AndLoop(tokens, node, position)
        decreases |tokens| - position
      {
        position := position + 1;
        var right :- ParseNot();
        node := AndExpr(node, right);
      }
      return Ok(node);
    }

    method ParseOr() returns (r: Result<Expr, SyntaxError>)
      requires Ready()
      modifies this
      ensures Left(r, OrAt(tokens, old(position)))
      decreases |tokens| - position, 6
    {
      var node :- ParseAnd();
      while tokens[position].kind == Or
        invariant old(position) < position < |tokens|
        invariant OrAt(tokens, old(position)) == OrLoop(tokens, node, position)
        decreases |tokens| - position
      {
        position := position + 1;
        var right :- ParseAnd();
        node := OrExpr(node, right);
      }
      return Ok(node);
    }
  }

  /** parseExpression as a function of the source. */
  function ExpressionOf(source: string): Result<Expr, SyntaxError> {
    match TokensFrom(source, 0)
    case Err(error) => Err(error)
    case Ok(ts) => TokensAreWritable(source, 0); Parse(ts)
  }

  method ParseExpression(source: string) returns (r: Result<Expr, SyntaxError>)
    ensures r == ExpressionOf(source)
  {
    var tokens :- Tokenize(source);
    TokensAreWritable(source, 0);
    if |tokens| == 1 {
      return Err(SyntaxError(EmptyExpression, 0));
    }
    var cursor := new Cursor(tokens);
    var root :- cursor.ParseOr();
    var token := tokens[cursor.position];
    if token.kind != Eof {
      return Err(SyntaxError(UnexpectedToken(token.kind), token.start));
    }
    return Ok(root);
  }

  // ----- Printing gives back the tokens consumed -----

  /** The tokens from p on start with these kinds. */
  predicate Reads(ts: seq<Token>, p: nat, kinds: seq<Kind>) {
    p + |kinds| <= |ts| && forall i :: 0 <= i < |kinds| ==> ts[p + i].kind == kinds[i]
  }

  lemma ReadsConcat(ts: seq<Token>, p: nat, a: seq<Kind>, b: seq<Kind>)
    ensures Reads(ts, p, a + b) <==> Reads(ts, p, a) && Reads(ts, p + |a|, b)
  {
    var ab := a + b;
    if Reads(ts, p, ab) {
      assert forall i :: 0 <= i < |a| ==> ab[i] == a[i];
      forall i | 0 <= i < |b| ensures ts[p + |a| + i].kind == b[i] {
        assert ab[|a| + i] == b[i];
      }
    }
    if Reads(ts, p, a) && Reads(ts, p + |a|, b) {
      forall i | 0 <= i < |ab| ensures ts[p + i].kind == ab[i] {
        if |a| <= i {
          assert ab[i] == b[i - |a|];
          assert ts[p + |a| + (i - |a|)].kind == b[i - |a|];
        }
      }
    }
  }

  lemma ReadsThree(ts: seq<Token>, p: nat, a: seq<Kind>, kind: Kind, b: seq<Kind>)
    ensures Reads(ts, p, a + ([kind] + b))
       <==> Reads(ts, p, a) && p + |a| < |ts| && ts[p + |a|].kind == kind && Reads(ts, p + |a| + 1, b)
  {
    ReadsConcat(ts, p, a, [kind] + b);
    ReadsConcat(ts, p + |a|, [kind], b);
    assert Reads(ts, p + |a|, [kind]) <==> p + |a| < |ts| && ts[p + |a|].kind == kind by {
      if Reads(ts, p + |a|, [kind]) {
        assert ts[p + |a| + 0].kind == [kind][0];
      }
    }
  }

  lemma ReadsBetween(ts: seq<Token>, p: nat, open: Kind, inner: seq<Kind>, close: Kind)
    ensures Reads(ts, p, [open] + (inner + [close]))
       <==> && p < |ts| && ts[p].kind == open && Reads(ts, p + 1, inner)
            && p + 1 + |inner| < |ts| && ts[p + 1 + |inner|].kind == close
  {
    hide Reads;
    ReadsThree(ts, p, [], open, inner + [close]);
    ReadsThree(ts, p + 1, inner, close, []);
    ReadsNothing(ts, p);
    ReadsNothing(ts, p + 1 + |inner| + 1);
    assert [] + ([open] + (inner + [close])) == [open] + (inner + [close]);
    assert inner + ([close] + []) == inner + [close];
  }

  lemma ReadsNothing(ts: seq<Token>, p: nat)
    ensures Reads(ts, p, []) <==> p <= |ts|
  {
  }

  lemma ReadsGroup(ts: seq<Token>, p: nat, node: Expr)
    ensures Reads(ts, p, PrintOperand(Group(node)))
       <==> && p < |ts| && ts[p].kind == LParen && Reads(ts, p + 1, Print(node))
            && p + 1 + |Print(node)| < |ts| && ts[p + 1 + |Print(node)|].kind == RParen
  {
    hide Print, Reads;
    ReadsBetween(ts, p, LParen, Print(node), RParen);
  }

  lemma ReadsNot(ts: seq<Token>, p: nat, operand: Expr)
    ensures Reads(ts, p, Print(NotExpr(operand)))
       <==> p < |ts| && ts[p].kind == Not && Reads(ts, p + 1, Print(operand))
  {
    ReadsThree(ts, p, [], Not, Print(operand));
    assert [] + ([Not] + Print(operand)) == Print(NotExpr(operand));
  }

  lemma ReadsExists(ts: seq<Token>, p: nat, subject: Operand)
    ensures Reads(ts, p, Print(ExistsExpr(subject)))
       <==> && Reads(ts, p, PrintOperand(subject))
            && p + |PrintOperand(subject)| < |ts| && ts[p + |PrintOperand(subject)|].kind == Exists
  {
    ReadsThree(ts, p, PrintOperand(subject), Exists, []);
    assert [Exists] + [] == [Exists];
  }

  /** e occupies exactly the tokens from p up to q. */
  predicate Spans(ts: seq<Token>, p: nat, e: Expr, q: nat) {
    q == p + |Print(e)| && Reads(ts, p, Print(e))
  }

  predicate SpansOperand(ts: seq<Token>, p: nat, v: Operand, q: nat) {
    q == p + |PrintOperand(v)| && Reads(ts, p, PrintOperand(v))
  }

  lemma BinarySpans(ts: seq<Token>, p: nat, left: Expr, m: nat, right: Expr, q: nat)
    requires Spans(ts, p, left, m) && m < |ts| && Spans(ts, m + 1, right, q)
    ensures ts[m].kind == Or ==> Spans(ts, p, OrExpr(left, right), q)
    ensures ts[m].kind == And ==> Spans(ts, p, AndExpr(left, right), q)
  {
    ReadsThree(ts, p, Print(left), ts[m].kind, Print(right));
  }

  lemma {:induction false} ValueSound(ts: seq<Token>, p: nat)
    requires Terminated(ts) && p < |ts|
    ensures var r := ValueAt(ts, p); r.Fail? || (OperandShape(r.node) && SpansOperand(ts, p, r.node, r.next))
    decreases |ts| - p, 0
  {
    if ts[p].kind == LParen {
      OrSound(ts, p + 1);
      match OrAt(ts, p + 1)
      case Fail(_) =>
      case Node(node, q) => ReadsGroup(ts, p, node);
    }
  }

  lemma ExistsSpans(ts: seq<Token>, p: nat, left: Operand, q: nat)
    requires OperandShape(left) && SpansOperand(ts, p, left, q) && q < |ts| && ts[q].kind == Exists
    ensures NotShape(ExistsExpr(left)) && Spans(ts, p, ExistsExpr(left), q + 1)
  {
    ReadsExists(ts, p, left);
  }

  lemma CompareSpans(ts: seq<Token>, p: nat, left: Operand, q: nat, right: Operand, next: nat)
    requires OperandShape(left) && SpansOperand(ts, p, left, q) && q < |ts| && ComparisonOf(ts[q].kind).Some?
    requires OperandShape(right) && SpansOperand(ts, q + 1, right, next)
    ensures var e := CompareExpr(ComparisonOf(ts[q].kind).value, left, right); NotShape(e) && Spans(ts, p, e, next)
  {
    ReadsThree(ts, p, PrintOperand(left), ts[q].kind, PrintOperand(right));
  }

  lemma ValueSpans(ts: seq<Token>, p: nat, left: Operand, q: nat)
    requires OperandShape(left) && SpansOperand(ts, p, left, q)
    ensures NotShape(ValueExpr(left)) && Spans(ts, p, ValueExpr(left), q)
  {
  }

  lemma {:induction false} ComparisonSound(ts: seq<Token>, p: nat)
    requires Terminated(ts) && p < |ts|
    ensures var r := ComparisonAt(ts, p); r.Fail? || (NotShape(r.node) && Spans(ts, p, r.node, r.next))
    decreases |ts| - p, 1
  {
    hide ValueAt, Reads, OperandShape, PrintOperand, Print;
    ValueSound(ts, p);
    match ValueAt(ts, p)
    case Fail(_) =>
    case Node(left, q) =>
      if ts[q].kind == Exists {
        ExistsSpans(ts, p, left, q);
      } else if ComparisonOf(ts[q].kind).Some? {
        ValueSound(ts, q + 1);
        match ValueAt(ts, q + 1)
        case Fail(_) =>
        case Node(right, next) => CompareSpans(ts, p, left, q, right, next);
      } else {
        ValueSpans(ts, p, left, q);
      }
  }

  lemma {:induction false} NotSound(ts: seq<Token>, p: nat)
    requires Terminated(ts) && p < |ts|
    ensures var r := NotAt(ts, p); r.Fail? || (NotShape(r.node) && Spans(ts, p, r.node, r.next))
    decreases |ts| - p, 2
  {
    if ts[p].kind == Not {
      NotSound(ts, p + 1);
      match NotAt(ts, p + 1)
      case Fail(_) =>
      case Node(operand, _) => ReadsNot(ts, p, operand);
    } else {
      ComparisonSound(ts, p);
    }
  }

  lemma {:induction false} AndLoopSound(ts: seq<Token>, start: nat, node: Expr, p: nat)
    requires Terminated(ts) && p < |ts| && AndShape(node) && Spans(ts, start, node, p)
    ensures var r := AndLoop(ts, node, p); r.Fail? || (AndShape(r.node) && Spans(ts, start, r.node, r.next))
    decreases |ts| - p, 3
  {
    if ts[p].kind == And {
      NotSound(ts, p + 1);
      match NotAt(ts, p + 1)
      case Fail(_) =>
      case Node(right, q) =>
        BinarySpans(ts, start, node, p, right, q);
        AndLoopSound(ts, start, AndExpr(node, right), q);
    }
  }

  lemma {:induction false} AndSound(ts: seq<Token>, p: nat)
    requires Terminated(ts) && p < |ts|
    ensures var r := AndAt(ts, p); r.Fail? || (AndShape(r.node) && Spans(ts, p, r.node, r.next))
    decreases |ts| - p, 4
  {
    NotSound(ts, p);
    match NotAt(ts, p)
    case Fail(_) =>
    case Node(node, q) => AndLoopSound(ts, p, node, q);
  }

  lemma {:induction false} OrLoopSound(ts: seq<Token>, start: nat, node: Expr, p: nat)
    requires Terminated(ts) && p < |ts| && OrShape(node) && Spans(ts, start, node, p)
    ensures var r := OrLoop(ts, node, p); r.Fail? || (OrShape(r.node) && Spans(ts, start, r.node, r.next))
    decreases |ts| - p, 5
  {
    if ts[p].kind == Or {
      AndSound(ts, p + 1);
      match AndAt(ts, p + 1)
      case Fail(_) =>
      case Node(right, q) =>
        BinarySpans(ts, start, node, p, right, q);
        OrLoopSound(ts, start, OrExpr(node, right), q);
    }
  }

  /** What parseOr returns has canonical shape and prints to exactly the tokens it consumed. */
  lemma {:induction false} OrSound(ts: seq<Token>, p: nat)
    requires Terminated(ts) && p < |ts|
    ensures var r := OrAt(ts, p); r.Fail? || (OrShape(r.node) && Spans(ts, p, r.node, r.next))
    decreases |ts| - p, 6
  {
    AndSound(ts, p);
    match AndAt(ts, p)
    case Fail(_) =>
    case Node(node, q) => OrLoopSound(ts, p, node, q);
  }

  // ----- Printed canonical expressions are parsed back -----

  /** A token that would continue a comparison. */
  predicate ContinuesValue(kind: Kind) {
    kind == Exists || ComparisonOf(kind).Some?
  }

  lemma {:induction false} OperandComplete(ts: seq<Token>, p: nat, v: Operand, q: nat)
    requires Terminated(ts) && OperandShape(v) && SpansOperand(ts, p, v, q) && q < |ts|
    ensures ValueAt(ts, p) == Node(v, q)
    decreases v, 0
  {
    assert ts[p + 0].kind == PrintOperand(v)[0];
    match v
    case PathOperand(_, _) =>
    case Literal(_) =>
    case Group(node) =>
      ReadsGroup(ts, p, node);
      OrComplete(ts, p + 1, node, q - 1);
  }

  lemma CompareSplits(ts: seq<Token>, p: nat, op: Comparison, lhs: Operand, rhs: Operand, q: nat) returns (m: nat)
    requires NotShape(CompareExpr(op, lhs, rhs)) && Spans(ts, p, CompareExpr(op, lhs, rhs), q)
    ensures OperandShape(lhs) && SpansOperand(ts, p, lhs, m) && m < |ts| && ts[m].kind == ComparisonToken(op)
    ensures OperandShape(rhs) && SpansOperand(ts, m + 1, rhs, q)
  {
    m := p + |PrintOperand(lhs)|;
    ReadsThree(ts, p, PrintOperand(lhs), ComparisonToken(op), PrintOperand(rhs));
  }

  lemma ExistsSplits(ts: seq<Token>, p: nat, subject: Operand, q: nat)
    requires NotShape(ExistsExpr(subject)) && Spans(ts, p, ExistsExpr(subject), q)
    ensures 0 < q <= |ts| && OperandShape(subject) && SpansOperand(ts, p, subject, q - 1) && ts[q - 1].kind == Exists
  {
    ReadsExists(ts, p, subject);
  }

  lemma {:induction false} NotComplete(ts: seq<Token>, p: nat, e: Expr, q: nat)
    requires Terminated(ts) && NotShape(e) && Spans(ts, p, e, q) && q < |ts| && !ContinuesValue(ts[q].kind)
    ensures NotAt(ts, p) == Node(e, q)
    decreases e, 1
  {
    hide Reads, PrintOperand, ValueAt, OperandShape;
    match e
    case NotExpr(operand) =>
      ReadsNot(ts, p, operand);
      NotComplete(ts, p + 1, operand, q);
    case CompareExpr(op, lhs, rhs) =>
      var m := CompareSplits(ts, p, op, lhs, rhs, q);
      OperandComplete(ts, p, lhs, m);
      OperandComplete(ts, m + 1, rhs, q);
      OperandIsNotNot(ts, p, lhs);
    case ExistsExpr(subject) =>
      ExistsSplits(ts, p, subject, q);
      OperandComplete(ts, p, subject, q - 1);
      OperandIsNotNot(ts, p, subject);
    case ValueExpr(value) =>
      OperandComplete(ts, p, value, q);
      OperandIsNotNot(ts, p, value);
  }

  lemma OperandIsNotNot(ts: seq<Token>, p: nat, v: Operand)
    requires Reads(ts, p, PrintOperand(v))
    ensures p < |ts| && ts[p].kind != Not
  {
    assert ts[p + 0].kind == PrintOperand(v)[0];
  }

  /** Reading a canonical `&&` chain leaves parseAnd at the top of its loop with that chain built. */
  lemma {:induction false} AndPrefix(ts: seq<Token>, p: nat, e: Expr, q: nat)
    requires Terminated(ts) && AndShape(e) && Spans(ts, p, e, q) && q < |ts| && !ContinuesValue(ts[q].kind)
    ensures p < |ts| && AndAt(ts, p) == AndLoop(ts, e, q)
    decreases e, 2
  {
    hide NotAt, Reads;
    if e.AndExpr? {
      var m := p + |Print(e.left)|;
      ReadsThree(ts, p, Print(e.left), And, Print(e.right));
      AndPrefix(ts, p, e.left, m);
      NotComplete(ts, m + 1, e.right, q);
    } else {
      NotComplete(ts, p, e, q);
    }
  }

  lemma {:induction false} OrPrefix(ts: seq<Token>, p: nat, e: Expr, q: nat)
    requires Terminated(ts) && OrShape(e) && Spans(ts, p, e, q)
    requires q < |ts| && !ContinuesValue(ts[q].kind) && ts[q].kind != And
    ensures p < |ts| && OrAt(ts, p) == OrLoop(ts, e, q)
    decreases e, 3
  {
    if e.OrExpr? {
      var m := p + |Print(e.left)|;
      ReadsThree(ts, p, Print(e.left), Or, Print(e.right));
      OrPrefix(ts, p, e.left, m);
      AndPrefix(ts, m + 1, e.right, q);
    } else {
      AndPrefix(ts, p, e, q);
    }
  }

  /** Any canonical expression printed at p, and followed by no continuing token, is parsed back. */
  lemma {:induction false} OrComplete(ts: seq<Token>, p: nat, e: Expr, q: nat)
    requires Terminated(ts) && OrShape(e) && Spans(ts, p, e, q)
    requires q < |ts| && !ContinuesValue(ts[q].kind) && ts[q].kind != And && ts[q].kind != Or
    ensures p < |ts| && OrAt(ts, p) == Node(e, q)
    decreases e, 4
  {
    OrPrefix(ts, p, e, q);
  }

  // ----- Main results -----

  predicate OnlyLastIsEof(ts: seq<Token>) {
    Terminated(ts) && forall i :: 0 <= i < |ts| - 1 ==> ts[i].kind != Eof
  }

  /** The parser accepts exactly the printed canonical expressions, and inverts the printing. */
  lemma ParseIsInverseOfPrint(ts: seq<Token>, e: Expr)
    requires OnlyLastIsEof(ts)
    ensures Parse(ts) == Ok(e) <==> OrShape(e) && Kinds(ts) == Print(e) + [Eof]
  {
    if Parse(ts) == Ok(e) {
      OrSound(ts, 0);
      assert OrAt(ts, 0).next == |ts| - 1;
      assert Kinds(ts) == Print(e) + [Eof] by {
        forall i | 0 <= i < |ts| ensures Kinds(ts)[i] == (Print(e) + [Eof])[i] {
          if i < |ts| - 1 {
            assert ts[0 + i].kind == Print(e)[i];
          }
        }
      }
    }
    if OrShape(e) && Kinds(ts) == Print(e) + [Eof] {
      forall i | 0 <= i < |Print(e)| ensures ts[0 + i].kind == Print(e)[i] {
        assert Kinds(ts)[i] == (Print(e) + [Eof])[i];
      }
      OrComplete(ts, 0, e, |Print(e)|);
    }
  }

  /** The source-level reading of the same theorem. */
  lemma ParsedExactlyWhenPrinted(source: string, e: Expr)
    ensures ExpressionOf(source) == Ok(e)
       <==> TokensFrom(source, 0).Ok? && OrShape(e) && Kinds(TokensFrom(source, 0).value) == Print(e) + [Eof]
  {
    if TokensFrom(source, 0).Ok? {
      TokensAreWritable(source, 0);
      ParseIsInverseOfPrint(TokensFrom(source, 0).value, e);
    }
  }

  /** The grammar is unambiguous: no two canonical expressions print alike. */
  lemma PrintIsInjective(a: Expr, b: Expr)
    requires OrShape(a) && OrShape(b) && Print(a) == Print(b)
    ensures a == b
  {
    var kinds := Print(a) + [Eof];
    var ts := seq(|kinds|, i requires 0 <= i < |kinds| => Token(kinds[i], 0));
    forall i | 0 <= i < |Print(a)| ensures ts[0 + i].kind == Print(a)[i] {
    }
    OrComplete(ts, 0, a, |Print(a)|);
    OrComplete(ts, 0, b, |Print(b)|);
  }

  /** Parsing the rendering of any canonical expression over writable tokens returns it. */
  lemma SourceRoundTrip(e: Expr)
    requires OrShape(e) && AllWritable(Print(e))
    ensures ExpressionOf(Render(Print(e))) == Ok(e)
  {
    RenderRoundTrip(Print(e));
    ParsedExactlyWhenPrinted(Render(Print(e)), e);
  }

  /** Rendering a parsed expression normalizes its source: parsing again gives the same expression. */
  lemma RenderIsNormalForm(source: string)
    requires ExpressionOf(source).Ok?
    ensures var e := ExpressionOf(source).value; OrShape(e) && ExpressionOf(Render(Print(e))) == Ok(e)
  {
    var e := ExpressionOf(source).value;
    ParsedExactlyWhenPrinted(source, e);
    TokensAreWritable(source, 0);
    var ts := TokensFrom(source, 0).value;
    forall i | 0 <= i < |Print(e)| ensures Writable(Print(e)[i]) {
      assert Kinds(ts)[i] == (Print(e) + [Eof])[i];
    }
    SourceRoundTrip(e);
  }

  // ----- firstPathOperand -----

  function OrElse(a: Option<string>, b: Option<string>): Option<string> {
    if a.Some? then a else b
  }

  function FirstPath(e: Expr): Option<string>
    decreases e, 1
  {
    match e
    case OrExpr(left, right) => OrElse(FirstPath(left), FirstPath(right))
    case AndExpr(left, right) => OrElse(FirstPath(left), FirstPath(right))
    case NotExpr(operand) => FirstPath(operand)
    case CompareExpr(_, lhs, rhs) => OrElse(FirstPathOf(lhs), FirstPathOf(rhs))
    case ExistsExpr(subject) => FirstPathOf(subject)
    case ValueExpr(value) => FirstPathOf(value)
  }

  function FirstPathOf(v: Operand): Option<string>
    decreases v, 0
  {
    match v
    case PathOperand(expression, _) => Some(expression)
    case Literal(_) => None
    case Group(node) => FirstPath(node)
  }

  /** The first path token of a token list. */
  function FirstPathToken(kinds: seq<Kind>): (r: Option<string>)
    ensures r.None? <==> forall i :: 0 <= i < |kinds| ==> !kinds[i].PathLit?
  {
    if kinds == [] then None
    else if kinds[0].PathLit? then Some(kinds[0].expression)
    else FirstPathToken(kinds[1..])
  }

  lemma {:induction false} FirstPathTokenConcat(a: seq<Kind>, b: seq<Kind>)
    ensures FirstPathToken(a + b) == OrElse(FirstPathToken(a), FirstPathToken(b))
    decreases |a|
  {
    if a == [] {
      assert a + b == b;
    } else {
      assert (a + b)[1..] == a[1..] + b;
      FirstPathTokenConcat(a[1..], b);
    }
  }

  lemma FirstPathAround(a: seq<Kind>, kind: Kind, b: seq<Kind>)
    requires !kind.PathLit?
    ensures FirstPathToken(a + ([kind] + b)) == OrElse(FirstPathToken(a), FirstPathToken(b))
  {
    FirstPathTokenConcat([kind], b);
    FirstPathTokenConcat(a, [kind] + b);
  }

  lemma {:induction false} FirstPathIsFirstToken(e: Expr)
    ensures FirstPath(e) == FirstPathToken(Print(e))
    decreases e, 1
  {
    match e
    case OrExpr(left, right) =>
      FirstPathIsFirstToken(left);
      FirstPathIsFirstToken(right);
      FirstPathAround(Print(left), Or, Print(right));
    case AndExpr(left, right) =>
      FirstPathIsFirstToken(left);
      FirstPathIsFirstToken(right);
      FirstPathAround(Print(left), And, Print(right));
    case NotExpr(operand) =>
      FirstPathIsFirstToken(operand);
      FirstPathTokenConcat([Not], Print(operand));
    case CompareExpr(op, lhs, rhs) =>
      OperandFirstPath(lhs);
      OperandFirstPath(rhs);
      FirstPathAround(PrintOperand(lhs), ComparisonToken(op), PrintOperand(rhs));
    case ExistsExpr(subject) =>
      OperandFirstPath(subject);
      FirstPathTokenConcat(PrintOperand(subject), [Exists]);
    case ValueExpr(value) =>
      OperandFirstPath(value);
  }

  lemma {:induction false} OperandFirstPath(v: Operand)
    ensures FirstPathOf(v) == FirstPathToken(PrintOperand(v))
    decreases v, 0
  {
    match v
    case PathOperand(expression, segments) =>
    case Literal(value) =>
    case Group(node) =>
      FirstPathIsFirstToken(node);
      FirstPathTokenConcat(Print(node), [RParen]);
      FirstPathTokenConcat([LParen], Print(node) + [RParen]);
  }

  /** firstPathOperand reports the first path token of the source. */
  lemma FirstPathOperandIsFirstInSource(source: string)
    requires ExpressionOf(source).Ok?
    ensures TokensFrom(source, 0).Ok?
    ensures FirstPath(ExpressionOf(source).value) == FirstPathToken(Kinds(TokensFrom(source, 0).value))
  {
    var e := ExpressionOf(source).value;
    ParsedExactlyWhenPrinted(source, e);
    FirstPathIsFirstToken(e);
    FirstPathTokenConcat(Print(e), [Eof]);
  }
}
