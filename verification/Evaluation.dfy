/**
 Evaluating predicates (expression.ts: readValue, compare, evaluate). An operand is seen only through
 its type, its scalar value and, for objects, its identity; a scope is what its paths read as.
 */
module Evaluation {
  import opened Prelude
  import opened Text
  import opened Json
  import opened Paths
  import opened Tokens
  import opened Parser

  /** A value read from a scope; missing and undefined paths read as null. */
  datatype Reading =
    | NullRead
    | BoolRead(flag: bool)
    | NumberRead(number: real)
    | TextRead(text: string)
    | ObjectRead(identity: nat)

  /** lookupPath(scope, segments).value ?? null, for every path. */
  type Scope = seq<Segment> -> Reading

  // ----- Numbers and text order -----

  function Pow10(n: nat): (r: real)
    ensures 0.0 < r
  {
    if n == 0 then 1.0 else 10.0 * Pow10(n - 1)
  }

  function UnsignedValue(s: string): real {
    var whole := RunEnd(Digit, s, 0);
    RunIsInClass(Digit, s, 0);
    var integer := NumeralValue(s[0..whole]) as real;
    if whole == |s| then integer
    else
      var end := RunEnd(Digit, s, whole + 1);
      RunIsInClass(Digit, s, whole + 1);
      integer + NumeralValue(s[whole + 1..end]) as real / Pow10(end - whole - 1)
  }

  /** Number(lexeme) before rounding. */
  function NumberOf(lexeme: string): real {
    if lexeme != "" && lexeme[0] == '-' then -UnsignedValue(lexeme[1..]) else UnsignedValue(lexeme)
  }

  /** a < b on strings: by the first differing code unit, then by length. */
  predicate TextLess(a: string, b: string)
    decreases |a|
  {
    b != "" && (a == "" || Unit(a[0]) < Unit(b[0]) || (a[0] == b[0] && TextLess(a[1..], b[1..])))
  }

  lemma {:induction false} TextOrderIsTotal(a: string, b: string)
    ensures TextLess(a, b) ==> a != b && !TextLess(b, a)
    ensures a != b ==> TextLess(a, b) || TextLess(b, a)
    decreases |a|
  {
    if a != "" && b != "" {
      if a[0] == b[0] {
        TextOrderIsTotal(a[1..], b[1..]);
        assert a == [a[0]] + a[1..] && b == [b[0]] + b[1..];
      }
    }
  }

  // ----- evaluate -----

  function ReadScalar(v: Scalar): Reading {
    match v
    case NumberValue(lexeme) => NumberRead(NumberOf(lexeme))
    case StringValue(text) => TextRead(text)
    case TrueValue => BoolRead(true)
    case FalseValue => BoolRead(false)
    case NullValue => NullRead
  }

  predicate Comparable(left: Reading, right: Reading) {
    (left.NumberRead? && right.NumberRead?) || (left.TextRead? && right.TextRead?)
  }

  predicate Below(left: Reading, right: Reading)
    requires Comparable(left, right)
  {
    if left.NumberRead? then left.number < right.number else TextLess(left.text, right.text)
  }

  predicate Compare(op: Comparison, left: Reading, right: Reading) {
    match op
    case Equal => left == right
    case NotEqual => left != right
    case Greater => Comparable(left, right) && Below(right, left)
    case GreaterEqual => Comparable(left, right) && (Below(right, left) || left == right)
    case Less => Comparable(left, right) && Below(left, right)
    case LessEqual => Comparable(left, right) && (Below(left, right) || left == right)
  }

  function ReadValue(v: Operand, scope: Scope): Reading
    decreases v, 0
  {
    match v
    case PathOperand(_, segments) => scope(segments)
    case Literal(value) => ReadScalar(value)
    case Group(node) => BoolRead(Evaluate(node, scope))
  }

  predicate Evaluate(e: Expr, scope: Scope)
    decreases e, 1
  {
    match e
    case OrExpr(left, right) => Evaluate(left, scope) || Evaluate(right, scope)
    case AndExpr(left, right) => Evaluate(left, scope) && Evaluate(right, scope)
    case NotExpr(operand) => !Evaluate(operand, scope)
    case CompareExpr(op, lhs, rhs) => Compare(op, ReadValue(lhs, scope), ReadValue(rhs, scope))
    case ExistsExpr(subject) => ReadValue(subject, scope) != NullRead
    case ValueExpr(value) => ReadValue(value, scope) != NullRead && ReadValue(value, scope) != BoolRead(false)
  }

  function EvaluatePredicate(source: string, scope: Scope): Result<bool, SyntaxError> {
    match ExpressionOf(source)
    case Err(error) => Err(error)
    case Ok(e) => Ok(Evaluate(e, scope))
  }

  // ----- What a predicate depends on -----

  /** The scopes read alike at every path token of the list. */
  ghost predicate AgreeOn(kinds: seq<Kind>, a: Scope, b: Scope) {
    forall i :: 0 <= i < |kinds| && kinds[i].PathLit? ==> a(kinds[i].segments) == b(kinds[i].segments)
  }

  lemma AgreeConcat(x: seq<Kind>, y: seq<Kind>, a: Scope, b: Scope)
    ensures AgreeOn(x + y, a, b) <==> AgreeOn(x, a, b) && AgreeOn(y, a, b)
  {
    var xy := x + y;
    assert forall i :: 0 <= i < |x| ==> xy[i] == x[i];
    assert forall i :: 0 <= i < |y| ==> y[i] == xy[|x| + i];
    assert forall i :: |x| <= i < |xy| ==> xy[i] == y[i - |x|];
  }

  lemma AgreeAround(x: seq<Kind>, kind: Kind, y: seq<Kind>, a: Scope, b: Scope)
    requires AgreeOn(x + ([kind] + y), a, b)
    ensures AgreeOn(x, a, b) && AgreeOn(y, a, b)
  {
    AgreeConcat(x, [kind] + y, a, b);
    AgreeConcat([kind], y, a, b);
  }

  lemma {:induction false} EvaluateDependsOnPaths(e: Expr, a: Scope, b: Scope)
    requires AgreeOn(Print(e), a, b)
    ensures Evaluate(e, a) == Evaluate(e, b)
    decreases e, 1
  {
    match e
    case OrExpr(left, right) =>
      AgreeAround(Print(left), Or, Print(right), a, b);
      EvaluateDependsOnPaths(left, a, b);
      EvaluateDependsOnPaths(right, a, b);
    case AndExpr(left, right) =>
      AgreeAround(Print(left), And, Print(right), a, b);
      EvaluateDependsOnPaths(left, a, b);
      EvaluateDependsOnPaths(right, a, b);
    case NotExpr(operand) =>
      AgreeConcat([Not], Print(operand), a, b);
      EvaluateDependsOnPaths(operand, a, b);
    case CompareExpr(op, lhs, rhs) =>
      AgreeAround(PrintOperand(lhs), ComparisonToken(op), PrintOperand(rhs), a, b);
      ReadingDependsOnPaths(lhs, a, b);
      ReadingDependsOnPaths(rhs, a, b);
    case ExistsExpr(subject) =>
      AgreeConcat(PrintOperand(subject), [Exists], a, b);
      ReadingDependsOnPaths(subject, a, b);
    case ValueExpr(value) =>
      ReadingDependsOnPaths(value, a, b);
  }

  lemma {:induction false} ReadingDependsOnPaths(v: Operand, a: Scope, b: Scope)
    requires AgreeOn(PrintOperand(v), a, b)
    ensures ReadValue(v, a) == ReadValue(v, b)
    decreases v, 0
  {
    match v
    case PathOperand(expression, segments) =>
      assert PrintOperand(v)[0] == PathLit(expression, segments);
    case Literal(_) =>
    case Group(node) =>
      AgreeConcat([LParen], Print(node) + [RParen], a, b);
      AgreeConcat(Print(node), [RParen], a, b);
      EvaluateDependsOnPaths(node, a, b);
  }

  /** The result of a predicate is determined by what the path tokens of its source read as. */
  lemma PredicateDependsOnItsPaths(source: string, a: Scope, b: Scope)
    requires TokensFrom(source, 0).Ok? ==> AgreeOn(Kinds(TokensFrom(source, 0).value), a, b)
    ensures EvaluatePredicate(source, a) == EvaluatePredicate(source, b)
  {
    if ExpressionOf(source).Ok? {
      var e := ExpressionOf(source).value;
      ParsedExactlyWhenPrinted(source, e);
      AgreeConcat(Print(e), [Eof], a, b);
      EvaluateDependsOnPaths(e, a, b);
    }
  }

  // ----- Scopes that are values -----

  /** What a path's operand is: a missing or undefined value reads as null, an object as its identity. */
  function ReadingOf(found: Option<Value>, identity: nat): Reading {
    match found
    case None => NullRead
    case Some(value) =>
      match value
      case Bool(flag) => BoolRead(flag)
      case Num(number) => NumberRead(number)
      case Str(text) => TextRead(text)
      case Arr(_) => ObjectRead(identity)
      case Obj(_) => ObjectRead(identity)
      case _ => NullRead
  }

  /** The scope that lookupPath makes of a value; identity tells which objects its paths share. */
  function ScopeIn(root: Value, identity: seq<Segment> -> nat): Scope {
    (segments: seq<Segment>) =>
      if AllPlain(segments) then ReadingOf(Lookup(root, segments), identity(segments)) else NullRead
  }

  /** Two objects that differ at most in the property of this name. */
  ghost predicate SameBut(a: Value, b: Value, name: string) {
    a.Obj? && b.Obj? && forall key :: key != name ==> EntryOf(a.entries, key) == EntryOf(b.entries, key)
  }

  lemma SameReading(a: Value, b: Value, identity: seq<Segment> -> nat, name: string, segments: seq<Segment>)
    requires SameBut(a, b, name) && HasValidRoot(segments) && segments[0].name != name
    ensures ScopeIn(a, identity)(segments) == ScopeIn(b, identity)(segments)
  {
    if AllPlain(segments) {
      assert OwnProperty(a, segments[0]) == OwnProperty(b, segments[0]);
      assert Lookup(a, segments) == Lookup(b, segments);
    }
  }

  /** A predicate none of whose path tokens starts with a namespace cannot see what is in that namespace. */
  lemma UnreadNamespaceIsInvisible(source: string, a: Value, b: Value, identity: seq<Segment> -> nat, name: string)
    requires SameBut(a, b, name)
    requires TokensFrom(source, 0).Ok? ==>
               forall i :: 0 <= i < |TokensFrom(source, 0).value| ==>
                 var kind := TokensFrom(source, 0).value[i].kind;
                 kind.PathLit? && kind.segments != [] && kind.segments[0].Key? ==> kind.segments[0].name != name
    ensures EvaluatePredicate(source, ScopeIn(a, identity)) == EvaluatePredicate(source, ScopeIn(b, identity))
  {
    if TokensFrom(source, 0).Ok? {
      var ts := TokensFrom(source, 0).value;
      TokensAreWritable(source, 0);
      forall i | 0 <= i < |Kinds(ts)| && Kinds(ts)[i].PathLit?
        ensures ScopeIn(a, identity)(Kinds(ts)[i].segments) == ScopeIn(b, identity)(Kinds(ts)[i].segments)
      {
        assert Kinds(ts)[i] == ts[i].kind;
        SameReading(a, b, identity, name, ts[i].kind.segments);
      }
    }
    PredicateDependsOnItsPaths(source, ScopeIn(a, identity), ScopeIn(b, identity));
  }

  // ----- Comparison laws -----

  /** Negating an order comparison reverses it exactly when both sides are numbers or both are strings. */
  lemma NegatedOrder(left: Reading, right: Reading)
    ensures (Compare(Greater, left, right) == !Compare(LessEqual, left, right)) <==> Comparable(left, right)
    ensures (Compare(Less, left, right) == !Compare(GreaterEqual, left, right)) <==> Comparable(left, right)
  {
    if left.TextRead? && right.TextRead? {
      TextOrderIsTotal(left.text, right.text);
    }
  }

  /** Exactly one of <, == and > holds between comparable values, and none of < and > between others. */
  lemma Trichotomy(left: Reading, right: Reading)
    ensures !(Compare(Less, left, right) && Compare(Greater, left, right))
    ensures Compare(Less, left, right) || Compare(Greater, left, right) ==> !Compare(Equal, left, right)
    ensures Comparable(left, right) <==>
              || Compare(Less, left, right) || Compare(Greater, left, right)
              || (Compare(Equal, left, right) && Comparable(left, left))
  {
    if left.TextRead? && right.TextRead? {
      TextOrderIsTotal(left.text, right.text);
    }
  }
}
