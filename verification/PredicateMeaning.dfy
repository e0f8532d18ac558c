/**
 What a predicate (expression.ts) says: a disjunction of conjunctions of possibly negated tests, and
 what each test holds of the values read, down to the order of the numbers and texts written.
 */
module PredicateMeaning {
  import opened Prelude
  import opened Text
  import opened Paths
  import opened Tokens
  import opened Parser
  import opened Evaluation
  import Lexing

  // ----- From the text -----

  /** A source is the predicate e if and only if it is covered by the tokens of e, each the longest that stands. */
  lemma SourceIsPredicateExactlyWhen(source: string, e: Expr)
    ensures ExpressionOf(source) == Ok(e)
       <==> OrShape(e) && exists tokens :: Lexing.IsLexed(source, 0, tokens) && Kinds(tokens) == Print(e) + [Eof]
  {
    ParsedExactlyWhenPrinted(source, e);
    if ExpressionOf(source) == Ok(e) {
      Lexing.TokenizedExactlyWhenLexed(source, TokensFrom(source, 0).value);
    }
    hide ExpressionOf;
    if tokens :| Lexing.IsLexed(source, 0, tokens) && Kinds(tokens) == Print(e) + [Eof] {
      Lexing.TokenizedExactlyWhenLexed(source, tokens);
    }
  }

  // ----- Connectives -----

  /** The operands of the outermost `||`s, in order. */
  function Alternatives(e: Expr): seq<Expr> {
    if e.OrExpr? then Alternatives(e.left) + Alternatives(e.right) else [e]
  }

  /** The operands of the outermost `&&`s, in order. */
  function Conjuncts(e: Expr): seq<Expr> {
    if e.AndExpr? then Conjuncts(e.left) + Conjuncts(e.right) else [e]
  }

  predicate AllHold(es: seq<Expr>, scope: Scope) {
    forall i :: 0 <= i < |es| ==> Evaluate(es[i], scope)
  }

  predicate OneHolds(es: seq<Expr>, scope: Scope) {
    exists i :: 0 <= i < |es| && Evaluate(es[i], scope)
  }

  lemma OneHoldsConcat(a: seq<Expr>, b: seq<Expr>, scope: Scope)
    ensures OneHolds(a + b, scope) <==> OneHolds(a, scope) || OneHolds(b, scope)
  {
    var ab := a + b;
    if OneHolds(a, scope) {
      var i :| 0 <= i < |a| && Evaluate(a[i], scope);
      assert ab[i] == a[i];
    }
    if OneHolds(b, scope) {
      var i :| 0 <= i < |b| && Evaluate(b[i], scope);
      assert ab[|a| + i] == b[i];
    }
    assert forall i :: |a| <= i < |ab| ==> ab[i] == b[i - |a|];
  }

  lemma AllHoldConcat(a: seq<Expr>, b: seq<Expr>, scope: Scope)
    ensures AllHold(a + b, scope) <==> AllHold(a, scope) && AllHold(b, scope)
  {
    var ab := a + b;
    assert forall i :: 0 <= i < |a| ==> ab[i] == a[i];
    assert forall i :: 0 <= i < |b| ==> b[i] == ab[|a| + i];
    assert forall i :: |a| <= i < |ab| ==> ab[i] == b[i - |a|];
  }

  lemma {:induction false} OrIsOneOf(e: Expr, scope: Scope)
    ensures Evaluate(e, scope) <==> OneHolds(Alternatives(e), scope)
  {
    if e.OrExpr? {
      OrIsOneOf(e.left, scope);
      OrIsOneOf(e.right, scope);
      OneHoldsConcat(Alternatives(e.left), Alternatives(e.right), scope);
    } else {
      assert Alternatives(e)[0] == e;
    }
  }

  lemma {:induction false} AndIsAllOf(e: Expr, scope: Scope)
    ensures Evaluate(e, scope) <==> AllHold(Conjuncts(e), scope)
  {
    if e.AndExpr? {
      AndIsAllOf(e.left, scope);
      AndIsAllOf(e.right, scope);
      AllHoldConcat(Conjuncts(e.left), Conjuncts(e.right), scope);
    } else {
      assert Conjuncts(e)[0] == e;
    }
  }

  /** A predicate holds if and only if all conjuncts of one of its alternatives hold. */
  lemma HoldsExactlyWhenOneAlternativeDoes(e: Expr, scope: Scope)
    ensures Evaluate(e, scope)
       <==> exists i :: 0 <= i < |Alternatives(e)| && AllHold(Conjuncts(Alternatives(e)[i]), scope)
  {
    OrIsOneOf(e, scope);
    forall i | 0 <= i < |Alternatives(e)|
      ensures Evaluate(Alternatives(e)[i], scope) <==> AllHold(Conjuncts(Alternatives(e)[i]), scope)
    {
      AndIsAllOf(Alternatives(e)[i], scope);
    }
  }

  predicate IsTest(e: Expr) {
    e.CompareExpr? || e.ExistsExpr? || e.ValueExpr?
  }

  /** The test under the leading `!`s, and how many there are. */
  function Negations(e: Expr): nat {
    if e.NotExpr? then 1 + Negations(e.operand) else 0
  }

  function TestOf(e: Expr): Expr {
    if e.NotExpr? then TestOf(e.operand) else e
  }

  /** An odd number of negations turns the test around, an even number does not. */
  lemma {:induction false} NegationsAlternate(e: Expr, scope: Scope)
    ensures Evaluate(e, scope) <==> (Evaluate(TestOf(e), scope) <==> Negations(e) % 2 == 0)
  {
    if e.NotExpr? {
      NegationsAlternate(e.operand, scope);
    }
  }

  /** In a parsed predicate every conjunct is a test under negations. */
  lemma {:induction false} ConjunctsAreTests(e: Expr)
    requires AndShape(e)
    ensures forall i :: 0 <= i < |Conjuncts(e)| ==> IsTest(TestOf(Conjuncts(e)[i]))
  {
    if e.AndExpr? {
      ConjunctsAreTests(e.left);
      ConjunctsAreTests(e.right);
    } else {
      NegatedTest(e);
    }
  }

  lemma {:induction false} NegatedTest(e: Expr)
    requires NotShape(e)
    ensures IsTest(TestOf(e)) && !e.AndExpr? && !e.OrExpr?
  {
    if e.NotExpr? {
      NegatedTest(e.operand);
    }
  }

  // ----- Tests -----

  /** Every value but null makes `exists` hold, and every value but null and false a bare value. */
  lemma TestMeaning(v: Operand, scope: Scope)
    ensures !Evaluate(ExistsExpr(v), scope) <==> ReadValue(v, scope).NullRead?
    ensures !Evaluate(ValueExpr(v), scope) <==>
              var r := ReadValue(v, scope); r.NullRead? || (r.BoolRead? && !r.flag)
  {
  }

  /** A path reads as the scope says, and parentheses as the truth value of what they hold. */
  lemma OperandMeaning(e: Expr, scope: Scope)
    ensures var r := ReadValue(Group(e), scope); r.BoolRead? && (r.flag <==> Evaluate(e, scope))
    ensures Evaluate(ValueExpr(Group(e)), scope) <==> Evaluate(e, scope)
    ensures Evaluate(ExistsExpr(Group(e)), scope)
    ensures forall expression, segments :: ReadValue(PathOperand(expression, segments), scope) == scope(segments)
  {
  }

  /** What a literal token reads as. */
  lemma LiteralMeaning(kind: Kind)
    requires ScalarOf(kind).Some?
    ensures var r := ReadScalar(ScalarOf(kind).value);
            match kind
            case NumberLit(lexeme) => r == NumberRead(NumberOf(lexeme))
            case StringLit(text) => r == TextRead(text)
            case True => r == BoolRead(true)
            case False => r == BoolRead(false)
            case _ => kind == Null && r == NullRead
  {
  }

  /** What the comparison a symbol stands for holds of two readings. */
  lemma ComparisonMeaning(kind: Kind, left: Reading, right: Reading)
    requires ComparisonOf(kind).Some?
    ensures var holds := Compare(ComparisonOf(kind).value, left, right);
            match kind
            case Eq => holds <==> left == right
            case Neq => holds <==> left != right
            case Lt => holds <==> IsLess(left, right)
            case Gt => holds <==> IsLess(right, left)
            case Lte => holds <==> IsLess(left, right) || (IsOrdered(left) && left == right)
            case Gte => holds <==> IsLess(right, left) || (IsOrdered(left) && left == right)
            case _ => false
  {
    if left.TextRead? && right.TextRead? {
      TextLessMeaning(left.text, right.text);
      TextLessMeaning(right.text, left.text);
    }
  }

  predicate IsOrdered(r: Reading) {
    r.NumberRead? || r.TextRead?
  }

  /** The order of the numbers, or of the texts; nothing else is ordered. */
  ghost predicate IsLess(left: Reading, right: Reading) {
    || (left.NumberRead? && right.NumberRead? && left.number < right.number)
    || (left.TextRead? && right.TextRead? && exists k: nat :: DiffersAt(left.text, right.text, k))
  }

  /** Up to k the texts agree, and there a ends or has the smaller code unit. */
  predicate DiffersAt(a: string, b: string, k: nat) {
    && k <= |a| && k < |b| && (forall i :: 0 <= i < k ==> a[i] == b[i])
    && (k == |a| || Unit(a[k]) < Unit(b[k]))
  }

  lemma {:induction false} TextLessMeaning(a: string, b: string)
    ensures TextLess(a, b) <==> exists k: nat :: DiffersAt(a, b, k)
    decreases |a|
  {
    if a == "" {
      if b != "" {
        assert DiffersAt(a, b, 0);
      }
    } else if b != "" {
      if a[0] == b[0] {
        TextLessMeaning(a[1..], b[1..]);
        if TextLess(a[1..], b[1..]) {
          var k: nat :| DiffersAt(a[1..], b[1..], k);
          assert forall i :: 1 <= i < k + 1 ==> a[i] == a[1..][i - 1] && b[i] == b[1..][i - 1];
          assert DiffersAt(a, b, k + 1);
        }
        if exists k: nat :: DiffersAt(a, b, k) {
          var k: nat :| DiffersAt(a, b, k);
          assert k != 0;
          assert DiffersAt(a[1..], b[1..], k - 1);
        }
      } else if Unit(a[0]) < Unit(b[0]) {
        assert DiffersAt(a, b, 0);
      } else {
        assert forall k: nat :: DiffersAt(a, b, k) ==> k == 0 || a[0] == b[0];
      }
    }
  }

  // ----- Numbers -----

  /** 10 to the n, as the number written 1 and n zeros. */
  lemma {:induction false} PowerIsOneAndZeros(n: nat)
    ensures var zeros := seq(n, _ => '0');
            All(Digit, ['1'] + zeros) && NumeralValue(['1'] + zeros) as real == Pow10(n)
  {
    var written := ['1'] + seq(n, _ => '0');
    if n == 0 {
      assert written == ['1'] && written[..0] == "" && written[0] == '1';
    } else {
      PowerIsOneAndZeros(n - 1);
      assert written[..n] == ['1'] + seq(n - 1, _ => '0');
      assert written[n] == '0';
    }
  }

  /** A numeral is the number it writes. */
  lemma WholeNumber(n: nat)
    ensures NumberOf(Numeral(n)) == n as real
  {
    var s := Numeral(n);
    assert s[0..|s|] == s;
    NumeralIsRead(s, 0, |s|);
  }

  /** A numeral with a fraction is the whole plus the digits after the point over as many powers of ten. */
  lemma FractionNumber(whole: string, fraction: string)
    requires IsNumeral(whole) && IsNumeral(fraction)
    ensures NumberOf(whole + "." + fraction)
         == NumeralValue(whole) as real + NumeralValue(fraction) as real / Pow10(|fraction|)
  {
    var s, n := whole + "." + fraction, |whole|;
    assert s[0..n] == whole && s[n] == '.' && s[n + 1..|s|] == fraction;
    NumeralIsRead(s, 0, n);
    NumeralIsRead(s, n + 1, |s|);
    assert NumberOf(s) == UnsignedValue(s);
  }

  /** A minus sign negates. */
  lemma NegativeNumber(unsigned: string)
    requires IsUnsigned(unsigned)
    ensures NumberOf("-" + unsigned) == -NumberOf(unsigned)
  {
    assert ("-" + unsigned)[1..] == unsigned;
    if IsNumeral(unsigned) {
      assert Matches(unsigned[0], Digit);
    } else {
      var d :| 0 < d < |unsigned| - 1 && unsigned[d] == '.' && IsNumeral(unsigned[0..d]);
      assert Matches(unsigned[0..d][0], Digit);
    }
  }
}
