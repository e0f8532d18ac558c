/**
 Where parsing a predicate fails (expression.ts): at the first token that no predicate can have there, with a
 complaint that says what could have stood instead. The parser is compared with a reader that goes through the
 tokens once and only remembers where it is and which parentheses are open.
 */
module SyntaxErrors {
  import opened Prelude
  import opened Tokens
  import opened Parser

  /** Before or after an operand; left: one that a comparison or `exists` may follow. */
  datatype Place = Before(left: bool) | After(left: bool)

  /** open: for each open parenthesis, whether the operand it belongs to is a left one. */
  datatype Reader = Reader(place: Place, open: seq<bool>) | Stuck

  function Next(r: Reader, kind: Kind): Reader {
    match r
    case Stuck => Stuck
    case Reader(Before(left), open) =>
      if kind == Not && left then r
      else if kind.PathLit? || ScalarOf(kind).Some? then Reader(After(left), open)
      else if kind == LParen then Reader(Before(true), open + [left])
      else Stuck
    case Reader(After(left), open) =>
      if kind == And || kind == Or then Reader(Before(true), open)
      else if left && kind == Exists then Reader(After(false), open)
      else if left && ComparisonOf(kind).Some? then Reader(Before(false), open)
      else if kind == RParen && open != [] then Reader(After(open[|open| - 1]), open[..|open| - 1])
      else Stuck
  }

  /** After the first p tokens. */
  function At(kinds: seq<Kind>, p: nat): Reader
    requires p <= |kinds|
  {
    if p == 0 then Reader(Before(true), []) else Next(At(kinds, p - 1), kinds[p - 1])
  }

  predicate IsComplete(r: Reader) {
    r.Reader? && r.place.After? && r.open == []
  }

  /** The reader cannot take the token, and the text does not end well there either. */
  predicate Refuses(r: Reader, kind: Kind) {
    r.Reader? && Next(r, kind).Stuck? && !(kind == Eof && IsComplete(r))
  }

  function Complaint(r: Reader, kind: Kind): Problem
    requires r.Reader?
  {
    if r.place.Before? then ExpectedValue(kind) else if r.open != [] then ExpectedParen else UnexpectedToken(kind)
  }

  predicate StopsAt(ts: seq<Token>, k: nat, error: SyntaxError) {
    && k < |ts| && Refuses(At(Kinds(ts), k), ts[k].kind)
    && error == SyntaxError(Complaint(At(Kinds(ts), k), ts[k].kind), ts[k].start)
  }

  ghost predicate Stops(ts: seq<Token>, error: SyntaxError) {
    exists k :: StopsAt(ts, k, error)
  }

  // ----- Parser and reader go together -----

  /** The reader is past a test that the token at q does not continue. */
  predicate PastTest(ts: seq<Token>, q: nat, open: seq<bool>) {
    && q < |ts|
    && var r := At(Kinds(ts), q);
       && r.Reader? && r.open == open && r.place.After?
       && (r.place.left ==> ts[q].kind != Exists && ComparisonOf(ts[q].kind).None?)
  }

  lemma NextAt(ts: seq<Token>, p: nat)
    requires p < |ts|
    ensures At(Kinds(ts), p + 1) == Next(At(Kinds(ts), p), ts[p].kind)
  {
  }

  lemma {:induction false} ScalarReads(ts: seq<Token>, p: nat, left: bool, open: seq<bool>)
    requires p < |ts| && At(Kinds(ts), p) == Reader(Before(left), open) && ts[p].kind != LParen
    ensures if ts[p].kind.PathLit? || ScalarOf(ts[p].kind).Some?
            then At(Kinds(ts), p + 1) == Reader(After(left), open)
            else ts[p].kind != Not || !left ==> Stops(ts, SyntaxError(ExpectedValue(ts[p].kind), ts[p].start))
  {
    NextAt(ts, p);
    hide At;
    if !ts[p].kind.PathLit? && ScalarOf(ts[p].kind).None? && (ts[p].kind != Not || !left) {
      assert StopsAt(ts, p, SyntaxError(ExpectedValue(ts[p].kind), ts[p].start));
    }
  }

  lemma {:induction false} ParenOpens(ts: seq<Token>, p: nat, left: bool, open: seq<bool>)
    requires p < |ts| && At(Kinds(ts), p) == Reader(Before(left), open) && ts[p].kind == LParen
    ensures At(Kinds(ts), p + 1) == Reader(Before(true), open + [left])
  {
    NextAt(ts, p);
  }

  /** The parser looks for an operand where no `!` is left. */
  lemma {:induction false} ValueReads(ts: seq<Token>, p: nat, left: bool, open: seq<bool>)
    requires Terminated(ts) && p < |ts| && At(Kinds(ts), p) == Reader(Before(left), open)
    requires left ==> ts[p].kind != Not
    ensures ValueAt(ts, p).Node? ==> At(Kinds(ts), ValueAt(ts, p).next) == Reader(After(left), open)
    ensures ValueAt(ts, p).Fail? ==> Stops(ts, ValueAt(ts, p).error)
    decreases |ts| - p, 0
  {
    hide At, Stops, Next, PastTest;
    if ts[p].kind == LParen {
      ParenOpens(ts, p, left, open);
      OrReads(ts, p + 1, open + [left]);
      hide OrAt;
      if OrAt(ts, p + 1).Node? {
        ParenReads(ts, OrAt(ts, p + 1).next, left, open);
      }
    } else {
      ScalarReads(ts, p, left, open);
    }
  }

  /** After the predicate in a group: a closing parenthesis, or the parser complains that it is missing. */
  lemma {:induction false} ParenReads(ts: seq<Token>, q: nat, left: bool, open: seq<bool>)
    requires PastTest(ts, q, open + [left]) && ts[q].kind != And && ts[q].kind != Or
    ensures ts[q].kind == RParen ==> At(Kinds(ts), q + 1) == Reader(After(left), open)
    ensures ts[q].kind != RParen ==> Stops(ts, SyntaxError(ExpectedParen, ts[q].start))
  {
    var inner := open + [left];
    assert inner[|inner| - 1] == left && inner[..|inner| - 1] == open;
    if ts[q].kind == RParen {
      assert At(Kinds(ts), q + 1) == Next(At(Kinds(ts), q), ts[q].kind);
    } else {
      assert StopsAt(ts, q, SyntaxError(ExpectedParen, ts[q].start));
    }
  }

  lemma {:induction false} TestReads(ts: seq<Token>, p: nat, open: seq<bool>)
    requires Terminated(ts) && p < |ts| && At(Kinds(ts), p) == Reader(Before(true), open) && ts[p].kind != Not
    ensures ComparisonAt(ts, p).Node? ==> PastTest(ts, ComparisonAt(ts, p).next, open)
    ensures ComparisonAt(ts, p).Fail? ==> Stops(ts, ComparisonAt(ts, p).error)
    decreases |ts| - p, 1
  {
    hide Stops, ValueAt, At, Next, PastTest, ComparisonOf;
    ValueReads(ts, p, true, open);
    match ValueAt(ts, p)
    case Fail(error) =>
      assert ComparisonAt(ts, p) == Fail(error);
    case Node(left, q) =>
      OperandIsFollowed(ts, q, open);
      if ts[q].kind == Exists {
        assert ComparisonAt(ts, p) == Node(ExistsExpr(left), q + 1);
      } else if ComparisonOf(ts[q].kind).None? {
        assert ComparisonAt(ts, p) == Node(ValueExpr(left), q);
      } else {
        ValueReads(ts, q + 1, false, open);
        RightSideEnds(ts, q + 1, open);
      }
  }

  /** A left operand is followed by `exists`, by a comparison, or by what comes after the test. */
  lemma {:induction false} OperandIsFollowed(ts: seq<Token>, q: nat, open: seq<bool>)
    requires Terminated(ts) && q < |ts| && At(Kinds(ts), q) == Reader(After(true), open)
    ensures ts[q].kind == Exists ==> PastTest(ts, q + 1, open)
    ensures ts[q].kind != Exists && ComparisonOf(ts[q].kind).Some? ==>
              q + 1 < |ts| && At(Kinds(ts), q + 1) == Reader(Before(false), open)
    ensures ts[q].kind != Exists && ComparisonOf(ts[q].kind).None? ==> PastTest(ts, q, open)
  {
    NextAt(ts, q);
  }

  lemma {:induction false} RightSideEnds(ts: seq<Token>, p: nat, open: seq<bool>)
    requires Terminated(ts) && p < |ts|
    requires ValueAt(ts, p).Node? ==> At(Kinds(ts), ValueAt(ts, p).next) == Reader(After(false), open)
    ensures ValueAt(ts, p).Node? ==> PastTest(ts, ValueAt(ts, p).next, open)
  {
  }

  lemma {:induction false} NotReads(ts: seq<Token>, p: nat, open: seq<bool>)
    requires Terminated(ts) && p < |ts| && At(Kinds(ts), p) == Reader(Before(true), open)
    ensures NotAt(ts, p).Node? ==> PastTest(ts, NotAt(ts, p).next, open)
    ensures NotAt(ts, p).Fail? ==> Stops(ts, NotAt(ts, p).error)
    decreases |ts| - p, 2
  {
    hide Stops, PastTest, ComparisonAt, Kinds;
    if ts[p].kind == Not {
      NextAt(ts, p);
      NotReads(ts, p + 1, open);
    } else {
      TestReads(ts, p, open);
    }
  }

  /** `&&` and `||` lead to another operand. */
  lemma {:induction false} ConnectiveReads(ts: seq<Token>, p: nat, open: seq<bool>)
    requires PastTest(ts, p, open) && (ts[p].kind == And || ts[p].kind == Or)
    ensures At(Kinds(ts), p + 1) == Reader(Before(true), open)
  {
    assert At(Kinds(ts), p + 1) == Next(At(Kinds(ts), p), ts[p].kind);
  }

  lemma {:induction false} AndLoopReads(ts: seq<Token>, node: Expr, p: nat, open: seq<bool>)
    requires Terminated(ts) && PastTest(ts, p, open)
    ensures AndLoop(ts, node, p).Node? ==>
              var q := AndLoop(ts, node, p).next; PastTest(ts, q, open) && ts[q].kind != And
    ensures AndLoop(ts, node, p).Fail? ==> Stops(ts, AndLoop(ts, node, p).error)
    decreases |ts| - p, 3
  {
    if ts[p].kind == And {
      ConnectiveReads(ts, p, open);
      NotReads(ts, p + 1, open);
      hide Stops, NotAt;
      match NotAt(ts, p + 1)
      case Fail(_) =>
      case Node(right, q) => AndLoopReads(ts, AndExpr(node, right), q, open);
    }
  }

  lemma {:induction false} AndReads(ts: seq<Token>, p: nat, open: seq<bool>)
    requires Terminated(ts) && p < |ts| && At(Kinds(ts), p) == Reader(Before(true), open)
    ensures AndAt(ts, p).Node? ==>
              var q := AndAt(ts, p).next; PastTest(ts, q, open) && ts[q].kind != And
    ensures AndAt(ts, p).Fail? ==> Stops(ts, AndAt(ts, p).error)
    decreases |ts| - p, 4
  {
    NotReads(ts, p, open);
    hide Stops, NotAt, AndLoop;
    match NotAt(ts, p)
    case Fail(_) =>
    case Node(node, q) => AndLoopReads(ts, node, q, open);
  }

  lemma {:induction false} OrLoopReads(ts: seq<Token>, node: Expr, p: nat, open: seq<bool>)
    requires Terminated(ts) && PastTest(ts, p, open) && ts[p].kind != And
    ensures OrLoop(ts, node, p).Node? ==>
              var q := OrLoop(ts, node, p).next; PastTest(ts, q, open) && ts[q].kind != And && ts[q].kind != Or
    ensures OrLoop(ts, node, p).Fail? ==> Stops(ts, OrLoop(ts, node, p).error)
    decreases |ts| - p, 5
  {
    if ts[p].kind == Or {
      ConnectiveReads(ts, p, open);
      AndReads(ts, p + 1, open);
      hide Stops, AndAt;
      match AndAt(ts, p + 1)
      case Fail(_) =>
      case Node(right, q) => OrLoopReads(ts, OrExpr(node, right), q, open);
    }
  }

  lemma {:induction false} OrReads(ts: seq<Token>, p: nat, open: seq<bool>)
    requires Terminated(ts) && p < |ts| && At(Kinds(ts), p) == Reader(Before(true), open)
    ensures OrAt(ts, p).Node? ==>
              var q := OrAt(ts, p).next; PastTest(ts, q, open) && ts[q].kind != And && ts[q].kind != Or
    ensures OrAt(ts, p).Fail? ==> Stops(ts, OrAt(ts, p).error)
    decreases |ts| - p, 6
  {
    AndReads(ts, p, open);
    hide Stops, AndAt, OrLoop;
    match AndAt(ts, p)
    case Fail(_) =>
    case Node(node, q) => OrLoopReads(ts, node, q, open);
  }

  /** The parser accepts where the reader is complete at the end, and else stops where the reader does. */
  lemma {:induction false} ParseReads(ts: seq<Token>)
    requires OnlyLastIsEof(ts) && 1 < |ts|
    ensures Parse(ts).Ok? ==> IsComplete(At(Kinds(ts), |ts| - 1))
    ensures Parse(ts).Err? ==> Stops(ts, Parse(ts).error)
  {
    OrReads(ts, 0, []);
    hide OrAt;
    match OrAt(ts, 0)
    case Fail(_) =>
    case Node(_, q) =>
      assert ts[q].kind != Eof ==> StopsAt(ts, q, SyntaxError(UnexpectedToken(ts[q].kind), ts[q].start));
  }

  // ----- Predicates and their beginnings -----

  ghost predicate IsPredicate(kinds: seq<Kind>) {
    exists e :: OrShape(e) && Print(e) == kinds
  }

  /** Some predicate starts with these tokens. */
  ghost predicate Begins(kinds: seq<Kind>) {
    exists rest :: IsPredicate(kinds + rest)
  }

  /** The reader only depends on the tokens read. */
  lemma {:induction false} SameSoFar(a: seq<Kind>, b: seq<Kind>, p: nat)
    requires p <= |a| && p <= |b| && a[..p] == b[..p]
    ensures At(a, p) == At(b, p)
    decreases p
  {
    if 0 < p {
      assert a[p - 1] == a[..p][p - 1] && b[p - 1] == b[..p][p - 1];
      assert a[..p - 1] == a[..p][..p - 1] && b[..p - 1] == b[..p][..p - 1];
      SameSoFar(a, b, p - 1);
    }
  }

  lemma NextTakes(r: Reader, kind: Kind)
    requires Next(r, kind).Reader?
    ensures r.Reader? && kind != Eof
  {
  }

  lemma {:induction false} StuckStays(kinds: seq<Kind>, p: nat, q: nat)
    requires p <= q <= |kinds| && At(kinds, q).Reader?
    ensures At(kinds, p).Reader? && forall i :: p <= i < q ==> kinds[i] != Eof
    decreases q - p
  {
    if p < q {
      NextTakes(At(kinds, q - 1), kinds[q - 1]);
      hide Next;
      StuckStays(kinds, p, q - 1);
    }
  }

  function Terminate(kinds: seq<Kind>): (ts: seq<Token>)
    ensures |ts| == |kinds| + 1 && Kinds(ts) == kinds + [Eof]
  {
    seq(|kinds| + 1, i requires 0 <= i < |kinds| + 1 => Token(if i < |kinds| then kinds[i] else Eof, 0))
  }

  lemma {:induction false} PrintedHasNoEof(e: Expr)
    ensures Eof !in Print(e) && Print(e) != []
    decreases e, 1
  {
    match e
    case OrExpr(left, right) =>
      PrintedHasNoEof(left);
      PrintedHasNoEof(right);
    case AndExpr(left, right) =>
      PrintedHasNoEof(left);
      PrintedHasNoEof(right);
    case NotExpr(operand) => PrintedHasNoEof(operand);
    case CompareExpr(_, lhs, rhs) =>
      OperandHasNoEof(lhs);
      OperandHasNoEof(rhs);
    case ExistsExpr(subject) => OperandHasNoEof(subject);
    case ValueExpr(value) => OperandHasNoEof(value);
  }

  lemma {:induction false} OperandHasNoEof(v: Operand)
    ensures Eof !in PrintOperand(v) && PrintOperand(v) != []
    decreases v, 0
  {
    if v.Group? {
      PrintedHasNoEof(v.node);
    }
  }

  /** The reader is complete after exactly the predicates. */
  lemma {:induction false} CompleteExactlyAfterPredicates(kinds: seq<Kind>)
    ensures IsPredicate(kinds) <==> IsComplete(At(kinds, |kinds|))
  {
    var ts := Terminate(kinds);
    SameSoFar(Kinds(ts), kinds, |kinds|);
    if e :| OrShape(e) && Print(e) == kinds {
      PrintedHasNoEof(e);
      assert OnlyLastIsEof(ts) by {
        assert forall i :: 0 <= i < |kinds| ==> kinds[i] in kinds && Kinds(ts)[i] == kinds[i];
      }
      ParseIsInverseOfPrint(ts, e);
      ParseReads(ts);
    }
    if IsComplete(At(kinds, |kinds|)) {
      StuckStays(kinds, 0, |kinds|);
      assert OnlyLastIsEof(ts) by {
        assert forall i :: 0 <= i < |kinds| ==> Kinds(ts)[i] == kinds[i];
      }
      CompleteIsParsed(ts);
      ParseIsInverseOfPrint(ts, Parse(ts).value);
      PrefixOfTerminated(Print(Parse(ts).value), kinds);
    }
  }

  lemma PrefixOfTerminated(a: seq<Kind>, b: seq<Kind>)
    requires a + [Eof] == b + [Eof]
    ensures a == b
  {
    assert a == (a + [Eof])[..|a|] && b == (b + [Eof])[..|b|];
  }

  lemma {:induction false} CompleteNeverStops(ts: seq<Token>, error: SyntaxError)
    requires OnlyLastIsEof(ts) && IsComplete(At(Kinds(ts), |ts| - 1))
    ensures !Stops(ts, error)
  {
    forall k: nat ensures !StopsAt(ts, k, error) {
      if k < |ts| - 1 {
        StuckStays(Kinds(ts), k + 1, |ts| - 1);
        NextAt(ts, k);
      }
    }
  }

  lemma {:induction false} CompleteIsParsed(ts: seq<Token>)
    requires OnlyLastIsEof(ts) && IsComplete(At(Kinds(ts), |ts| - 1))
    ensures Parse(ts).Ok?
  {
    ParseReads(ts);
    hide Parse, At;
    CompleteNeverStops(ts, if Parse(ts).Err? then Parse(ts).error else SyntaxError(EmptyExpression, 0));
  }

  function Closing(n: nat): seq<Kind> {
    seq(n, _ => RParen)
  }

  lemma {:induction false} ClosingCompletes(kinds: seq<Kind>)
    requires var r := At(kinds, |kinds|); r.Reader? && r.place.After?
    ensures var all := kinds + Closing(|At(kinds, |kinds|).open|); IsComplete(At(all, |all|))
    decreases |At(kinds, |kinds|).open|
  {
    var n := |At(kinds, |kinds|).open|;
    if n == 0 {
      assert kinds + Closing(0) == kinds;
    } else {
      var more := kinds + [RParen];
      SameSoFar(more, kinds, |kinds|);
      ClosingCompletes(more);
      assert more + Closing(n - 1) == kinds + Closing(n);
    }
  }

  /** Tokens begin a predicate exactly when the reader is not stuck after them: it can always be completed. */
  lemma {:induction false} BeginsExactlyWhenNotStuck(kinds: seq<Kind>)
    ensures Begins(kinds) <==> At(kinds, |kinds|).Reader?
  {
    hide IsPredicate;
    if rest :| IsPredicate(kinds + rest) {
      CompleteExactlyAfterPredicates(kinds + rest);
      StuckStays(kinds + rest, |kinds|, |kinds + rest|);
      SameSoFar(kinds + rest, kinds, |kinds|);
    }
    if At(kinds, |kinds|).Reader? {
      if At(kinds, |kinds|).place.After? {
        var rest := Closing(|At(kinds, |kinds|).open|);
        ClosingCompletes(kinds);
        CompleteExactlyAfterPredicates(kinds + rest);
      } else {
        var more := kinds + [Null];
        SameSoFar(more, kinds, |kinds|);
        var rest := [Null] + Closing(|At(more, |more|).open|);
        ClosingCompletes(more);
        assert more + Closing(|At(more, |more|).open|) == kinds + rest;
        CompleteExactlyAfterPredicates(kinds + rest);
      }
    }
  }

  lemma OneMore(kinds: seq<Kind>, kind: Kind)
    ensures Begins(kinds + [kind]) <==> Next(At(kinds, |kinds|), kind).Reader?
  {
    var more := kinds + [kind];
    BeginsExactlyWhenNotStuck(more);
    SameSoFar(more, kinds, |kinds|);
  }

  lemma ComplaintMeaning(r: Reader, kind: Kind)
    requires Refuses(r, kind)
    ensures Next(r, kind).Stuck? && (kind == Eof ==> !IsComplete(r))
    ensures Complaint(r, kind)
         == if Next(r, Null).Reader? then ExpectedValue(kind)
            else if Next(r, RParen).Reader? then ExpectedParen
            else UnexpectedToken(kind)
  {
  }

  /**
   The error is at the first token that no predicate can have there, or at the end if the predicate is not over. It
   asks for a value where one could have stood, else for a closing parenthesis where one could, and else rejects.
   */
  lemma {:induction false} ErrorIsAtFirstImpossibleToken(ts: seq<Token>) returns (k: nat)
    requires OnlyLastIsEof(ts) && 1 < |ts| && Parse(ts).Err?
    ensures k < |ts| && Parse(ts).error.position == ts[k].start
    ensures var before := Kinds(ts)[..k];
            && Begins(before)
            && (if k < |ts| - 1 then !Begins(before + [ts[k].kind]) else !IsPredicate(before))
    ensures var before := Kinds(ts)[..k];
            Parse(ts).error.problem
            == if Begins(before + [Null]) then ExpectedValue(ts[k].kind)
               else if Begins(before + [RParen]) then ExpectedParen
               else UnexpectedToken(ts[k].kind)
  {
    ParseReads(ts);
    assert ts[|ts| - 1].kind == Eof;
    k :| StopsAt(ts, k, Parse(ts).error);
    ComplaintMeaning(At(Kinds(ts), k), ts[k].kind);
    hide Parse, IsPredicate, Begins, At, OnlyLastIsEof, Next, Complaint, Refuses, IsComplete;
    var before := Kinds(ts)[..k];
    SameSoFar(Kinds(ts), before, k);
    BeginsExactlyWhenNotStuck(before);
    CompleteExactlyAfterPredicates(before);
    OneMore(before, ts[k].kind);
    OneMore(before, Null);
    OneMore(before, RParen);
  }

  /** An empty list is an error of its own, at the start. */
  lemma {:induction false} EmptyIsAnError(ts: seq<Token>)
    requires OnlyLastIsEof(ts)
    ensures Parse(ts) == Err(SyntaxError(EmptyExpression, 0)) <==> |ts| == 1
  {
    if 1 < |ts| {
      ParseReads(ts);
    }
  }
}
