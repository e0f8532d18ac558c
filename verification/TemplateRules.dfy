/**
 What a string with templates resolves to (resolve-template.ts), and what registration reports about it
 (template-validation.ts), as rules on texts: every string is of exactly one of the three forms below.
 */
module TemplateRules {
  import opened Prelude
  import opened Text
  import opened Json
  import opened Paths
  import opened Templates

  /** From `{$` to the first `}`. */
  predicate IsCandidate(c: string) {
    OpensAt(c, 0) && c[|c| - 1] == '}' && forall k :: 0 <= k < |c| - 1 ==> c[k] != '}'
  }

  // ----- Scanning the rest of a text is scanning the rest as a text -----

  lemma {:induction false} FindShifts(c: char, a: string, b: string, j: nat)
    requires j <= |b|
    ensures Find(c, a + b, |a| + j) == |a| + Find(c, b, j)
    decreases |b| - j
  {
    if j < |b| {
      assert (a + b)[|a| + j] == b[j];
      FindShifts(c, a, b, j + 1);
    }
  }

  lemma OpensShifts(a: string, b: string, j: nat)
    requires j <= |b|
    ensures OpensAt(a + b, |a| + j) <==> OpensAt(b, j)
  {
    assert forall k :: 0 <= k < |b| ==> (a + b)[|a| + k] == b[k];
  }

  lemma {:induction false} FindOpenShifts(a: string, b: string, j: nat)
    requires j <= |b|
    ensures FindOpen(a + b, |a| + j) == |a| + FindOpen(b, j)
    decreases |b| - j
  {
    OpensShifts(a, b, j);
    if j < |b| {
      FindOpenShifts(a, b, j + 1);
    }
  }

  /** The pieces of b, moved to where b stands in a + b. */
  function Moved(pieces: Pieces, shift: nat): Pieces {
    match pieces
    case Nil => Nil
    case Cons(Piece(shape, from, to), tail) => Cons(Piece(shape, from + shift, to + shift), Moved(tail, shift))
  }

  lemma {:induction false} CutShifts(a: string, b: string, j: nat)
    requires j <= |b|
    ensures Cut(a + b, |a| + j) == Moved(Cut(b, j), |a|)
    decreases |b| - j
  {
    if j < |b| {
      OpensShifts(a, b, j);
      FindShifts('}', a, b, j);
      FindOpenShifts(a, b, j);
      var next := Cut(b, j).head.to;
      CutIsWellCut(b, j);
      hide FindOpen, Find;
      CutShifts(a, b, next);
    }
  }

  lemma MovedText(a: string, b: string, from: nat, to: nat)
    requires from <= to <= |b|
    ensures (a + b)[from + |a|..to + |a|] == b[from..to]
  {
    assert (a + b)[|a|..|a + b|] == b;
    SliceOfSlice(a + b, |a|, |a + b|, from, to);
  }

  lemma MovedPiece(a: string, b: string, piece: Piece, scope: Value, printer: Printer, path: seq<string>)
    requires piece.from <= piece.to <= |b|
    ensures var moved := Piece(piece.shape, piece.from + |a|, piece.to + |a|);
            && ShowPiece(a + b, moved, scope, printer) == ShowPiece(b, piece, scope, printer)
            && PieceIssues(a + b, moved, path) == PieceIssues(b, piece, path)
  {
    hide ShowCandidate, CandidateIssue;
    MovedText(a, b, piece.from, piece.to);
  }

  predicate Within(pieces: Pieces, n: nat) {
    match pieces
    case Nil => true
    case Cons(head, tail) => head.from <= head.to <= n && Within(tail, n)
  }

  lemma {:induction false} CutIsWithin(s: string, i: nat, pieces: Pieces)
    requires WellCut(s, i, pieces)
    ensures Within(pieces, |s|)
    decreases pieces
  {
    if pieces.Cons? {
      CutIsWithin(s, pieces.head.to, pieces.tail);
    }
  }

  lemma {:induction false} MovedPieces(
    a: string, b: string, pieces: Pieces, scope: Value, printer: Printer, path: seq<string>)
    requires Within(pieces, |b|)
    ensures ShowPieces(a + b, Moved(pieces, |a|), scope, printer) == ShowPieces(b, pieces, scope, printer)
    ensures PiecesIssues(a + b, Moved(pieces, |a|), path) == PiecesIssues(b, pieces, path)
    decreases pieces
  {
    hide ShowPiece, PieceIssues;
    if pieces.Cons? {
      MovedPieces(a, b, pieces.tail, scope, printer, path);
      MovedPiece(a, b, pieces.head, scope, printer, path);
    }
  }

  /** What the candidates of a text make of it, were it not a path as a whole. */
  function Filled(s: string, scope: Value, printer: Printer): string {
    ShowPieces(s, Cut(s, 0), scope, printer)
  }

  lemma RestShifts(a: string, b: string, scope: Value, printer: Printer, path: seq<string>)
    ensures ShowPieces(a + b, Cut(a + b, |a|), scope, printer) == Filled(b, scope, printer)
    ensures PiecesIssues(a + b, Cut(a + b, |a|), path) == StringIssues(b, path)
  {
    CutShifts(a, b, 0);
    CutIsWellCut(b, 0);
    CutIsWithin(b, 0, Cut(b, 0));
    MovedPieces(a, b, Cut(b, 0), scope, printer, path);
  }

  // ----- One step of the decomposition -----

  lemma OpensAtJoint(a: string, c: string)
    requires NoneOpens(a) && OpensAt(c, 0)
    ensures FindOpen(a + c, 0) == |a|
  {
    forall k | 0 <= k < |a| ensures !OpensAt(a + c, k) {
      OpensAcross(a, c, k);
    }
    OpensShifts(a, c, 0);
    FindOpenIs(a + c, 0, |a|);
  }

  lemma PlainFront(a: string, c: string, scope: Value, printer: Printer, path: seq<string>)
    requires NoneOpens(a) && OpensAt(c, 0)
    ensures Filled(a + c, scope, printer) == a + ShowPieces(a + c, Cut(a + c, |a|), scope, printer)
    ensures StringIssues(a + c, path) == PiecesIssues(a + c, Cut(a + c, |a|), path)
  {
    OpensAtJoint(a, c);
    if a == "" {
      assert "" + ShowPieces(a + c, Cut(a + c, 0), scope, printer) == ShowPieces(a + c, Cut(a + c, 0), scope, printer);
    } else {
      OpensAcross(a, c, 0);
      assert (a + c)[0..|a|] == a;
      UnreportedFrom(a + c, 0, |a|, path);
    }
  }

  lemma CandidateFirst(c: string, b: string, scope: Value, printer: Printer, path: seq<string>)
    requires IsCandidate(c)
    ensures Filled(c + b, scope, printer) == ShowCandidate(c, scope, printer) + Filled(b, scope, printer)
    ensures StringIssues(c + b, path) == CandidateIssue(c, path) + StringIssues(b, path)
  {
    var s := c + b;
    assert forall k :: 0 <= k < |c| ==> s[k] == c[k];
    FindIsFirst('}', s, 0, |c| - 1);
    assert s[0..|c|] == c;
    assert Cut(s, 0) == Cons(Piece(Candidate, 0, |c|), Cut(s, |c|));
    RestShifts(c, b, scope, printer, path);
    hide ShowCandidate, CandidateIssue, Cut;
  }

  lemma CandidateFilled(a: string, c: string, b: string, scope: Value, printer: Printer, path: seq<string>)
    requires NoneOpens(a) && IsCandidate(c)
    ensures Filled(a + c + b, scope, printer)
         == a + ShowCandidate(c, scope, printer) + Filled(b, scope, printer)
    ensures StringIssues(a + c + b, path) == CandidateIssue(c, path) + StringIssues(b, path)
  {
    assert a + c + b == a + (c + b);
    PlainFront(a, c + b, scope, printer, path);
    RestShifts(a, c + b, scope, printer, path);
    CandidateFirst(c, b, scope, printer, path);
    hide Filled, ShowCandidate, CandidateIssue, StringIssues;
    Associates(a, ShowCandidate(c, scope, printer), Filled(b, scope, printer));
  }

  // ----- The rules -----

  lemma PathIsCandidate(source: string)
    requires PathSegments(source).Some?
    ensures IsCandidate(source) && PathOf(source) == PathSegments(source)
  {
    PathHasNoInnerBrace(source);
  }

  /** A text without an opening is left as it is. */
  lemma PlainRule(source: string, scope: Value, printer: Printer, path: seq<string>)
    requires NoneOpens(source)
    ensures StringResult(source, scope, printer) == Str(source) && StringIssues(source, path) == []
  {
    if PathSegments(source).Some? {
      PathIsCandidate(source);
    }
    if source != "" {
      var piece := Piece(Plain, 0, |source|);
      assert IsPiece(source, 0, piece);
      ScanIsTheCut(source, Cons(piece, Nil));
      assert PieceText(source, piece) == source;
      assert ShowPieces(source, Cons(piece, Nil), scope, printer) == source + "";
      assert PiecesIssues(source, Cons(piece, Nil), path) == [] + [];
    }
  }

  /** An opening that nothing closes is left as it is with what follows, and reported. */
  lemma UnclosedRule(a: string, c: string, scope: Value, printer: Printer, path: seq<string>)
    requires NoneOpens(a) && OpensAt(c, 0) && '}' !in c
    ensures StringResult(a + c, scope, printer) == Str(a + c)
    ensures StringIssues(a + c, path) == [Issue(path, c, Unterminated)]
  {
    assert (a + c)[|a + c| - 1] == c[|c| - 1];
    if PathSegments(a + c).Some? {
      PathIsCandidate(a + c);
    }
    PlainFront(a, c, scope, printer, path);
    RestShifts(a, c, scope, printer, path);
    FindIsFirst('}', c, 0, |c|);
    assert Cut(c, 0) == Cons(Piece(Unclosed, 0, |c|), Nil);
    assert c[0..|c|] == c;
  }

  /** A whole string that is a path keeps the type of the value found; a missing or undefined one is null. */
  lemma WholePathRule(source: string, segments: seq<Segment>, scope: Value, printer: Printer)
    requires PathSegments(source) == Some(segments) && AllPlain(segments)
    ensures StringResult(source, scope, printer)
         == match Lookup(scope, segments)
            case Some(found) => (if found == Undefined then Value.Null else found)
            case None => Value.Null
  {
  }

  /** Text before and after a path: not a path as a whole. */
  lemma TextAround(a: string, c: string, b: string)
    requires NoneOpens(a) && IsCandidate(c) && a + b != ""
    ensures PathOf(a + c + b).None?
  {
    var s := a + c + b;
    assert s == a + (c + b);
    assert a == "" ==> s[|c| - 1] == '}';
    if a != "" {
      OpensAcross(a, c + b, 0);
    }
    if PathSegments(s).Some? {
      PathIsCandidate(s);
    }
  }

  /** The text of what was looked up: String of a scalar, JSON of an array or object, "null" for nothing. */
  function TextOfFound(found: Option<Value>, printer: Printer): string {
    match found
    case None => "null"
    case Some(Undefined) => "null"
    case Some(Null) => "null"
    case Some(Bool(true)) => "true"
    case Some(Bool(false)) => "false"
    case Some(Num(number)) => printer.number(number)
    case Some(Str(text)) => text
    case Some(other) => printer.json(other)
  }

  lemma PathIsShown(c: string, segments: seq<Segment>, scope: Value, printer: Printer, path: seq<string>)
    requires PathSegments(c) == Some(segments) && AllPlain(segments)
    ensures segments != [] && ShowCandidate(c, scope, printer) == TextOfFound(Lookup(scope, segments), printer)
    ensures CandidateIssue(c, path)
         == if segments[0] in [Key("context"), Key("output"), Key("env")] then []
            else [Issue(path, c, Complaint.BadRoot)]
  {
    PathNormalForm(c);
    hide Lookup, PathSegments;
  }

  /** A path with text around it gives way to the text of the value found; an unknown root is reported. */
  lemma EmbeddedPathRule(
    a: string, c: string, b: string, segments: seq<Segment>, scope: Value, printer: Printer, path: seq<string>)
    requires NoneOpens(a) && PathSegments(c) == Some(segments) && AllPlain(segments) && a + b != ""
    ensures segments != []
    ensures StringResult(a + c + b, scope, printer)
         == Str(a + TextOfFound(Lookup(scope, segments), printer) + Filled(b, scope, printer))
    ensures StringIssues(a + c + b, path)
         == (if segments[0] in [Key("context"), Key("output"), Key("env")] then []
             else [Issue(path, c, Complaint.BadRoot)])
            + StringIssues(b, path)
  {
    PathIsCandidate(c);
    PathNormalForm(c);
    PathIsShown(c, segments, scope, printer, path);
    TextAround(a, c, b);
    CandidateFilled(a, c, b, scope, printer, path);
    FilledUnlessPath(a + c + b, scope, printer);
    hide Filled, Lookup, PathSegments, StringIssues, ShowCandidate, CandidateIssue, TextOfFound, PathOf;
  }

  lemma FilledUnlessPath(s: string, scope: Value, printer: Printer)
    requires PathOf(s).None?
    ensures StringResult(s, scope, printer) == Str(Filled(s, scope, printer))
  {
  }

  /** A candidate that is no path is left as it is, whatever is inside it, and reported. */
  lemma MalformedRule(a: string, c: string, b: string, scope: Value, printer: Printer, path: seq<string>)
    requires NoneOpens(a) && IsCandidate(c) && PathSegments(c).None?
    ensures StringResult(a + c + b, scope, printer) == Str(a + c + Filled(b, scope, printer))
    ensures StringIssues(a + c + b, path) == [Issue(path, c, Malformed)] + StringIssues(b, path)
  {
    if a + b == "" {
      assert a + c + b == c;
    } else {
      TextAround(a, c, b);
    }
    CandidateFilled(a, c, b, scope, printer, path);
    FilledUnlessPath(a + c + b, scope, printer);
    hide Filled, PathSegments, StringIssues, StringResult;
  }

  /** What follows is filled by the same rules: it resolves to Filled unless it is a path as a whole. */
  lemma FilledRest(b: string, scope: Value, printer: Printer)
    ensures PathSegments(b).None? ==> StringResult(b, scope, printer) == Str(Filled(b, scope, printer))
    ensures PathSegments(b).Some? ==>
              Filled(b, scope, printer) == Show(StringResult(b, scope, printer), printer)
  {
    if PathSegments(b).Some? {
      PathIsCandidate(b);
      CandidateFirst(b, "", scope, printer, []);
      assert b + "" == b;
    }
  }

  // ----- Nested templates -----

  /** Arrays are resolved slot by slot, objects value by value under the same keys; the rest is left alone. */
  lemma ResolvedInPlace(template: Value, scope: Value, printer: Printer)
    ensures var r := ResolveTemplate(template, scope, printer);
            match template
            case Arr(slots) =>
              && r.Arr? && |r.slots| == |slots|
              && forall i :: 0 <= i < |slots| ==> r.slots[i] == ResolveTemplate(slots[i], scope, printer)
            case Obj(entries) =>
              && r.Obj? && |r.entries| == |entries|
              && forall i :: 0 <= i < |entries| ==>
                   r.entries[i] == Entry(entries[i].key, ResolveTemplate(entries[i].value, scope, printer))
            case Str(text) => r == StringResult(text, scope, printer)
            case _ => r == template
  {
    match template
    case Arr(slots) => SlotsInPlace(slots, scope, printer);
    case Obj(entries) => EntriesInPlace(entries, scope, printer);
    case _ =>
  }

  lemma {:induction false} SlotsInPlace(slots: seq<Value>, scope: Value, printer: Printer)
    ensures var r := ResolveSlots(slots, scope, printer);
            forall i :: 0 <= i < |slots| ==> r[i] == ResolveTemplate(slots[i], scope, printer)
    decreases |slots|
  {
    if slots != [] {
      SlotsInPlace(slots[1..], scope, printer);
      hide ResolveTemplate;
    }
  }

  lemma {:induction false} EntriesInPlace(entries: seq<Entry>, scope: Value, printer: Printer)
    ensures var r := ResolveEntries(entries, scope, printer);
            forall i :: 0 <= i < |entries| ==>
              r[i] == Entry(entries[i].key, ResolveTemplate(entries[i].value, scope, printer))
    decreases |entries|
  {
    if entries != [] {
      EntriesInPlace(entries[1..], scope, printer);
      hide ResolveTemplate;
    }
  }

  /** The issues of the strings of a value, in their order. */
  function LeafIssues(leaves: seq<Leaf>): seq<Issue> {
    if leaves == [] then [] else StringIssues(leaves[0].text, leaves[0].path) + LeafIssues(leaves[1..])
  }

  lemma {:induction false} LeafIssuesConcat(a: seq<Leaf>, b: seq<Leaf>)
    ensures LeafIssues(a + b) == LeafIssues(a) + LeafIssues(b)
    decreases |a|
  {
    if a == [] {
      assert a + b == b;
    } else {
      assert (a + b)[1..] == a[1..] + b;
      LeafIssuesConcat(a[1..], b);
      hide StringIssues;
    }
  }

  /** Registration reports the issues of all strings in document order, each with the path of its string. */
  lemma {:induction false} IssuesAreOfTheStrings(value: Value, path: seq<string>)
    ensures IssuesIn(value, path) == LeafIssues(Leaves(value, path))
    decreases value, 1
  {
    hide StringIssues;
    match value
    case Str(text) =>
      assert LeafIssues([Leaf(path, text)]) == StringIssues(text, path) + LeafIssues([]);
    case Arr(slots) => IssuesOfSlots(slots, 0, path);
    case Obj(entries) => IssuesOfEntries(entries, path);
    case _ =>
  }

  lemma {:induction false} IssuesOfSlots(slots: seq<Value>, index: nat, path: seq<string>)
    ensures IssuesInSlots(slots, index, path) == LeafIssues(LeavesOfSlots(slots, index, path))
    decreases slots, 0
  {
    if slots != [] {
      var here := path + [Numeral(index)];
      IssuesAreOfTheStrings(slots[0], here);
      IssuesOfSlots(slots[1..], index + 1, path);
      LeafIssuesConcat(Leaves(slots[0], here), LeavesOfSlots(slots[1..], index + 1, path));
      hide LeafIssues;
    }
  }

  lemma {:induction false} IssuesOfEntries(entries: seq<Entry>, path: seq<string>)
    ensures IssuesInEntries(entries, path) == LeafIssues(LeavesOfEntries(entries, path))
    decreases entries, 0
  {
    if entries != [] {
      var here := path + [entries[0].key];
      IssuesAreOfTheStrings(entries[0].value, here);
      IssuesOfEntries(entries[1..], path);
      LeafIssuesConcat(Leaves(entries[0].value, here), LeavesOfEntries(entries[1..], path));
      hide LeafIssues;
    }
  }
}
