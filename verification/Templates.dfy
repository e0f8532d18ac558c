/**
 Templates: strings with embedded `{$...}` spans. The runtime scanner (resolve-template.ts) and
 the registration-time validator (template-validation.ts) are two separate loops; both are
 proved against one decomposition of the text, which is itself characterized without a scan.
 */
module Templates {
  import opened Prelude
  import opened Text
  import opened Json
  import opened Paths
  import opened Tokens

  /** A stretch of plain text, a `{$...}` candidate, or a `{$` that no `}` closes. */
  datatype Shape = Plain | Candidate | Unclosed

  datatype Piece = Piece(shape: Shape, from: nat, to: nat)

  /** A text cut into pieces. */
  datatype Pieces = Nil | Cons(head: Piece, tail: Pieces)

  predicate OpensAt(s: string, i: nat) {
    i + 1 < |s| && s[i] == '{' && s[i + 1] == '$'
  }

  /** indexOf("{$", i), or |s|. */
  function FindOpen(s: string, i: nat): (r: nat)
    requires i <= |s|
    ensures i <= r <= |s|
    ensures r < |s| ==> OpensAt(s, r)
    decreases |s| - i
  {
    if i == |s| || OpensAt(s, i) then i else FindOpen(s, i + 1)
  }

  lemma {:induction false} FindOpenSkips(s: string, i: nat)
    requires i <= |s|
    ensures forall k :: i <= k < FindOpen(s, i) ==> !OpensAt(s, k)
    decreases |s| - i
  {
    if i < |s| && !OpensAt(s, i) {
      FindOpenSkips(s, i + 1);
    }
  }

  /** The pieces both loops see from position i on. */
  function Cut(s: string, i: nat): Pieces
    requires i <= |s|
    decreases |s| - i
  {
    if i == |s| then Nil
    else if OpensAt(s, i) then
      var end := Find('}', s, i);
      if end == |s| then Cons(Piece(Unclosed, i, |s|), Nil) else Cons(Piece(Candidate, i, end + 1), Cut(s, end + 1))
    else
      var start := FindOpen(s, i);
      Cons(Piece(Plain, i, start), Cut(s, start))
  }

  // ----- The decomposition, without a scan -----

  predicate NoOpening(s: string, i: nat, j: nat) {
    forall k :: i <= k < j ==> !OpensAt(s, k)
  }

  predicate NoClosing(s: string, i: nat, j: nat) {
    j <= |s| && forall k :: i <= k < j ==> s[k] != '}'
  }

  /** The piece starts at i; plain text is maximal, a candidate stops at its first `}`. */
  predicate IsPiece(s: string, i: nat, piece: Piece) {
    && piece.from == i < piece.to <= |s|
    && match piece.shape
       case Plain => NoOpening(s, i, piece.to) && (piece.to == |s| || OpensAt(s, piece.to))
       case Candidate => OpensAt(s, i) && s[piece.to - 1] == '}' && NoClosing(s, i, piece.to - 1)
       case Unclosed => OpensAt(s, i) && piece.to == |s| && NoClosing(s, i, |s|)
  }

  /** The pieces follow one another from i to the end of the text. */
  predicate WellCut(s: string, i: nat, pieces: Pieces)
    decreases pieces
  {
    match pieces
    case Nil => i == |s|
    case Cons(head, tail) => IsPiece(s, i, head) && WellCut(s, head.to, tail)
  }

  lemma {:induction false} FindOpenIs(s: string, i: nat, j: nat)
    requires i <= j <= |s| && (j == |s| || OpensAt(s, j)) && NoOpening(s, i, j)
    ensures FindOpen(s, i) == j
    decreases j - i
  {
    if i < j {
      FindOpenIs(s, i + 1, j);
    }
  }

  lemma PieceIsHeadOfCut(s: string, i: nat, piece: Piece)
    requires IsPiece(s, i, piece)
    ensures Cut(s, i) == Cons(piece, Cut(s, piece.to))
  {
    match piece.shape
    case Plain => FindOpenIs(s, i, piece.to);
    case Candidate => FindIsFirst('}', s, i, piece.to - 1);
    case Unclosed => FindIsFirst('}', s, i, |s|);
  }

  lemma {:induction false} CutIsWellCut(s: string, i: nat)
    requires i <= |s|
    ensures WellCut(s, i, Cut(s, i))
    decreases |s| - i
  {
    if i < |s| {
      if OpensAt(s, i) {
        FindSkips('}', s, i);
      } else {
        FindOpenSkips(s, i);
      }
      CutIsWellCut(s, Cut(s, i).head.to);
    }
  }

  lemma {:induction false} WellCutIsUnique(s: string, i: nat, pieces: Pieces)
    requires i <= |s| && WellCut(s, i, pieces)
    ensures Cut(s, i) == pieces
    decreases pieces
  {
    match pieces
    case Nil =>
    case Cons(head, tail) =>
      WellCutIsUnique(s, head.to, tail);
      PieceIsHeadOfCut(s, i, head);
  }

  /** Both directions: the scan finds exactly the one way to cut a text well. */
  lemma ScanIsTheCut(s: string, pieces: Pieces)
    ensures Cut(s, 0) == pieces <==> WellCut(s, 0, pieces)
  {
    CutIsWellCut(s, 0);
    if WellCut(s, 0, pieces) {
      WellCutIsUnique(s, 0, pieces);
    }
  }

  function PieceText(s: string, piece: Piece): string {
    if piece.from <= piece.to <= |s| then s[piece.from..piece.to] else ""
  }

  function TextOf(s: string, pieces: Pieces): string {
    match pieces
    case Nil => ""
    case Cons(head, tail) => PieceText(s, head) + TextOf(s, tail)
  }

  /** No text is lost: the pieces in a row are the source. */
  lemma {:induction false} CutLosesNothing(s: string, i: nat, pieces: Pieces)
    requires i <= |s| && WellCut(s, i, pieces)
    ensures TextOf(s, pieces) == s[i..]
    decreases pieces
  {
    match pieces
    case Nil =>
    case Cons(head, tail) =>
      CutLosesNothing(s, head.to, tail);
      SplitAt(s, i, head.to);
  }

  /** A whole-string path is one candidate: the typed shortcut and the scan see the same span. */
  lemma WholePathIsOneCandidate(s: string)
    requires PathSegments(s).Some?
    ensures Cut(s, 0) == Cons(Piece(Candidate, 0, |s|), Nil)
  {
    PathHasNoInnerBrace(s);
    ScanIsTheCut(s, Cons(Piece(Candidate, 0, |s|), Nil));
  }

  // ----- Resolution (resolve-template.ts) -----

  /** String(number) and JSON.stringify, which are not modelled. */
  datatype Printer = Printer(number: real -> string, json: Value -> string)

  /** A missing or undefined value resolves as null. */
  function Resolved(scope: Value, segments: seq<Segment>): Value
    requires AllPlain(segments)
  {
    var found := Lookup(scope, segments);
    if found.None? || found.value.Undefined? then Value.Null else found.value
  }

  function Show(value: Value, printer: Printer): string {
    match value
    case Undefined => "undefined"
    case Null => "null"
    case Bool(flag) => if flag then "true" else "false"
    case Num(number) => printer.number(number)
    case Str(text) => text
    case _ => printer.json(value)
  }

  function PathOf(candidate: string): (r: Option<seq<Segment>>)
    ensures r.Some? ==> AllPlain(r.value)
  {
    var r := PathSegments(candidate);
    if r.Some? then PathNormalForm(candidate); r else r
  }

  /** What a candidate becomes: it is copied when it is not a path. */
  function ShowCandidate(candidate: string, scope: Value, printer: Printer): string {
    if PathOf(candidate).Some? then Show(Resolved(scope, PathOf(candidate).value), printer) else candidate
  }

  function ShowPiece(s: string, piece: Piece, scope: Value, printer: Printer): string {
    if piece.shape.Candidate? then ShowCandidate(PieceText(s, piece), scope, printer) else PieceText(s, piece)
  }

  function ShowPieces(s: string, pieces: Pieces, scope: Value, printer: Printer): string {
    match pieces
    case Nil => ""
    case Cons(head, tail) => ShowPiece(s, head, scope, printer) + ShowPieces(s, tail, scope, printer)
  }

  function StringResult(source: string, scope: Value, printer: Printer): Value {
    if PathOf(source).Some? then Resolved(scope, PathOf(source).value)
    else Str(ShowPieces(source, Cut(source, 0), scope, printer))
  }

  /** What the scanning loop still has to append at position i. */
  function Pending(s: string, i: nat, scope: Value, printer: Printer): string
    requires i <= |s|
  {
    ShowPieces(s, Cut(s, i), scope, printer)
  }

  lemma PendingAtCandidate(s: string, start: nat, end: nat, scope: Value, printer: Printer)
    requires OpensAt(s, start) && end == Find('}', s, start) < |s|
    ensures Pending(s, start, scope, printer)
         == ShowCandidate(s[start..end + 1], scope, printer) + Pending(s, end + 1, scope, printer)
  {
    hide ShowCandidate, FindOpen;
  }

  lemma PendingAtUnclosed(s: string, start: nat, scope: Value, printer: Printer)
    requires OpensAt(s, start) && Find('}', s, start) == |s|
    ensures Pending(s, start, scope, printer) == s[start..]
  {
    var piece := Piece(Unclosed, start, |s|);
    assert ShowPieces(s, Cons(piece, Nil), scope, printer) == ShowPiece(s, piece, scope, printer) + "";
    assert ShowPiece(s, piece, scope, printer) == s[start..];
  }

  /** The last round of the loop copies the rest of the text. */
  lemma LastRound(s: string, i: nat, start: nat, scope: Value, printer: Printer)
    requires i <= |s| && start == FindOpen(s, i) && (start == |s| || Find('}', s, start) == |s|)
    ensures Pending(s, i, scope, printer) == s[i..] + Pending(s, |s|, scope, printer)
  {
    SplitAt(s, i, start);
    if start < |s| {
      PendingAtUnclosed(s, start, scope, printer);
    }
  }

  /** Any other round handles plain text up to a candidate, then the candidate. */
  lemma OneRound(s: string, i: nat, start: nat, end: nat, scope: Value, printer: Printer)
    requires i <= |s| && start == FindOpen(s, i) < |s| && end == Find('}', s, start) < |s|
    ensures Pending(s, i, scope, printer)
         == s[i..start] + ShowCandidate(s[start..end + 1], scope, printer) + Pending(s, end + 1, scope, printer)
  {
    PendingAtCandidate(s, start, end, scope, printer);
    Associates(s[i..start], ShowCandidate(s[start..end + 1], scope, printer), Pending(s, end + 1, scope, printer));
  }

  lemma Associates<T>(a: seq<T>, b: seq<T>, c: seq<T>)
    ensures a + (b + c) == a + b + c
  {
  }

  // ----- What the scan copies -----

  /** A candidate that is copied as it stands: it is no path, or nothing closes it. */
  predicate LeftVerbatim(s: string, piece: Piece) {
    piece.shape.Unclosed? || (piece.shape.Candidate? && PathOf(PieceText(s, piece)).None?)
  }

  function CopiedPieces(s: string, pieces: Pieces): seq<string> {
    match pieces
    case Nil => []
    case Cons(head, tail) => (if LeftVerbatim(s, head) then [PieceText(s, head)] else []) + CopiedPieces(s, tail)
  }

  /** The candidates still to be copied at position i. */
  function CopiedFrom(s: string, i: nat): seq<string>
    requires i <= |s|
  {
    CopiedPieces(s, Cut(s, i))
  }

  /** The candidates of a string that resolving copies: none when the whole string is a path. */
  function CopiedIn(source: string): seq<string> {
    CopiedFrom(source, 0)
  }

  /** The copied pieces are exactly those that show the same text in every scope. */
  lemma VerbatimMeansUnchanged(s: string, piece: Piece)
    requires piece.shape != Plain
    ensures LeftVerbatim(s, piece) <==>
              forall scope, printer :: ShowPiece(s, piece, scope, printer) == PieceText(s, piece)
  {
    var text := PieceText(s, piece);
    if piece.shape.Candidate? && PathOf(text).Some? {
      PathNormalForm(text);
      var scope, printer := Obj([]), Printer(_ => "", _ => "");
      assert Lookup(scope, PathOf(text).value) == None;
      assert ShowPiece(s, piece, scope, printer) == "null";
      assert text[0] == '{';
    }
  }

  lemma WholePathCopiesNothing(source: string)
    requires PathOf(source).Some?
    ensures CopiedIn(source) == []
  {
    WholePathIsOneCandidate(source);
    var piece := Piece(Candidate, 0, |source|);
    assert PieceText(source, piece) == source;
    assert CopiedPieces(source, Cons(piece, Nil)) == CopiedPieces(source, Nil);
  }

  lemma CopiesFromOpening(s: string, i: nat, start: nat)
    requires i <= |s| && start == FindOpen(s, i)
    ensures CopiedFrom(s, i) == CopiedFrom(s, start)
  {
    assert [] + CopiedFrom(s, start) == CopiedFrom(s, start);
  }

  lemma CopiesNothingMore(s: string, i: nat)
    requires i <= |s| && FindOpen(s, i) == |s|
    ensures CopiedFrom(s, i) == [] + CopiedFrom(s, |s|)
  {
    CopiesFromOpening(s, i, |s|);
  }

  lemma CopiesUnclosed(s: string, i: nat, start: nat)
    requires i <= |s| && start == FindOpen(s, i) < |s| && Find('}', s, start) == |s|
    ensures CopiedFrom(s, i) == [s[start..]] + CopiedFrom(s, |s|)
  {
    CopiesFromOpening(s, i, start);
    assert s[start..|s|] == s[start..];
  }

  lemma CopiesCandidate(s: string, i: nat, start: nat, end: nat)
    requires i <= |s| && start == FindOpen(s, i) < |s| && end == Find('}', s, start) < |s|
    ensures var text := s[start..end + 1];
            CopiedFrom(s, i) == (if PathOf(text).None? then [text] else []) + CopiedFrom(s, end + 1)
  {
    CopiesFromOpening(s, i, start);
    assert Cut(s, start) == Cons(Piece(Candidate, start, end + 1), Cut(s, end + 1));
  }

  // ----- The resolving loop -----

  method ResolvePath(candidate: string, scope: Value) returns (r: Option<Value>)
    ensures r == if PathOf(candidate).None? then None else Some(Resolved(scope, PathOf(candidate).value))
  {
    var segments := ParsePath(candidate);
    if segments.None? {
      return None;
    }
    PathNormalForm(candidate);
    var lookup := LookupPath(scope, segments.value);
    return Some(if lookup.Some? && !lookup.value.Undefined? then lookup.value else Value.Null);
  }

  /** copied logs the candidates that were appended as they stand. */
  method ResolveEmbedded(candidate: string, scope: Value, printer: Printer)
    returns (shown: string, ghost copied: seq<string>)
    ensures shown == ShowCandidate(candidate, scope, printer)
    ensures copied == if PathOf(candidate).None? then [candidate] else []
  {
    var embedded := ResolvePath(candidate, scope);
    if embedded.None? {
      return candidate, [candidate];
    }
    return Show(embedded.value, printer), [];
  }

  /** One round of the loop: the text it appends, what of it is copied, and where the next round starts. */
  method ResolveRound(source: string, cursor: nat, scope: Value, printer: Printer)
    returns (text: string, next: nat, ghost copied: seq<string>)
    requires cursor < |source|
    ensures cursor < next <= |source|
    ensures Pending(source, cursor, scope, printer) == text + Pending(source, next, scope, printer)
    ensures CopiedFrom(source, cursor) == copied + CopiedFrom(source, next)
  {
    hide Pending, CopiedFrom, ShowCandidate;
    var start := FindOpen(source, cursor);
    if start == |source| || Find('}', source, start) == |source| {
      text, next := source[cursor..], |source|;
      copied := if start == |source| then [] else [source[start..]];
      assert Pending(source, cursor, scope, printer) == text + Pending(source, next, scope, printer) by {
        LastRound(source, cursor, start, scope, printer);
      }
      assert CopiedFrom(source, cursor) == copied + CopiedFrom(source, next) by {
        if start == |source| {
          CopiesNothingMore(source, cursor);
        } else {
          CopiesUnclosed(source, cursor, start);
        }
      }
      return;
    }
    var end := Find('}', source, start);
    var shown;
    shown, copied := ResolveEmbedded(source[start..end + 1], scope, printer);
    text, next := source[cursor..start] + shown, end + 1;
    assert Pending(source, cursor, scope, printer) == text + Pending(source, next, scope, printer) by {
      OneRound(source, cursor, start, end, scope, printer);
    }
    assert CopiedFrom(source, cursor) == copied + CopiedFrom(source, next) by {
      CopiesCandidate(source, cursor, start, end);
    }
  }

  method ResolveString(source: string, scope: Value, printer: Printer) returns (r: Value, ghost copied: seq<string>)
    ensures r == StringResult(source, scope, printer)
    ensures copied == CopiedIn(source)
  {
    hide FindOpen, PathOf;
    copied := [];
    var whole := ResolvePath(source, scope);
    if whole.Some? {
      WholePathCopiesNothing(source);
      return whole.value, copied;
    }
    var result, cursor := "", 0;
    ghost var goal := Pending(source, 0, scope, printer);
    ghost var copies := CopiedFrom(source, 0);
    while cursor < |source|
      invariant 0 <= cursor <= |source|
      invariant goal == result + Pending(source, cursor, scope, printer)
      invariant copies == copied + CopiedFrom(source, cursor)
    {
      ghost var more;
      var text, next;
      text, next, more := ResolveRound(source, cursor, scope, printer);
      Associates(result, text, Pending(source, next, scope, printer));
      Associates(copied, more, CopiedFrom(source, next));
      result, cursor, copied := result + text, next, copied + more;
    }
    r := Str(result);
  }

  // ----- Registration-time validation (template-validation.ts) -----

  datatype Complaint = Malformed | BadRoot | Unterminated

  datatype Issue = Issue(path: seq<string>, text: string, complaint: Complaint)

  function CandidateIssue(text: string, path: seq<string>): seq<Issue> {
    if PathOf(text).None? then [Issue(path, text, Malformed)]
    else if !HasValidRoot(PathOf(text).value) then [Issue(path, text, Complaint.BadRoot)]
    else []
  }

  function PieceIssues(s: string, piece: Piece, path: seq<string>): seq<Issue> {
    match piece.shape
    case Plain => []
    case Candidate => CandidateIssue(PieceText(s, piece), path)
    case Unclosed => [Issue(path, PieceText(s, piece), Unterminated)]
  }

  function PiecesIssues(s: string, pieces: Pieces, path: seq<string>): seq<Issue> {
    match pieces
    case Nil => []
    case Cons(head, tail) => PieceIssues(s, head, path) + PiecesIssues(s, tail, path)
  }

  /** The issues of a string. */
  function StringIssues(source: string, path: seq<string>): seq<Issue> {
    PiecesIssues(source, Cut(source, 0), path)
  }

  /** What the validating loop still has to report at position i. */
  function Unreported(s: string, i: nat, path: seq<string>): seq<Issue>
    requires i <= |s|
  {
    PiecesIssues(s, Cut(s, i), path)
  }

  /** Plain text raises no issue. */
  lemma UnreportedFrom(s: string, i: nat, start: nat, path: seq<string>)
    requires i <= |s| && start == FindOpen(s, i)
    ensures Unreported(s, i, path) == Unreported(s, start, path)
  {
    assert [] + Unreported(s, start, path) == Unreported(s, start, path);
  }

  lemma NoCandidateLeft(s: string, i: nat, path: seq<string>)
    requires i <= |s| && FindOpen(s, i) == |s|
    ensures Unreported(s, i, path) == [] + Unreported(s, |s|, path)
  {
    UnreportedFrom(s, i, |s|, path);
  }

  lemma UnclosedCandidate(s: string, i: nat, start: nat, path: seq<string>)
    requires i <= |s| && start == FindOpen(s, i) < |s| && Find('}', s, start) == |s|
    ensures Unreported(s, i, path) == [Issue(path, s[start..], Unterminated)] + Unreported(s, |s|, path)
  {
    UnreportedFrom(s, i, start, path);
    assert s[start..|s|] == s[start..];
  }

  lemma ClosedCandidate(s: string, i: nat, start: nat, end: nat, path: seq<string>)
    requires i <= |s| && start == FindOpen(s, i) < |s| && end == Find('}', s, start) < |s|
    ensures Unreported(s, i, path) == CandidateIssue(s[start..end + 1], path) + Unreported(s, end + 1, path)
  {
    UnreportedFrom(s, i, start, path);
    var piece := Piece(Candidate, start, end + 1);
    assert Cut(s, start) == Cons(piece, Cut(s, end + 1));
    assert PieceIssues(s, piece, path) == CandidateIssue(s[start..end + 1], path);
  }

  method CheckCandidate(candidate: string, path: seq<string>) returns (found: seq<Issue>)
    ensures found == CandidateIssue(candidate, path)
  {
    var segments := ParsePath(candidate);
    found := [];
    if segments.None? {
      found := [Issue(path, candidate, Malformed)];
    } else if !HasValidRoot(segments.value) {
      found := [Issue(path, candidate, Complaint.BadRoot)];
    }
  }

  /** One round of the loop: the issues it adds and where the next round starts. */
  method IssuesRound(source: string, cursor: nat, path: seq<string>) returns (found: seq<Issue>, next: nat)
    requires cursor < |source|
    ensures cursor < next <= |source|
    ensures Unreported(source, cursor, path) == found + Unreported(source, next, path)
  {
    hide Unreported, CandidateIssue;
    var start := FindOpen(source, cursor);
    if start == |source| {
      NoCandidateLeft(source, cursor, path);
      return [], |source|;
    }
    var end := Find('}', source, start);
    if end == |source| {
      UnclosedCandidate(source, cursor, start, path);
      return [Issue(path, source[start..], Unterminated)], |source|;
    }
    found := CheckCandidate(source[start..end + 1], path);
    next := end + 1;
    assert Unreported(source, cursor, path) == found + Unreported(source, next, path) by {
      ClosedCandidate(source, cursor, start, end, path);
    }
  }

  method CandidateIssues(source: string, path: seq<string>) returns (issues: seq<Issue>)
    ensures issues == StringIssues(source, path)
  {
    issues := [];
    var cursor := 0;
    ghost var goal := Unreported(source, 0, path);
    while cursor < |source|
      invariant 0 <= cursor <= |source|
      invariant goal == issues + Unreported(source, cursor, path)
    {
      var found, next := IssuesRound(source, cursor, path);
      Associates(issues, found, Unreported(source, next, path));
      issues, cursor := issues + found, next;
    }
  }

  // ----- Nested templates -----

  function IssuesIn(value: Value, path: seq<string>): seq<Issue>
    decreases value, 1
  {
    match value
    case Str(text) => StringIssues(text, path)
    case Arr(slots) => IssuesInSlots(slots, 0, path)
    case Obj(entries) => IssuesInEntries(entries, path)
    case _ => []
  }

  /** flatMap over an array skips its holes, and a hole has no issues. */
  function IssuesInSlots(slots: seq<Value>, index: nat, path: seq<string>): seq<Issue>
    decreases slots, 0
  {
    if slots == [] then []
    else IssuesIn(slots[0], path + [Numeral(index)]) + IssuesInSlots(slots[1..], index + 1, path)
  }

  function IssuesInEntries(entries: seq<Entry>, path: seq<string>): seq<Issue>
    decreases entries, 0
  {
    if entries == [] then []
    else IssuesIn(entries[0].value, path + [entries[0].key]) + IssuesInEntries(entries[1..], path)
  }

  function ResolveTemplate(template: Value, scope: Value, printer: Printer): Value
    decreases template, 1
  {
    match template
    case Str(text) => StringResult(text, scope, printer)
    case Arr(slots) => Arr(ResolveSlots(slots, scope, printer))
    case Obj(entries) => Obj(ResolveEntries(entries, scope, printer))
    case _ => template
  }

  function ResolveSlots(slots: seq<Value>, scope: Value, printer: Printer): (r: seq<Value>)
    ensures |r| == |slots|
    decreases slots, 0
  {
    if slots == [] then []
    else [ResolveTemplate(slots[0], scope, printer)] + ResolveSlots(slots[1..], scope, printer)
  }

  /** Keys are never resolved. */
  function ResolveEntries(entries: seq<Entry>, scope: Value, printer: Printer): (r: seq<Entry>)
    ensures |r| == |entries|
    ensures forall i :: 0 <= i < |r| ==> r[i].key == entries[i].key
    decreases entries, 0
  {
    if entries == [] then []
    else [Entry(entries[0].key, ResolveTemplate(entries[0].value, scope, printer))]
         + ResolveEntries(entries[1..], scope, printer)
  }

  // ----- Agreement -----

  /** The candidates copied anywhere in a template, in order. */
  function Copied(template: Value): seq<string>
    decreases template, 1
  {
    match template
    case Str(text) => CopiedIn(text)
    case Arr(slots) => CopiedInSlots(slots)
    case Obj(entries) => CopiedInEntries(entries)
    case _ => []
  }

  function CopiedInSlots(slots: seq<Value>): seq<string>
    decreases slots, 0
  {
    if slots == [] then [] else Copied(slots[0]) + CopiedInSlots(slots[1..])
  }

  function CopiedInEntries(entries: seq<Entry>): seq<string>
    decreases entries, 0
  {
    if entries == [] then [] else Copied(entries[0].value) + CopiedInEntries(entries[1..])
  }

  /** resolveTemplate: the resolved template, with a log of the candidates it copied. */
  method Resolve(template: Value, scope: Value, printer: Printer) returns (r: Value, ghost copied: seq<string>)
    ensures r == ResolveTemplate(template, scope, printer)
    ensures copied == Copied(template)
    decreases template, 1
  {
    match template
    case Str(text) =>
      r, copied := ResolveString(text, scope, printer);
    case Arr(slots) =>
      var items;
      items, copied := ResolveItems(slots, scope, printer);
      r := Arr(items);
    case Obj(entries) =>
      var items;
      items, copied := ResolveProperties(entries, scope, printer);
      r := Obj(items);
    case _ =>
      r, copied := template, [];
  }

  method ResolveItems(slots: seq<Value>, scope: Value, printer: Printer)
    returns (r: seq<Value>, ghost copied: seq<string>)
    ensures r == ResolveSlots(slots, scope, printer)
    ensures copied == CopiedInSlots(slots)
    decreases slots, 0
  {
    if slots == [] {
      return [], [];
    }
    ghost var first, rest;
    var head, tail;
    head, first := Resolve(slots[0], scope, printer);
    tail, rest := ResolveItems(slots[1..], scope, printer);
    return [head] + tail, first + rest;
  }

  method ResolveProperties(entries: seq<Entry>, scope: Value, printer: Printer)
    returns (r: seq<Entry>, ghost copied: seq<string>)
    ensures r == ResolveEntries(entries, scope, printer)
    ensures copied == CopiedInEntries(entries)
    decreases entries, 0
  {
    if entries == [] {
      return [], [];
    }
    ghost var first, rest;
    var head, tail;
    head, first := Resolve(entries[0].value, scope, printer);
    tail, rest := ResolveProperties(entries[1..], scope, printer);
    return [Entry(entries[0].key, head)] + tail, first + rest;
  }

  /** The texts of the issues that report a candidate which would ship as text. */
  function ShippedAsText(issues: seq<Issue>): seq<string> {
    if issues == [] then []
    else (if issues[0].complaint.BadRoot? then [] else [issues[0].text]) + ShippedAsText(issues[1..])
  }

  lemma {:induction false} ShippedConcat(a: seq<Issue>, b: seq<Issue>)
    ensures ShippedAsText(a + b) == ShippedAsText(a) + ShippedAsText(b)
    decreases |a|
  {
    if a == [] {
      assert a + b == b;
    } else {
      assert (a + b)[1..] == a[1..] + b;
      ShippedConcat(a[1..], b);
    }
  }

  lemma {:induction false} IssuesAreCopies(s: string, pieces: Pieces, path: seq<string>)
    ensures ShippedAsText(PiecesIssues(s, pieces, path)) == CopiedPieces(s, pieces)
  {
    match pieces
    case Nil =>
    case Cons(head, tail) =>
      IssuesAreCopies(s, tail, path);
      ShippedConcat(PieceIssues(s, head, path), PiecesIssues(s, tail, path));
  }

  /**
   The validator reports as malformed or unterminated exactly the candidates the runtime copies: the
   same texts in the same order, so as many of them.
   */
  lemma {:induction false} ValidatorReportsCopied(template: Value, path: seq<string>)
    ensures ShippedAsText(IssuesIn(template, path)) == Copied(template)
    decreases template, 1
  {
    match template
    case Str(text) => IssuesAreCopies(text, Cut(text, 0), path);
    case Arr(slots) => SlotsReportCopied(slots, 0, path);
    case Obj(entries) => EntriesReportCopied(entries, path);
    case _ =>
  }

  lemma {:induction false} SlotsReportCopied(slots: seq<Value>, index: nat, path: seq<string>)
    ensures ShippedAsText(IssuesInSlots(slots, index, path)) == CopiedInSlots(slots)
    decreases slots, 0
  {
    if slots != [] {
      SlotsReportCopied(slots[1..], index + 1, path);
      var here := path + [Numeral(index)];
      ValidatorReportsCopied(slots[0], here);
      ShippedConcat(IssuesIn(slots[0], here), IssuesInSlots(slots[1..], index + 1, path));
    }
  }

  lemma {:induction false} EntriesReportCopied(entries: seq<Entry>, path: seq<string>)
    ensures ShippedAsText(IssuesInEntries(entries, path)) == CopiedInEntries(entries)
    decreases entries, 0
  {
    if entries != [] {
      EntriesReportCopied(entries[1..], path);
      var here := path + [entries[0].key];
      ValidatorReportsCopied(entries[0].value, here);
      ShippedConcat(IssuesIn(entries[0].value, here), IssuesInEntries(entries[1..], path));
    }
  }

  predicate ResolvablePieces(s: string, pieces: Pieces) {
    match pieces
    case Nil => true
    case Cons(head, tail) =>
      && ResolvablePieces(s, tail)
      && !head.shape.Unclosed?
      && (head.shape.Candidate? ==> PathOf(PieceText(s, head)).Some? && HasValidRoot(PathOf(PieceText(s, head)).value))
  }

  /** Every candidate in every string is a path from a namespace the execution provides. */
  predicate Resolvable(template: Value)
    decreases template
  {
    match template
    case Str(text) => ResolvablePieces(text, Cut(text, 0))
    case Arr(slots) => forall i :: 0 <= i < |slots| ==> Resolvable(slots[i])
    case Obj(entries) => forall i :: 0 <= i < |entries| ==> Resolvable(entries[i].value)
    case _ => true
  }

  lemma {:induction false} NoPieceIssues(s: string, pieces: Pieces, path: seq<string>)
    ensures PiecesIssues(s, pieces, path) == [] <==> ResolvablePieces(s, pieces)
  {
    match pieces
    case Nil =>
    case Cons(head, tail) => NoPieceIssues(s, tail, path);
  }

  /** Registration accepts a template exactly when every candidate in it can resolve. */
  lemma {:induction false} AcceptedExactlyWhenResolvable(template: Value, path: seq<string>)
    ensures IssuesIn(template, path) == [] <==> Resolvable(template)
    decreases template, 1
  {
    match template
    case Str(text) => NoPieceIssues(text, Cut(text, 0), path);
    case Arr(slots) => AcceptedSlots(slots, 0, path);
    case Obj(entries) => AcceptedEntries(entries, path);
    case _ =>
  }

  lemma {:induction false} AcceptedSlots(slots: seq<Value>, index: nat, path: seq<string>)
    ensures IssuesInSlots(slots, index, path) == [] <==> forall i :: 0 <= i < |slots| ==> Resolvable(slots[i])
    decreases slots, 0
  {
    if slots != [] {
      AcceptedExactlyWhenResolvable(slots[0], path + [Numeral(index)]);
      AcceptedSlots(slots[1..], index + 1, path);
      assert forall i :: 1 <= i < |slots| ==> slots[i] == slots[1..][i - 1];
    }
  }

  lemma {:induction false} AcceptedEntries(entries: seq<Entry>, path: seq<string>)
    ensures IssuesInEntries(entries, path) == [] <==> forall i :: 0 <= i < |entries| ==> Resolvable(entries[i].value)
    decreases entries, 0
  {
    if entries != [] {
      AcceptedExactlyWhenResolvable(entries[0].value, path + [entries[0].key]);
      AcceptedEntries(entries[1..], path);
      assert forall i :: 1 <= i < |entries| ==> entries[i] == entries[1..][i - 1];
    }
  }

  /** Resolve copies nothing exactly when the validator finds nothing but unknown roots; so never once accepted. */
  lemma AcceptedCopiesNothing(template: Value, path: seq<string>)
    ensures Copied(template) == [] <==>
              forall i :: 0 <= i < |IssuesIn(template, path)| ==> IssuesIn(template, path)[i].complaint.BadRoot?
    ensures IssuesIn(template, path) == [] ==> Copied(template) == []
  {
    ValidatorReportsCopied(template, path);
    NothingShipped(IssuesIn(template, path));
  }

  lemma {:induction false} NothingShipped(issues: seq<Issue>)
    ensures ShippedAsText(issues) == [] <==> forall i :: 0 <= i < |issues| ==> issues[i].complaint.BadRoot?
    decreases |issues|
  {
    if issues != [] {
      NothingShipped(issues[1..]);
      assert forall i :: 1 <= i < |issues| ==> issues[i] == issues[1..][i - 1];
    }
  }

  // ----- No template text in the result -----

  predicate StartsWithDollar(s: string) {
    s != "" && s[0] == '$'
  }

  predicate NoneOpens(s: string) {
    forall k :: 0 <= k < |s| ==> !OpensAt(s, k)
  }

  predicate EndsWithBrace(s: string) {
    s != "" && s[|s| - 1] == '{'
  }

  lemma OpensAcross(a: string, b: string, k: nat)
    requires k < |a + b|
    ensures OpensAt(a + b, k)
       <==> if k + 1 < |a| then OpensAt(a, k)
            else if k < |a| then EndsWithBrace(a) && StartsWithDollar(b)
            else OpensAt(b, k - |a|)
  {
  }

  /** Two texts in a row open a template exactly when one of them does, or `{` and `$` meet. */
  lemma NoneOpensAcross(a: string, b: string)
    ensures NoneOpens(a + b) <==> NoneOpens(a) && NoneOpens(b) && !(EndsWithBrace(a) && StartsWithDollar(b))
  {
    if NoneOpens(a + b) {
      forall k | 0 <= k < |a| ensures !OpensAt(a, k) {
        OpensAcross(a, b, k);
      }
      forall k | 0 <= k < |b| ensures !OpensAt(b, k) {
        OpensAcross(a, b, |a| + k);
      }
      if a != "" {
        OpensAcross(a, b, |a| - 1);
      }
    } else {
      var k :| 0 <= k < |a + b| && OpensAt(a + b, k);
      OpensAcross(a, b, k);
    }
  }

  /** No value shown for a candidate of the string holds an opening. */
  predicate ShownOpenNothing(s: string, pieces: Pieces, scope: Value, printer: Printer) {
    match pieces
    case Nil => true
    case Cons(head, tail) =>
      && (head.shape.Candidate? ==> NoneOpens(ShowPiece(s, head, scope, printer)))
      && ShownOpenNothing(s, tail, scope, printer)
  }

  /** Nowhere is what is shown for a piece and ends in `{` followed by a text that starts with `$`. */
  predicate NoBraceMeetsDollar(s: string, pieces: Pieces, scope: Value, printer: Printer) {
    match pieces
    case Nil => true
    case Cons(head, tail) =>
      && !(EndsWithBrace(ShowPiece(s, head, scope, printer)) && StartsWithDollar(ShowPieces(s, tail, scope, printer)))
      && NoBraceMeetsDollar(s, tail, scope, printer)
  }

  lemma PlainOpensNothing(s: string, i: nat, piece: Piece)
    requires IsPiece(s, i, piece) && piece.shape.Plain?
    ensures NoneOpens(PieceText(s, piece))
  {
    var text := PieceText(s, piece);
    assert forall k :: 0 <= k < |text| ==> text[k] == s[i + k];
    forall k | 0 <= k < |text| ensures !OpensAt(text, k) {
      assert !OpensAt(s, i + k);
    }
  }

  lemma {:induction false} ShownPiecesLeak(s: string, i: nat, pieces: Pieces, scope: Value, printer: Printer)
    requires i <= |s| && WellCut(s, i, pieces) && ResolvablePieces(s, pieces)
    ensures NoneOpens(ShowPieces(s, pieces, scope, printer))
       <==> ShownOpenNothing(s, pieces, scope, printer) && NoBraceMeetsDollar(s, pieces, scope, printer)
    decreases pieces
  {
    match pieces
    case Nil =>
    case Cons(head, tail) =>
      ShownPiecesLeak(s, head.to, tail, scope, printer);
      if head.shape.Plain? {
        PlainOpensNothing(s, i, head);
      }
      NoneOpensAcross(ShowPiece(s, head, scope, printer), ShowPieces(s, tail, scope, printer));
  }

  /**
   No `{$` is left in the text an accepted template resolves to if and only if no value it shows holds
   one, and none is put together where a shown piece ends in `{` and what follows starts with `$`.
   */
  lemma NoTemplateTextLeaks(source: string, scope: Value, printer: Printer, path: seq<string>)
    requires StringIssues(source, path) == [] && PathOf(source).None?
    ensures StringResult(source, scope, printer).Str?
    ensures NoneOpens(StringResult(source, scope, printer).text)
       <==> && ShownOpenNothing(source, Cut(source, 0), scope, printer)
            && NoBraceMeetsDollar(source, Cut(source, 0), scope, printer)
  {
    NoPieceIssues(source, Cut(source, 0), path);
    CutIsWellCut(source, 0);
    ShownPiecesLeak(source, 0, Cut(source, 0), scope, printer);
  }

  // ----- A condition on the values alone -----

  /** No value shown for a candidate of the string brings a dollar sign along. */
  predicate ShownDollarFree(s: string, pieces: Pieces, scope: Value, printer: Printer) {
    match pieces
    case Nil => true
    case Cons(head, tail) =>
      && (head.shape.Candidate? ==> '$' !in ShowPiece(s, head, scope, printer))
      && ShownDollarFree(s, tail, scope, printer)
  }

  /** No dollar sign stands directly after a closing brace. */
  predicate NoDollarAfterBrace(s: string) {
    forall k :: 0 < k < |s| && s[k] == '$' ==> s[k - 1] != '}'
  }

  lemma DollarFreeOpensNothing(text: string)
    requires '$' !in text
    ensures NoneOpens(text) && !StartsWithDollar(text)
  {
    forall k | 0 <= k < |text| ensures !OpensAt(text, k) {
      assert k + 1 < |text| ==> text[k + 1] in text;
    }
  }

  lemma {:induction false} DollarFreePieces(s: string, i: nat, pieces: Pieces, scope: Value, printer: Printer)
    requires i <= |s| && WellCut(s, i, pieces) && ResolvablePieces(s, pieces)
    requires ShownDollarFree(s, pieces, scope, printer) && NoDollarAfterBrace(s)
    ensures ShownOpenNothing(s, pieces, scope, printer) && NoBraceMeetsDollar(s, pieces, scope, printer)
    ensures StartsWithDollar(ShowPieces(s, pieces, scope, printer)) ==>
              pieces.Cons? && pieces.head.shape.Plain? && s[i] == '$'
    decreases pieces
  {
    hide ShowCandidate, PathOf;
    match pieces
    case Nil =>
    case Cons(head, tail) =>
      DollarFreePieces(s, head.to, tail, scope, printer);
      if head.shape.Candidate? {
        DollarFreeOpensNothing(ShowPiece(s, head, scope, printer));
      }
  }

  /** So nothing leaks when no value shown brings a dollar sign and none stands directly after a brace. */
  lemma DollarFreeValuesLeakNothing(source: string, scope: Value, printer: Printer, path: seq<string>)
    requires StringIssues(source, path) == [] && PathOf(source).None?
    requires ShownDollarFree(source, Cut(source, 0), scope, printer) && NoDollarAfterBrace(source)
    ensures StringResult(source, scope, printer).Str? && NoneOpens(StringResult(source, scope, printer).text)
  {
    NoPieceIssues(source, Cut(source, 0), path);
    CutIsWellCut(source, 0);
    DollarFreePieces(source, 0, Cut(source, 0), scope, printer);
    NoTemplateTextLeaks(source, scope, printer, path);
  }

  /** The namespaces of an execution. */
  function ScopeOf(context: Value, env: Value, output: Value): Value {
    Obj([Entry("context", context), Entry("env", env), Entry("output", output)])
  }

  const LEAKY_TEMPLATE := "{{$context.a}"

  /** What both loops see in it. */
  lemma LeakyCut()
    ensures Cut(LEAKY_TEMPLATE, 0) == Cons(Piece(Plain, 0, 1), Cons(Piece(Candidate, 1, 13), Nil))
  {
    hide Cut, PathOf;
    var s := LEAKY_TEMPLATE;
    assert NoClosing(s, 1, 12);
    assert IsPiece(s, 0, Piece(Plain, 0, 1)) && IsPiece(s, 1, Piece(Candidate, 1, 13));
    ScanIsTheCut(s, Cons(Piece(Plain, 0, 1), Cons(Piece(Candidate, 1, 13), Nil)));
  }

  lemma LeakyPrint()
    ensures PrintPath([Key("context"), Key("a")]) == LEAKY_TEMPLATE[1..13]
  {
    var segments, tail := [Key("context"), Key("a")], [Key("a")];
    assert segments[1..] == tail && tail[1..] == [];
    assert IsIdentifier("context") && IsIdentifier("a");
    assert FormatSegment(Key("context"), true) == "context" && FormatSegment(Key("a"), false) == ".a";
    hide FormatSegment, IsIdentifier;
    assert FormatFrom([], false) == "";
    assert FormatFrom(tail, false) == ".a" + "";
    assert FormatFrom(segments, true) == "context" + ".a";
    assert LEAKY_TEMPLATE[1..13] == "{$context.a}";
  }

  /** The candidate in it is a path, and it is not one as a whole. */
  lemma LeakyPath()
    ensures PathOf(LEAKY_TEMPLATE).None?
    ensures PathOf(LEAKY_TEMPLATE[1..13]) == Some([Key("context"), Key("a")])
  {
    hide PathFrom, PrintPath;
    LeakyPrint();
    PathRoundTrip([Key("context"), Key("a")]);
  }

  lemma LeakyLookup(a: Value, env: Value, output: Value)
    ensures Lookup(ScopeOf(Obj([Entry("a", a)]), env, output), [Key("context"), Key("a")]) == Some(a)
  {
    var context, segments := Obj([Entry("a", a)]), [Key("context"), Key("a")];
    assert segments[1..] == [Key("a")] && [Key("a")][1..] == [];
    assert Lookup(context, [Key("a")]) == Some(a);
    assert Lookup(ScopeOf(context, env, output), segments) == Lookup(context, segments[1..]);
  }

  /** An accepted template and a value that put a template together: both brace and dollar sign were text. */
  lemma BraceMeetsDollar(env: Value, output: Value, printer: Printer)
    ensures StringIssues(LEAKY_TEMPLATE, []) == []
    ensures var scope := ScopeOf(Obj([Entry("a", Str("$env.X}"))]), env, output);
            StringResult(LEAKY_TEMPLATE, scope, printer) == Str("{$env.X}")
  {
    var scope := ScopeOf(Obj([Entry("a", Str("$env.X}"))]), env, output);
    LeakyCut();
    LeakyPath();
    LeakyLookup(Str("$env.X}"), env, output);
    hide Lookup;
    var text := LEAKY_TEMPLATE[1..13];
    assert ShowCandidate(text, scope, printer) == "$env.X}";
    assert LEAKY_TEMPLATE[0..1] == "{";
    assert ShowPieces(LEAKY_TEMPLATE, Cons(Piece(Candidate, 1, 13), Nil), scope, printer) == "$env.X}" + "";
    NoPieceIssues(LEAKY_TEMPLATE, Cut(LEAKY_TEMPLATE, 0), []);
  }

  /** A path whose root the validator rejects resolves to null in every scope; the others can resolve. */
  lemma OnlyKnownRootsResolve(segments: seq<Segment>, context: Value, env: Value, output: Value)
    requires WellFormed(segments) && AllPlain(segments)
    ensures !HasValidRoot(segments) ==> Lookup(ScopeOf(context, env, output), segments) == None
    ensures HasValidRoot(segments) && |segments| == 1
            ==> Lookup(ScopeOf(context, env, output), segments).Some?
  {
    var scope := ScopeOf(context, env, output);
    var name := segments[0].name;
    if EntryOf(scope.entries, name).Some? {
      assert exists i :: 0 <= i < 3 && scope.entries[i].key == name;
    }
    if HasValidRoot(segments) && |segments| == 1 {
      assert exists i :: 0 <= i < 3 && scope.entries[i].key == name by {
        assert scope.entries[0].key == "context" && scope.entries[1].key == "env" && scope.entries[2].key == "output";
      }
      assert segments[1..] == [];
    }
  }
}
