/**
 Paths: the `{$root.key[0]}` paths of templates and predicates, and the payload paths of
 validation fields, which add wildcards and quoted keys. Both parsers are left-to-right cursor
 loops over the same key and index patterns, so they share one segment type here; the theorems
 say which texts each accepts, and that printing inverts parsing.
 */
module Paths {
  import opened Prelude
  import opened Text
  import opened Json

  datatype Segment = Key(name: string) | Quoted(name: string) | Index(index: nat) | Wildcard

  /** A segment of a `{$...}` path, which has neither quoted keys nor wildcards. */
  predicate IsPlain(segment: Segment) {
    segment.Key? || segment.Index?
  }

  predicate AllPlain(segments: seq<Segment>) {
    forall i :: 0 <= i < |segments| ==> IsPlain(segments[i])
  }

  function Prefixed(first: seq<Segment>, rest: Option<seq<Segment>>): (r: Option<seq<Segment>>)
    ensures first == [] ==> r == rest
  {
    if rest.None? then None
    else
      assert [] + rest.value == rest.value;
      Some(first + rest.value)
  }

  lemma PrefixedTwice(a: seq<Segment>, b: seq<Segment>, rest: Option<seq<Segment>>)
    ensures Prefixed(a, Prefixed(b, rest)) == Prefixed(a + b, rest)
  {
    if rest.Some? {
      assert a + (b + rest.value) == a + b + rest.value;
    }
  }

  // ----- Payload paths (request-validation.ts) -----

  /** End of the segment the parser reads at i; i itself when it reads none. */
  function HeadEnd(s: string, i: nat, expectKey: bool): (end: nat)
    requires i <= |s|
    ensures i <= end <= |s|
  {
    if expectKey && i < KeyEnd(s, i) then KeyEnd(s, i)
    else if !expectKey && i < IndexEnd(s, i) then IndexEnd(s, i)
    else if !expectKey && StarAt(s, i) then i + 3
    else QuotedEnd(s, i)
  }

  function HeadSegment(s: string, i: nat, expectKey: bool): Segment
    requires i <= |s| && i < HeadEnd(s, i, expectKey)
  {
    var end := HeadEnd(s, i, expectKey);
    if expectKey && i < KeyEnd(s, i) then Key(s[i..end])
    else if !expectKey && i < IndexEnd(s, i) then Index(NumeralValue(s[i + 1..end - 1]))
    else if !expectKey && StarAt(s, i) then Wildcard
    else Quoted(s[i + 2..end - 2])
  }

  /** The segments of the text from i on; expectKey is the parser's one bit of state. */
  function FieldFrom(s: string, i: nat, expectKey: bool): Option<seq<Segment>>
    requires i <= |s|
    decreases |s| - i
  {
    if i == |s| then
      if expectKey then None else Some([])
    else if !expectKey && s[i] == '.' then
      FieldFrom(s, i + 1, true)
    else
      var end := HeadEnd(s, i, expectKey);
      if end == i then None else Prefixed([HeadSegment(s, i, expectKey)], FieldFrom(s, end, false))
  }

  function FieldSegments(source: string): Option<seq<Segment>> {
    FieldFrom(source, 0, true)
  }

  /** The patterns the loop of ParseFieldPath tries at the cursor; end == i when none matches. */
  method ReadSegment(s: string, i: nat, expectKey: bool) returns (segment: Segment, end: nat)
    requires i < |s|
    ensures end == HeadEnd(s, i, expectKey)
    ensures i < end ==> segment == HeadSegment(s, i, expectKey)
  {
    if expectKey {
      end := KeyEnd(s, i);
      if i < end {
        return Key(s[i..end]), end;
      }
    } else {
      end := IndexEnd(s, i);
      if i < end {
        return Index(NumeralValue(s[i + 1..end - 1])), end;
      }
      if StarAt(s, i) {
        return Wildcard, i + 3;
      }
    }
    end := QuotedEnd(s, i);
    segment := if i < end then Quoted(s[i + 2..end - 2]) else Wildcard;
  }

  method ParseFieldPath(source: string) returns (r: Option<seq<Segment>>)
    ensures r == FieldSegments(source)
  {
    if |source| == 0 {
      return None;
    }
    var segments: seq<Segment> := [];
    var cursor, expectKey := 0, true;
    while cursor < |source|
      invariant 0 <= cursor <= |source|
      invariant FieldSegments(source) == Prefixed(segments, FieldFrom(source, cursor, expectKey))
      decreases |source| - cursor
    {
      if !expectKey && source[cursor] == '.' {
        cursor, expectKey := cursor + 1, true;
        continue;
      }
      var segment, end := ReadSegment(source, cursor, expectKey);
      if end == cursor {
        return None;
      }
      PrefixedTwice(segments, [segment], FieldFrom(source, end, false));
      segments, cursor, expectKey := segments + [segment], end, false;
    }
    assert segments + [] == segments;
    r := if expectKey then None else Some(segments);
  }

  // ----- The grammar -----

  /** text is one way of writing segment; only the first segment of a path stands without a dot. */
  predicate SpellsSegment(text: string, segment: Segment, first: bool) {
    match segment
    case Key(name) => IsIdentifier(name) && text == (if first then name else "." + name)
    case Quoted(name) => IsQuotable(name) && (text == Bracketed(name) || (!first && text == "." + Bracketed(name)))
    case Index(n) =>
      && !first && 3 <= |text| && text[0] == '[' && text[|text| - 1] == ']'
      && IsNumeral(text[1..|text| - 1]) && NumeralValue(text[1..|text| - 1]) == n
    case Wildcard => !first && text == "[*]"
  }

  function Bracketed(name: string): string {
    "[\"" + name + "\"]"
  }

  /** From i on, s is a concatenation of spellings of the segments, in order. */
  ghost predicate Spells(s: string, i: nat, segments: seq<Segment>, first: bool)
    requires i <= |s|
    decreases |segments|
  {
    if segments == [] then i == |s| && !first
    else exists j :: i < j <= |s| && SpellsSegment(s[i..j], segments[0], first) && Spells(s, j, segments[1..], false)
  }

  /** The end of the first segment of a spelling. */
  lemma SpellsHead(s: string, i: nat, segments: seq<Segment>, first: bool) returns (j: nat)
    requires i <= |s| && segments != [] && Spells(s, i, segments, first)
    ensures i < j <= |s| && SpellsSegment(s[i..j], segments[0], first) && Spells(s, j, segments[1..], false)
  {
    j :| i < j <= |s| && SpellsSegment(s[i..j], segments[0], first) && Spells(s, j, segments[1..], false);
  }

  lemma HeadIsSpelled(s: string, i: nat, expectKey: bool)
    requires i < |s| && i < HeadEnd(s, i, expectKey)
    ensures SpellsSegment(s[i..HeadEnd(s, i, expectKey)], HeadSegment(s, i, expectKey), expectKey)
  {
    hide NumeralValue, RunEnd;
    var end := HeadEnd(s, i, expectKey);
    var text := s[i..end];
    match HeadSegment(s, i, expectKey)
    case Key(_) => KeyIsIdentifier(s, i);
    case Index(_) => SliceOfSlice(s, i, end, 1, |text| - 1);
    case Quoted(_) => QuotedIsSpelled(s, i);
    case Wildcard =>
  }

  lemma QuotedIsSpelled(s: string, i: nat)
    requires i < |s| && i < QuotedEnd(s, i)
    ensures var end := QuotedEnd(s, i); IsQuotable(s[i + 2..end - 2]) && s[i..end] == Bracketed(s[i + 2..end - 2])
  {
    QuotedIsQuotable(s, i);
  }

  /** Every accepted text is a spelling of the segments it is parsed into. */
  lemma {:induction false} ParsedIsSpelled(s: string, i: nat, first: bool)
    requires i <= |s| && FieldFrom(s, i, first).Some?
    ensures Spells(s, i, FieldFrom(s, i, first).value, first)
    decreases |s| - i
  {
    if i == |s| {
    } else if !first && s[i] == '.' {
      ParsedIsSpelled(s, i + 1, true);
    } else {
      var end := HeadEnd(s, i, first);
      ParsedIsSpelled(s, end, false);
      HeadIsSpelled(s, i, first);
    }
  }

  /** A first segment is read back as that segment, whatever spelling follows. */
  lemma FirstIsRead(s: string, i: nat, j: nat, segment: Segment)
    requires i < j <= |s| && SpellsSegment(s[i..j], segment, true)
    requires j == |s| || s[j] == '.' || s[j] == '['
    ensures HeadEnd(s, i, true) == j && HeadSegment(s, i, true) == segment
  {
    var text := s[i..j];
    match segment
    case Key(name) =>
      KeyEndsAt(s, i, j);
    case Quoted(name) =>
      QuotedIsRead(s, i, j, name);
  }

  lemma QuotedIsRead(s: string, i: nat, j: nat, name: string)
    requires i < j <= |s| && IsQuotable(name) && s[i..j] == Bracketed(name)
    ensures QuotedEnd(s, i) == j && s[i + 2..j - 2] == name
    ensures KeyEnd(s, i) == i && IndexEnd(s, i) == i && !StarAt(s, i)
  {
    var text := s[i..j];
    assert text[0] == s[i] && text[1] == s[i + 1] && text[|text| - 2] == s[j - 2] && text[|text| - 1] == s[j - 1];
    assert text[2..|text| - 2] == name;
    SliceOfSlice(s, i, j, 2, |text| - 2);
    QuotedEndsAt(s, i, j);
  }

  /** So is a later segment that opens with a bracket. */
  lemma LaterIsRead(s: string, i: nat, j: nat, segment: Segment)
    requires i < j <= |s| && s[i] == '[' && SpellsSegment(s[i..j], segment, false)
    ensures HeadEnd(s, i, false) == j && HeadSegment(s, i, false) == segment
  {
    var text := s[i..j];
    assert text[0] == s[i];
    match segment
    case Key(_) =>
    case Quoted(name) =>
      QuotedIsRead(s, i, j, name);
    case Index(_) =>
      SliceOfSlice(s, i, j, 1, |text| - 1);
      assert text[|text| - 1] == s[j - 1];
      IndexEndsAt(s, i, j);
    case Wildcard =>
      assert text[1] == s[i + 1] && text[2] == s[i + 2];
  }

  lemma SpellingIsRead(s: string, i: nat, j: nat, segment: Segment, first: bool)
    requires i < j <= |s| && SpellsSegment(s[i..j], segment, first)
    requires j == |s| || s[j] == '.' || s[j] == '['
    ensures FieldFrom(s, i, first) == Prefixed([segment], FieldFrom(s, j, false))
  {
    assert s[i] == s[i..j][0];
    if first {
      FirstIsRead(s, i, j, segment);
    } else if s[i] == '.' {
      assert s[i + 1..j] == s[i..j][1..];
      FirstIsRead(s, i + 1, j, segment);
    } else {
      LaterIsRead(s, i, j, segment);
    }
  }

  /** Every spelling is accepted, and read as the segments it spells: the grammar is unambiguous. */
  lemma {:induction false} SpelledIsParsed(s: string, i: nat, segments: seq<Segment>, first: bool)
    requires i <= |s| && Spells(s, i, segments, first)
    ensures FieldFrom(s, i, first) == Some(segments)
    decreases |segments|
  {
    if segments != [] {
      var j := SpellsHead(s, i, segments, first);
      SpelledIsParsed(s, j, segments[1..], false);
      SpellingIsRead(s, i, j, segments[0], first);
      assert [segments[0]] + segments[1..] == segments;
    }
  }

  /** ParseFieldPath accepts exactly the spellings of segment lists. */
  lemma FieldPathGrammar(source: string, segments: seq<Segment>)
    ensures FieldSegments(source) == Some(segments) <==> Spells(source, 0, segments, true)
  {
    if FieldSegments(source).Some? {
      ParsedIsSpelled(source, 0, true);
    }
    if Spells(source, 0, segments, true) {
      SpelledIsParsed(source, 0, segments, true);
    }
  }

  // ----- Printing (formatSegment, formatPath) -----

  function FormatSegment(segment: Segment, first: bool): string {
    match segment
    case Index(n) => "[" + Numeral(n) + "]"
    case Wildcard => "[*]"
    case Key(name) =>
      if IsIdentifier(name) then (if first then name else "." + name) else Bracketed(name)
    case Quoted(name) => Bracketed(name)
  }

  function FormatFrom(segments: seq<Segment>, first: bool): string {
    if segments == [] then "" else FormatSegment(segments[0], first) + FormatFrom(segments[1..], false)
  }

  function FormatPath(segments: seq<Segment>): string {
    FormatFrom(segments, true)
  }

  predicate WellFormedSegment(segment: Segment) {
    match segment
    case Key(name) => IsIdentifier(name)
    case Quoted(name) => IsQuotable(name)
    case _ => true
  }

  predicate CanBegin(segments: seq<Segment>) {
    segments != [] && (segments[0].Key? || segments[0].Quoted?)
  }

  /** The segment lists a path can denote. */
  predicate WellFormed(segments: seq<Segment>) {
    CanBegin(segments) && forall i :: 0 <= i < |segments| ==> WellFormedSegment(segments[i])
  }

  lemma {:induction false} FormatSpells(s: string, i: nat, segments: seq<Segment>, first: bool)
    requires forall k :: 0 <= k < |segments| ==> WellFormedSegment(segments[k])
    requires first ==> CanBegin(segments)
    requires i <= |s| && s[i..] == FormatFrom(segments, first)
    ensures Spells(s, i, segments, first)
    decreases |segments|
  {
    if segments != [] {
      var text := FormatSegment(segments[0], first);
      var j := i + |text|;
      var rest := FormatFrom(segments[1..], false);
      assert |s| - i == |text| + |rest|;
      SplitAt(s, i, j);
      ConcatMatches(text, rest, s[i..j], s[j..]);
      FormatSpells(s, j, segments[1..], false);
    }
  }

  /** Parsing a formatted well-formed payload path returns that path. */
  lemma FieldPathRoundTrip(segments: seq<Segment>)
    requires WellFormed(segments)
    ensures FieldSegments(FormatPath(segments)) == Some(segments)
  {
    var s := FormatPath(segments);
    assert s[0..] == s;
    FormatSpells(s, 0, segments, true);
    SpelledIsParsed(s, 0, segments, true);
  }

  lemma {:induction false} SpelledIsWellFormed(s: string, i: nat, segments: seq<Segment>, first: bool)
    requires i <= |s| && Spells(s, i, segments, first)
    ensures first ==> CanBegin(segments)
    ensures forall k :: 0 <= k < |segments| ==> WellFormedSegment(segments[k])
    decreases |segments|
  {
    if segments != [] {
      var j := SpellsHead(s, i, segments, first);
      SpelledIsWellFormed(s, j, segments[1..], false);
      forall k | 0 <= k < |segments| ensures WellFormedSegment(segments[k]) {
        if 0 < k {
          assert segments[k] == segments[1..][k - 1];
        }
      }
    }
  }

  lemma SegmentIsShortest(text: string, segment: Segment, first: bool)
    requires SpellsSegment(text, segment, first)
    ensures |FormatSegment(segment, first)| <= |text|
    ensures |FormatSegment(segment, first)| == |text| ==> FormatSegment(segment, first) == text
  {
    if segment.Index? {
      var digits := text[1..|text| - 1];
      NumeralIsShortest(digits);
      assert text == "[" + digits + "]";
    }
  }

  /** Formatting yields the unique shortest spelling: parsing loses only redundant characters. */
  lemma {:induction false} FormatIsShortest(s: string, i: nat, segments: seq<Segment>, first: bool)
    requires i <= |s| && Spells(s, i, segments, first)
    ensures |FormatFrom(segments, first)| <= |s| - i
    ensures |FormatFrom(segments, first)| == |s| - i ==> FormatFrom(segments, first) == s[i..]
    decreases |segments|
  {
    if segments != [] {
      var j := SpellsHead(s, i, segments, first);
      FormatIsShortest(s, j, segments[1..], false);
      SegmentIsShortest(s[i..j], segments[0], first);
      SplitAt(s, i, j);
      ConcatMatches(FormatSegment(segments[0], first), FormatFrom(segments[1..], false), s[i..j], s[j..]);
    }
  }

  /** Format after parse is a normal form: it is stable, and no other spelling is as short. */
  lemma FieldPathNormalForm(source: string)
    requires FieldSegments(source).Some?
    ensures var normal := FormatPath(FieldSegments(source).value);
            && FieldSegments(normal) == FieldSegments(source)
            && |normal| <= |source|
            && (|normal| == |source| ==> normal == source)
  {
    var segments := FieldSegments(source).value;
    ParsedIsSpelled(source, 0, true);
    SpelledIsWellFormed(source, 0, segments, true);
    FieldPathRoundTrip(segments);
    FormatIsShortest(source, 0, segments, true);
    assert source[0..] == source;
  }

  // ----- `{$...}` paths (path.ts) -----

  function PathFrom(s: string, i: nat, expectKey: bool): Option<seq<Segment>>
    requires i <= |s|
    decreases |s| - i
  {
    if i == |s| then
      if expectKey then None else Some([])
    else if expectKey then
      var end := KeyEnd(s, i);
      if end == i then None else Prefixed([Key(s[i..end])], PathFrom(s, end, false))
    else if s[i] == '.' then
      PathFrom(s, i + 1, true)
    else
      var end := IndexEnd(s, i);
      if end == i then None else Prefixed([Index(NumeralValue(s[i + 1..end - 1]))], PathFrom(s, end, false))
  }

  predicate IsBraced(source: string) {
    2 < |source| && source[0] == '{' && source[1] == '$' && source[|source| - 1] == '}'
  }

  function Inner(source: string): string
    requires IsBraced(source)
  {
    source[2..|source| - 1]
  }

  function PathSegments(source: string): Option<seq<Segment>> {
    if IsBraced(source) then PathFrom(Inner(source), 0, true) else None
  }

  method ParsePath(source: string) returns (r: Option<seq<Segment>>)
    ensures r == PathSegments(source)
  {
    hide KeyEnd, IndexEnd, NumeralValue;
    if !IsBraced(source) {
      return None;
    }
    var inner := Inner(source);
    if |inner| == 0 {
      return None;
    }
    var segments: seq<Segment> := [];
    var cursor, expectKey := 0, true;
    while cursor < |inner|
      invariant 0 <= cursor <= |inner|
      invariant PathSegments(source) == Prefixed(segments, PathFrom(inner, cursor, expectKey))
      decreases |inner| - cursor
    {
      if expectKey {
        var key := KeyEnd(inner, cursor);
        if key == cursor {
          return None;
        }
        PrefixedTwice(segments, [Key(inner[cursor..key])], PathFrom(inner, key, false));
        segments := segments + [Key(inner[cursor..key])];
        cursor, expectKey := key, false;
        continue;
      }
      if inner[cursor] == '.' {
        cursor, expectKey := cursor + 1, true;
        continue;
      }
      var index := IndexEnd(inner, cursor);
      if index == cursor {
        return None;
      }
      PrefixedTwice(segments, [Index(NumeralValue(inner[cursor + 1..index - 1]))], PathFrom(inner, index, false));
      segments := segments + [Index(NumeralValue(inner[cursor + 1..index - 1]))];
      cursor := index;
    }
    assert segments + [] == segments;
    r := if expectKey then None else Some(segments);
  }

  function OnlyPlain(r: Option<seq<Segment>>): Option<seq<Segment>> {
    if r.Some? && AllPlain(r.value) then r else None
  }

  lemma OnlyPlainPrefixed(segment: Segment, rest: Option<seq<Segment>>)
    ensures OnlyPlain(Prefixed([segment], rest))
         == if IsPlain(segment) then Prefixed([segment], OnlyPlain(rest)) else None
  {
    if rest.Some? {
      var whole := [segment] + rest.value;
      assert whole[0] == segment;
      assert forall i :: 0 <= i < |rest.value| ==> rest.value[i] == whole[i + 1];
    }
  }

  /** Inside its braces, a path is a payload path without wildcards and quoted keys. */
  lemma {:induction false} PathIsPlainFieldPath(s: string, i: nat, expectKey: bool)
    requires i <= |s|
    ensures PathFrom(s, i, expectKey) == OnlyPlain(FieldFrom(s, i, expectKey))
    decreases |s| - i
  {
    if i < |s| {
      if !expectKey && s[i] == '.' {
        PathIsPlainFieldPath(s, i + 1, true);
      } else {
        var end := HeadEnd(s, i, expectKey);
        if i < end {
          PathIsPlainFieldPath(s, end, false);
          OnlyPlainPrefixed(HeadSegment(s, i, expectKey), FieldFrom(s, end, false));
        }
      }
    }
  }

  /** ParsePath accepts exactly `{$`, a plain payload path, `}`. */
  lemma PathGrammar(source: string, segments: seq<Segment>)
    ensures PathSegments(source) == Some(segments)
       <==> IsBraced(source) && AllPlain(segments) && Spells(Inner(source), 0, segments, true)
  {
    if IsBraced(source) {
      PathIsPlainFieldPath(Inner(source), 0, true);
      FieldPathGrammar(Inner(source), segments);
    }
  }

  function PrintPath(segments: seq<Segment>): string {
    "{$" + FormatPath(segments) + "}"
  }

  lemma PathRoundTrip(segments: seq<Segment>)
    requires WellFormed(segments) && AllPlain(segments)
    ensures PathSegments(PrintPath(segments)) == Some(segments)
  {
    var source := PrintPath(segments);
    assert Inner(source) == FormatPath(segments);
    FieldPathRoundTrip(segments);
    PathIsPlainFieldPath(Inner(source), 0, true);
  }

  predicate LeadingZeroAt(s: string, i: nat) {
    i + 2 < |s| && s[i] == '[' && s[i + 1] == '0' && s[i + 2] != ']'
  }

  /** From i on, some bracketed index is written with a leading zero. */
  ghost predicate HasLeadingZero(s: string, i: nat) {
    exists k :: i <= k && LeadingZeroAt(s, k)
  }

  lemma BracketOpensAtHead(s: string, i: nat, j: nat, segment: Segment, first: bool)
    requires i < j <= |s| && IsPlain(segment) && SpellsSegment(s[i..j], segment, first)
    ensures forall k :: i <= k < j && s[k] == '[' ==> segment.Index? && k == i
  {
    var text := s[i..j];
    match segment
    case Key(name) =>
      assert '[' !in name;
      assert forall k :: i <= k < j ==> s[k] == text[k - i];
    case Index(_) =>
      var digits := text[1..|text| - 1];
      assert '[' !in digits;
      assert forall k :: i < k < j - 1 ==> s[k] == digits[k - i - 1];
      assert s[j - 1] == text[|text| - 1];
  }

  lemma LeadingZeroSplits(s: string, i: nat, j: nat, segment: Segment, first: bool)
    requires i < j <= |s| && IsPlain(segment) && SpellsSegment(s[i..j], segment, first)
    ensures HasLeadingZero(s, i) <==> HasLeadingZero(s, j) || (segment.Index? && LeadingZeroAt(s, i))
  {
    if HasLeadingZero(s, i) {
      var k: nat :| i <= k && LeadingZeroAt(s, k);
      BracketOpensAtHead(s, i, j, segment, first);
    }
  }

  lemma SegmentNormalForm(s: string, i: nat, j: nat, segment: Segment, first: bool)
    requires i < j <= |s| && IsPlain(segment) && SpellsSegment(s[i..j], segment, first)
    ensures FormatSegment(segment, first) == s[i..j] <==> !(segment.Index? && LeadingZeroAt(s, i))
  {
    hide Numeral, NumeralValue;
    if segment.Index? {
      var text := s[i..j];
      var digits := text[1..|text| - 1];
      SliceOfSlice(s, i, j, 1, |text| - 1);
      NumeralIsShortest(digits);
      assert text == "[" + digits + "]";
      assert s[i + 1] == digits[0] && s[j - 1] == text[|text| - 1];
      assert 1 < |digits| ==> s[i + 2] == digits[1];
      var normal := Numeral(segment.index);
      assert ("[" + normal + "]")[1..|normal| + 1] == normal;
    }
  }

  /** A spelling equals the formatted path exactly when each of its parts does. */
  lemma SameSplit(s: string, i: nat, j: nat, segments: seq<Segment>, first: bool)
    requires i < j <= |s| && segments != []
    requires SpellsSegment(s[i..j], segments[0], first) && Spells(s, j, segments[1..], false)
    ensures FormatFrom(segments, first) == s[i..]
       <==> FormatSegment(segments[0], first) == s[i..j] && FormatFrom(segments[1..], false) == s[j..]
  {
    SegmentIsShortest(s[i..j], segments[0], first);
    FormatIsShortest(s, j, segments[1..], false);
    SplitAt(s, i, j);
    ConcatMatches(FormatSegment(segments[0], first), FormatFrom(segments[1..], false), s[i..j], s[j..]);
  }

  lemma {:induction false} PlainSpellingIsFormatted(s: string, i: nat, segments: seq<Segment>, first: bool)
    requires i <= |s| && AllPlain(segments) && Spells(s, i, segments, first)
    ensures FormatFrom(segments, first) == s[i..] <==> !HasLeadingZero(s, i)
    decreases |segments|
  {
    if segments != [] {
      var j := SpellsHead(s, i, segments, first);
      PlainSpellingIsFormatted(s, j, segments[1..], false);
      SegmentNormalForm(s, i, j, segments[0], first);
      SameSplit(s, i, j, segments, first);
      LeadingZeroSplits(s, i, j, segments[0], first);
    }
  }

  lemma BracedInner(source: string, inner: string)
    requires IsBraced(source)
    ensures source == "{$" + inner + "}" <==> Inner(source) == inner
  {
    assert source == "{$" + Inner(source) + "}";
    assert ("{$" + inner + "}")[2..|inner| + 2] == inner;
  }

  /** Printing a parsed path gives the source back exactly when no index has a leading zero. */
  lemma PathNormalForm(source: string)
    requires PathSegments(source).Some?
    ensures var segments := PathSegments(source).value;
            && WellFormed(segments) && AllPlain(segments)
            && (PrintPath(segments) == source <==> !HasLeadingZero(Inner(source), 0))
  {
    var segments := PathSegments(source).value;
    var inner := Inner(source);
    PathGrammar(source, segments);
    SpelledIsWellFormed(inner, 0, segments, true);
    PlainSpellingIsFormatted(inner, 0, segments, true);
    assert inner[0..] == inner;
    BracedInner(source, FormatPath(segments));
  }

  lemma SegmentHasNoBrace(text: string, segment: Segment, first: bool)
    requires IsPlain(segment) && SpellsSegment(text, segment, first)
    ensures '}' !in text
  {
    match segment
    case Key(name) =>
      assert '}' !in name;
    case Index(_) =>
      var digits := text[1..|text| - 1];
      assert text == "[" + digits + "]";
      assert '}' !in digits;
  }

  lemma {:induction false} SpellingHasNoBrace(s: string, i: nat, segments: seq<Segment>, first: bool)
    requires i <= |s| && AllPlain(segments) && Spells(s, i, segments, first)
    ensures '}' !in s[i..]
    decreases |segments|
  {
    if segments != [] {
      var j := SpellsHead(s, i, segments, first);
      SpellingHasNoBrace(s, j, segments[1..], false);
      SegmentHasNoBrace(s[i..j], segments[0], first);
      assert s[i..] == s[i..j] + s[j..];
    }
  }

  /** A path holds no closing brace but its last character. */
  lemma PathHasNoInnerBrace(source: string)
    requires PathSegments(source).Some?
    ensures source[|source| - 1] == '}' && 3 < |source|
    ensures forall k :: 0 <= k < |source| - 1 ==> source[k] != '}'
  {
    var segments, inner := PathSegments(source).value, Inner(source);
    PathGrammar(source, segments);
    SpellingHasNoBrace(inner, 0, segments, true);
    assert inner[0..] == inner;
    assert forall k :: 2 <= k < |source| - 1 ==> source[k] == inner[k - 2];
  }

  // ----- Lookup (path.ts) -----

  const MAX_SAFE_INTEGER: nat := 0x1F_FFFF_FFFF_FFFF

  /** One step of lookupPath from a value that is an object. */
  function OwnProperty(current: Value, segment: Segment): Option<Value>
    requires IsPlain(segment)
  {
    match segment
    case Key(name) => OwnKey(current, name)
    case Index(n) => if n <= MAX_SAFE_INTEGER then OwnIndex(current, n) else None
  }

  /** None is `{ found: false, value: undefined }`. */
  function Lookup(root: Value, segments: seq<Segment>): Option<Value>
    requires AllPlain(segments)
    decreases |segments|
  {
    if segments == [] then Some(root)
    else
      var next := OwnProperty(root, segments[0]);
      if next.None? then None else Lookup(next.value, segments[1..])
  }

  method LookupPath(root: Value, segments: seq<Segment>) returns (r: Option<Value>)
    requires AllPlain(segments)
    ensures r == Lookup(root, segments)
  {
    var current := root;
    for i := 0 to |segments|
      invariant Lookup(root, segments) == Lookup(current, segments[i..])
    {
      var segment := segments[i];
      if !current.IsObject() {
        return None;
      }
      if segment.Index? && (
          !current.Arr? || MAX_SAFE_INTEGER < segment.index || |current.slots| <= segment.index) {
        return None;
      }
      var own := if segment.Index? then OwnIndex(current, segment.index) else OwnKey(current, segment.name);
      if own.None? {
        return None;
      }
      current := own.value;
    }
    return Some(current);
  }

  lemma LookupAppend(root: Value, a: seq<Segment>, b: seq<Segment>)
    requires AllPlain(a + b) && AllPlain(a) && AllPlain(b)
    ensures Lookup(root, a + b) == var r := Lookup(root, a); if r.None? then None else Lookup(r.value, b)
    decreases |a|
  {
    if a == [] {
      assert a + b == b;
    } else {
      assert (a + b)[1..] == a[1..] + b;
      var next := OwnProperty(root, a[0]);
      if next.Some? {
        LookupAppend(next.value, a[1..], b);
      }
    }
  }

  /** What each segment finds: own keys of objects, own slots and the length of arrays, and nothing else. */
  lemma SegmentFinds(current: Value, segment: Segment, found: Value)
    requires IsPlain(segment)
    ensures OwnProperty(current, segment) == Some(found) <==>
              match segment
              case Index(n) =>
                && current.Arr? && n < |current.slots| && n <= 9007199254740991
                && current.slots[n] == found && !found.Hole?
              case Key(name) =>
                || (current.Obj? && exists i :: 0 <= i < |current.entries| && current.entries[i] == Entry(name, found)
                                                && forall j :: 0 <= j < i ==> current.entries[j].key != name)
                || (current.Arr? && name == "length" && found == Num(|current.slots| as real))
                || (current.Arr? && exists n: nat :: n < |current.slots| && name == Numeral(n)
                                                     && current.slots[n] == found && !found.Hole?)
              case _ => false
  {
    if segment.Key? {
      if current.Obj? {
        FirstEntry(current.entries, segment.name, found);
      } else if current.Arr? {
        assert Numeral(0) != "length";
        LengthIsNoNumeral();
      }
    }
  }

  lemma {:induction false} FirstEntry(entries: seq<Entry>, name: string, found: Value)
    ensures EntryOf(entries, name) == Some(found) <==>
              exists i :: 0 <= i < |entries| && entries[i] == Entry(name, found)
                          && forall j :: 0 <= j < i ==> entries[j].key != name
    decreases |entries|
  {
    if entries != [] && entries[0].key != name {
      FirstEntry(entries[1..], name, found);
      if EntryOf(entries[1..], name) == Some(found) {
        var i :| 0 <= i < |entries[1..]| && entries[1..][i] == Entry(name, found)
                 && forall j :: 0 <= j < i ==> entries[1..][j].key != name;
        assert forall j :: 1 <= j < i + 1 ==> entries[j] == entries[1..][j - 1];
        assert entries[i + 1] == Entry(name, found);
      }
      if i :| && 0 <= i < |entries| && entries[i] == Entry(name, found)
              && forall j :: 0 <= j < i ==> entries[j].key != name {
        assert entries[1..][i - 1] == entries[i];
      }
    } else if entries != [] {
      if entries[0].value == found {
        assert entries[0] == Entry(name, found);
      }
    }
  }

  lemma LengthIsNoNumeral()
    ensures !IsNumeral("length")
  {
    assert !Matches("length"[0], Digit);
  }

  /** The values a path passes through, from the root to what is found. */
  predicate IsChain(values: seq<Value>, segments: seq<Segment>)
    requires AllPlain(segments)
    ensures IsChain(values, segments) ==> |values| == |segments| + 1
  {
    && |values| == |segments| + 1
    && forall i :: 0 <= i < |segments| ==> OwnProperty(values[i], segments[i]) == Some(values[i + 1])
  }

  /** A path finds a value if and only if a chain of own properties leads to it. */
  lemma LookupIsChain(root: Value, segments: seq<Segment>, found: Value)
    requires AllPlain(segments)
    ensures Lookup(root, segments) == Some(found) <==>
              exists values :: IsChain(values, segments) && values[0] == root && values[|segments|] == found
  {
    hide Lookup, IsChain;
    if Lookup(root, segments) == Some(found) {
      var values := FoundByChain(root, segments);
    }
    if values :| IsChain(values, segments) && values[0] == root && values[|segments|] == found {
      ChainFinds(values, segments);
    }
  }

  lemma {:induction false} FoundByChain(root: Value, segments: seq<Segment>) returns (values: seq<Value>)
    requires AllPlain(segments) && Lookup(root, segments).Some?
    ensures IsChain(values, segments)
    ensures values[0] == root && values[|segments|] == Lookup(root, segments).value
    decreases |segments|
  {
    hide OwnProperty, IsPlain;
    if segments == [] {
      values := [root];
    } else {
      var rest := FoundByChain(OwnProperty(root, segments[0]).value, segments[1..]);
      values := [root] + rest;
      ChainFrom(root, rest, segments);
    }
  }

  lemma {:induction false} ChainFinds(values: seq<Value>, segments: seq<Segment>)
    requires AllPlain(segments) && IsChain(values, segments)
    ensures Lookup(values[0], segments) == Some(values[|segments|])
    decreases |segments|
  {
    hide OwnProperty, IsPlain;
    if segments != [] {
      ChainTail(values, segments);
      ChainFinds(values[1..], segments[1..]);
    }
  }

  lemma ChainFrom(root: Value, rest: seq<Value>, segments: seq<Segment>)
    requires segments != [] && AllPlain(segments) && IsChain(rest, segments[1..])
    requires OwnProperty(root, segments[0]) == Some(rest[0])
    ensures IsChain([root] + rest, segments)
  {
    hide OwnProperty, IsPlain;
    var values := [root] + rest;
    forall i | 0 <= i < |segments| ensures OwnProperty(values[i], segments[i]) == Some(values[i + 1]) {
      if 0 < i {
        assert OwnProperty(rest[i - 1], segments[1..][i - 1]) == Some(rest[i]);
      }
    }
  }

  lemma ChainTail(values: seq<Value>, segments: seq<Segment>)
    requires segments != [] && AllPlain(segments) && IsChain(values, segments)
    ensures OwnProperty(values[0], segments[0]) == Some(values[1])
    ensures IsChain(values[1..], segments[1..])
  {
    hide OwnProperty, IsPlain;
    forall i | 0 <= i < |segments| - 1
      ensures OwnProperty(values[1..][i], segments[1..][i]) == Some(values[1..][i + 1])
    {
      assert OwnProperty(values[i + 1], segments[i + 1]) == Some(values[i + 2]);
    }
  }
}
