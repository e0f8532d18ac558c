/**
 Redacting keys and scrubbing values (redact.ts). Scrubbing is one leftmost scan over every string and
 key of a value, replacing whichever known secret matches first; short secrets are only matched as
 whole words. It throws when a secret cannot be URL-encoded.
 */
module Redaction {
  import opened Prelude
  import opened Text
  import opened Json

  const MIN_BOUNDARY_FREE_LENGTH: nat := 6

  // ----- The pattern -----

  predicate MatchesAt(s: string, i: nat, secret: string) {
    i + |secret| <= |s| && s[i..i + |secret|] == secret
  }

  /** (?<![A-Za-z0-9_]) and (?![A-Za-z0-9_]) around the match. */
  predicate AtBoundaries(s: string, i: nat, j: nat) {
    (i == 0 || i > |s| || !IsWordPart(s[i - 1])) && (j >= |s| || !IsWordPart(s[j]))
  }

  /** One alternative of the pattern, tried at position i. */
  predicate Applies(s: string, i: nat, secret: string) {
    && secret != ""
    && MatchesAt(s, i, secret)
    && (|secret| < MIN_BOUNDARY_FREE_LENGTH ==> AtBoundaries(s, i, i + |secret|))
  }

  /** The first alternative that applies at i. */
  function FirstMatch(variants: seq<string>, s: string, i: nat): (r: Option<string>)
    ensures r.Some? ==> r.value in variants && Applies(s, i, r.value)
    ensures r.None? ==> forall k :: 0 <= k < |variants| ==> !Applies(s, i, variants[k])
  {
    if variants == [] then None
    else if Applies(s, i, variants[0]) then Some(variants[0])
    else FirstMatch(variants[1..], s, i)
  }

  const MASK := "***"

  /** s.replace(pattern, "***") from position i on. */
  function ReplaceFrom(variants: seq<string>, s: string, i: nat): string
    requires i <= |s|
    decreases |s| - i
  {
    if i == |s| then ""
    else
      var found := FirstMatch(variants, s, i);
      if found.Some? then MASK + ReplaceFrom(variants, s, i + |found.value|)
      else [s[i]] + ReplaceFrom(variants, s, i + 1)
  }

  function Replace(variants: seq<string>, s: string): string {
    ReplaceFrom(variants, s, 0)
  }

  // ----- Which secret wins -----

  /** The alternatives are tried longest first. */
  predicate LongestFirst(variants: seq<string>) {
    forall j, k :: 0 <= j < k < |variants| ==> |variants[k]| <= |variants[j]|
  }

  lemma {:induction false} FirstMatchIsLongest(variants: seq<string>, s: string, i: nat, other: string)
    requires LongestFirst(variants) && other in variants && Applies(s, i, other)
    ensures FirstMatch(variants, s, i).Some? && |other| <= |FirstMatch(variants, s, i).value|
    decreases |variants|
  {
    if !Applies(s, i, variants[0]) {
      assert other in variants[1..];
      FirstMatchIsLongest(variants[1..], s, i, other);
    } else {
      var k :| 0 <= k < |variants| && variants[k] == other;
    }
  }

  // ----- Completeness -----

  predicate OccursAt(secret: string, s: string, j: nat) {
    j + |secret| <= |s| && forall k :: 0 <= k < |secret| ==> s[j + k] == secret[k]
  }

  ghost predicate Occurs(secret: string, s: string) {
    exists j :: OccursAt(secret, s, j)
  }

  predicate MaskAt(s: string, p: nat) {
    p + 2 < |s| && s[p] == '*' && s[p + 1] == '*' && s[p + 2] == '*'
  }

  /** No mask can be a part of the secret: it neither starts nor ends with an asterisk, and holds no `***`. */
  predicate Robust(secret: string) {
    && secret != ""
    && secret[0] != '*' && secret[|secret| - 1] != '*'
    && forall p :: 0 <= p < |secret| ==> !MaskAt(secret, p)
  }

  predicate IsLong(secret: string) {
    MIN_BOUNDARY_FREE_LENGTH <= |secret|
  }

  /** The next position at which something is masked; |s| when there is none. */
  function NextMatch(variants: seq<string>, s: string, i: nat): (m: nat)
    requires i <= |s|
    ensures i <= m <= |s|
    ensures m < |s| ==> FirstMatch(variants, s, m).Some?
    decreases |s| - i
  {
    if i == |s| || FirstMatch(variants, s, i).Some? then i else NextMatch(variants, s, i + 1)
  }

  lemma CopyOneMore(s: string, i: nat, m: nat, rest: string)
    requires i < m <= |s|
    ensures [s[i]] + (s[i + 1..m] + rest) == s[i..m] + rest
  {
    assert s[i..m] == [s[i]] + s[i + 1..m];
  }

  /** Up to there the text is copied. */
  lemma {:induction false} CopiedUpToMatch(variants: seq<string>, s: string, i: nat)
    requires i <= |s|
    ensures var m := NextMatch(variants, s, i);
            ReplaceFrom(variants, s, i) == s[i..m] + ReplaceFrom(variants, s, m)
    decreases |s| - i
  {
    var m := NextMatch(variants, s, i);
    if m == i {
      assert s[i..m] == "";
    } else {
      CopiedUpToMatch(variants, s, i + 1);
      CopyOneMore(s, i, m, ReplaceFrom(variants, s, m));
    }
  }

  /** A secret that starts before a mask and reaches into it is not robust. */
  lemma ReachesIntoMask(secret: string, r: string, m: nat)
    requires m < |secret| && OccursAt(secret, r, 0) && MaskAt(r, m)
    ensures !Robust(secret)
  {
    assert r[0 + m] == secret[m];
    if m + 2 < |secret| {
      assert r[0 + (m + 1)] == secret[m + 1] && r[0 + (m + 2)] == secret[m + 2];
      assert MaskAt(secret, m);
    } else {
      var last := |secret| - 1;
      assert r[0 + last] == secret[last];
    }
  }

  lemma NotAtHead(variants: seq<string>, s: string, i: nat, secret: string)
    requires i <= |s| && FirstMatch(variants, s, i).None?
    requires secret in variants && IsLong(secret) && Robust(secret)
    ensures !OccursAt(secret, ReplaceFrom(variants, s, i), 0)
  {
    var r, m := ReplaceFrom(variants, s, i), NextMatch(variants, s, i);
    if OccursAt(secret, r, 0) {
      CopiedUpToMatch(variants, s, i);
      if m - i < |secret| && m < |s| {
        var rest := ReplaceFrom(variants, s, m);
        assert r == s[i..m] + rest;
        assert r[m - i] == rest[0] && r[m - i + 1] == rest[1] && r[m - i + 2] == rest[2];
        ReachesIntoMask(secret, r, m - i);
      }
      assert false;
    }
  }

  /** No long robust secret is at any position of a scrubbed string, however the matches overlap. */
  lemma {:induction false} NoSecretFrom(variants: seq<string>, s: string, i: nat, secret: string, j: nat)
    requires i <= |s| && secret in variants && IsLong(secret) && Robust(secret)
    ensures !OccursAt(secret, ReplaceFrom(variants, s, i), j)
    decreases |s| - i
  {
    hide FirstMatch;
    var r := ReplaceFrom(variants, s, i);
    if i < |s| {
      var found := FirstMatch(variants, s, i);
      if found.None? && j == 0 {
        NotAtHead(variants, s, i, secret);
      } else if found.None? || 3 <= j {
        var skipped := if found.Some? then 3 else 1;
        var next := if found.Some? then i + |found.value| else i + 1;
        var rest := ReplaceFrom(variants, s, next);
        assert forall k :: skipped <= k < |r| ==> r[k] == rest[k - skipped];
        NoSecretFrom(variants, s, next, secret, j - skipped);
      }
    }
  }

  lemma ScrubbedStringHasNoSecret(variants: seq<string>, s: string, secret: string)
    requires secret in variants && IsLong(secret) && Robust(secret)
    ensures !Occurs(secret, Replace(variants, s))
  {
    forall j: nat ensures !OccursAt(secret, Replace(variants, s), j) {
      NoSecretFrom(variants, s, 0, secret, j);
    }
  }

  // ----- The variants of the secrets -----

  /** String(number), and the three encodings a secret may appear in; uri is only asked for well-formed text. */
  datatype Encoders = Encoders(
    number: real -> string,
    uri: string -> string,
    form: string -> string,
    json: string -> string)

  /** encodeURIComponent throws on text that is not well-formed, and it is asked for every secret. */
  predicate CanScrub(secrets: seq<string>) {
    forall k :: 0 <= k < |secrets| ==> IsWellFormed(secrets[k])
  }

  /** Every non-empty secret, followed by its encodings. */
  function Expand(secrets: seq<string>, enc: Encoders): seq<string> {
    if secrets == [] then []
    else
      var n := |secrets| - 1;
      var last := secrets[n];
      Expand(secrets[..n], enc) + (if last == "" then [] else [last, enc.uri(last), enc.form(last), enc.json(last)])
  }

  /** After all that are at least as long. */
  function Place(sorted: seq<string>, variant: string): seq<string> {
    if sorted == [] then [variant]
    else if |sorted[0]| < |variant| then [variant] + sorted
    else [sorted[0]] + Place(sorted[1..], variant)
  }

  /** Without repetitions, longest first, otherwise in the order given. */
  function Sorted(list: seq<string>): seq<string> {
    if list == [] then []
    else
      var n := |list| - 1;
      var before := Sorted(list[..n]);
      if list[n] in before then before else Place(before, list[n])
  }

  function Variants(secrets: seq<string>, enc: Encoders): seq<string> {
    Sorted(Expand(secrets, enc))
  }

  lemma HeadIsLongest(sorted: seq<string>)
    requires LongestFirst(sorted) && sorted != []
    ensures LongestFirst(sorted[1..])
    ensures forall v :: v in sorted ==> |v| <= |sorted[0]|
    ensures forall v :: v in sorted <==> v == sorted[0] || v in sorted[1..]
  {
    forall v | v in sorted ensures |v| <= |sorted[0]| && (v == sorted[0] || v in sorted[1..]) {
      var k :| 0 <= k < |sorted| && sorted[k] == v;
      assert k == 0 || sorted[1..][k - 1] == v;
    }
  }

  lemma {:induction false} PlaceIsSorted(sorted: seq<string>, variant: string)
    requires LongestFirst(sorted)
    ensures LongestFirst(Place(sorted, variant))
    ensures forall v :: v in Place(sorted, variant) <==> v in sorted || v == variant
    decreases |sorted|
  {
    if sorted != [] {
      HeadIsLongest(sorted);
      if |sorted[0]| < |variant| {
      } else {
        PlaceIsSorted(sorted[1..], variant);
      }
    }
  }

  lemma {:induction false} SortedIsLongestFirst(list: seq<string>)
    ensures LongestFirst(Sorted(list)) && forall v :: v in Sorted(list) <==> v in list
    decreases |list|
  {
    if list != [] {
      var n := |list| - 1;
      SortedIsLongestFirst(list[..n]);
      PlaceIsSorted(Sorted(list[..n]), list[n]);
      assert list == list[..n] + [list[n]];
    }
  }

  /** v is a secret or one of its encodings. */
  predicate IsVariantOf(v: string, secret: string, enc: Encoders) {
    secret != "" && (v == secret || v == enc.uri(secret) || v == enc.form(secret) || v == enc.json(secret))
  }

  lemma {:induction false} ExpandMeaning(secrets: seq<string>, enc: Encoders, v: string)
    ensures v in Expand(secrets, enc) <==> exists k :: 0 <= k < |secrets| && IsVariantOf(v, secrets[k], enc)
    decreases |secrets|
  {
    if secrets != [] {
      var n := |secrets| - 1;
      ExpandMeaning(secrets[..n], enc, v);
      assert forall k :: 0 <= k < n ==> secrets[..n][k] == secrets[k];
      if exists k :: 0 <= k < |secrets| && IsVariantOf(v, secrets[k], enc) {
        var k :| 0 <= k < |secrets| && IsVariantOf(v, secrets[k], enc);
        assert k == n || IsVariantOf(v, secrets[..n][k], enc);
      }
    }
  }

  /** The pattern tries exactly the secrets and their encodings, longest first. */
  lemma VariantsMeaning(secrets: seq<string>, enc: Encoders, v: string)
    ensures LongestFirst(Variants(secrets, enc))
    ensures v in Variants(secrets, enc) <==> exists k :: 0 <= k < |secrets| && IsVariantOf(v, secrets[k], enc)
  {
    SortedIsLongestFirst(Expand(secrets, enc));
    ExpandMeaning(secrets, enc, v);
  }

  lemma SecretIsVariant(secrets: seq<string>, enc: Encoders, secret: string)
    requires secret in secrets && secret != ""
    ensures secret in Variants(secrets, enc)
  {
    VariantsMeaning(secrets, enc, secret);
    var k :| 0 <= k < |secrets| && secrets[k] == secret;
    assert IsVariantOf(secret, secrets[k], enc);
  }

  // ----- Whole values -----

  function ScalarText(value: Value, enc: Encoders): string
    requires value.Num? || value.Bool?
  {
    if value.Num? then enc.number(value.number) else if value.flag then "true" else "false"
  }

  /** Object.fromEntries: a repeated key keeps its first place and its last value. */
  function Put(entries: seq<Entry>, entry: Entry): seq<Entry> {
    if entries == [] then [entry]
    else if entries[0].key == entry.key then [entry] + entries[1..]
    else [entries[0]] + Put(entries[1..], entry)
  }

  /** scrubSecretValues, once the pattern is built. */
  function Scrubbed(value: Value, secrets: seq<string>, enc: Encoders): Value {
    if Variants(secrets, enc) == [] then value else Scrub(value, Variants(secrets, enc), secrets, enc)
  }

  function ScrubbedText(text: string, secrets: seq<string>, enc: Encoders): string {
    if Variants(secrets, enc) == [] then text else Replace(Variants(secrets, enc), text)
  }

  /** scrubSecretValues; None stands for the URIError it throws. */
  function ScrubSecretValues(value: Value, secrets: seq<string>, enc: Encoders): Option<Value> {
    if CanScrub(secrets) then Some(Scrubbed(value, secrets, enc)) else None
  }

  function Scrub(value: Value, variants: seq<string>, secrets: seq<string>, enc: Encoders): Value
    decreases value, 1
  {
    match value
    case Str(text) => Str(Replace(variants, text))
    case Num(_) => if ScalarText(value, enc) in secrets then Str(MASK) else value
    case Bool(_) => if ScalarText(value, enc) in secrets then Str(MASK) else value
    case Arr(slots) => Arr(ScrubSlots(slots, variants, secrets, enc))
    case Obj(entries) => Obj(ScrubEntries(entries, variants, secrets, enc))
    case _ => value
  }

  function ScrubSlots(slots: seq<Value>, variants: seq<string>, secrets: seq<string>, enc: Encoders): seq<Value>
    decreases slots, 0
  {
    if slots == [] then []
    else [Scrub(slots[0], variants, secrets, enc)] + ScrubSlots(slots[1..], variants, secrets, enc)
  }

  function ScrubEntries(entries: seq<Entry>, variants: seq<string>, secrets: seq<string>, enc: Encoders): seq<Entry>
    decreases entries, 0
  {
    if entries == [] then []
    else
      var n := |entries| - 1;
      var last := Entry(Replace(variants, entries[n].key), Scrub(entries[n].value, variants, secrets, enc));
      Put(ScrubEntries(entries[..n], variants, secrets, enc), last)
  }

  /** secret is in no string and in no key, at any depth. */
  ghost predicate Clean(value: Value, secret: string)
    decreases value, 1
  {
    match value
    case Str(text) => !Occurs(secret, text)
    case Arr(slots) => forall i :: 0 <= i < |slots| ==> Clean(slots[i], secret)
    case Obj(entries) => CleanEntries(entries, secret)
    case _ => true
  }

  ghost predicate CleanEntries(entries: seq<Entry>, secret: string)
    decreases entries, 0
  {
    forall i :: 0 <= i < |entries| ==> !Occurs(secret, entries[i].key) && Clean(entries[i].value, secret)
  }

  lemma {:induction false} PutIsClean(entries: seq<Entry>, entry: Entry, secret: string)
    requires CleanEntries(entries, secret) && !Occurs(secret, entry.key) && Clean(entry.value, secret)
    ensures CleanEntries(Put(entries, entry), secret)
    decreases |entries|
  {
    if entries != [] {
      assert forall i :: 0 <= i < |entries[1..]| ==> entries[1..][i] == entries[i + 1];
      PutIsClean(entries[1..], entry, secret);
    }
  }

  lemma {:induction false} ScrubIsClean(
    value: Value, variants: seq<string>, secrets: seq<string>, enc: Encoders, secret: string)
    requires secret in variants && IsLong(secret) && Robust(secret)
    ensures Clean(Scrub(value, variants, secrets, enc), secret)
    decreases value, 1
  {
    match value
    case Str(text) => ScrubbedStringHasNoSecret(variants, text, secret);
    case Num(_) =>
    case Bool(_) =>
    case Arr(slots) => ScrubSlotsIsClean(slots, variants, secrets, enc, secret);
    case Obj(entries) => ScrubEntriesIsClean(entries, variants, secrets, enc, secret);
    case _ =>
  }

  lemma {:induction false} ScrubSlotsIsClean(
    slots: seq<Value>, variants: seq<string>, secrets: seq<string>, enc: Encoders, secret: string)
    requires secret in variants && IsLong(secret) && Robust(secret)
    ensures Clean(Arr(ScrubSlots(slots, variants, secrets, enc)), secret)
    decreases slots, 0
  {
    if slots != [] {
      ScrubIsClean(slots[0], variants, secrets, enc, secret);
      ScrubSlotsIsClean(slots[1..], variants, secrets, enc, secret);
      var r, rest := ScrubSlots(slots, variants, secrets, enc), ScrubSlots(slots[1..], variants, secrets, enc);
      assert forall i :: 1 <= i < |r| ==> r[i] == rest[i - 1];
    }
  }

  lemma {:induction false} ScrubEntriesIsClean(
    entries: seq<Entry>, variants: seq<string>, secrets: seq<string>, enc: Encoders, secret: string)
    requires secret in variants && IsLong(secret) && Robust(secret)
    ensures CleanEntries(ScrubEntries(entries, variants, secrets, enc), secret)
    decreases entries, 0
  {
    if entries != [] {
      var n := |entries| - 1;
      ScrubbedStringHasNoSecret(variants, entries[n].key, secret);
      ScrubIsClean(entries[n].value, variants, secrets, enc, secret);
      ScrubEntriesIsClean(entries[..n], variants, secrets, enc, secret);
      var last := Entry(Replace(variants, entries[n].key), Scrub(entries[n].value, variants, secrets, enc));
      PutIsClean(ScrubEntries(entries[..n], variants, secrets, enc), last, secret);
    }
  }

  /** Scrubbing that does not throw is complete for every long robust secret. */
  lemma ScrubIsComplete(value: Value, secrets: seq<string>, enc: Encoders, secret: string)
    requires secret in secrets && IsLong(secret) && Robust(secret) && CanScrub(secrets)
    ensures Clean(ScrubSecretValues(value, secrets, enc).value, secret)
  {
    SecretIsVariant(secrets, enc, secret);
    ScrubIsClean(value, Variants(secrets, enc), secrets, enc, secret);
  }

  // ----- Collecting secrets -----

  /** String(value) of a scalar that collectSensitiveValues records. */
  function SecretText(value: Value, enc: Encoders): string {
    match value
    case Str(text) => text
    case Num(_) => ScalarText(value, enc)
    case Bool(_) => ScalarText(value, enc)
    case _ => ""
  }

  /**
   collectSensitiveValues: the texts of all scalars at or below a sensitive key. The source drops
   repetitions, which the variants do as well.
   */
  function Collect(value: Value, sensitive: bool, isSensitive: string -> bool, enc: Encoders): seq<string>
    decreases value, 1
  {
    match value
    case Arr(slots) => CollectSlots(slots, 0, sensitive, isSensitive, enc)
    case Obj(entries) => CollectEntries(entries, sensitive, isSensitive, enc)
    case _ => if sensitive && SecretText(value, enc) != "" then [SecretText(value, enc)] else []
  }

  /** Object.entries of an array names its slots by their indices. */
  function CollectSlots(slots: seq<Value>, index: nat, sensitive: bool, isSensitive: string -> bool, enc: Encoders)
    : seq<string>
    decreases slots, 0
  {
    if slots == [] then []
    else
      Collect(slots[0], sensitive || isSensitive(Numeral(index)), isSensitive, enc)
      + CollectSlots(slots[1..], index + 1, sensitive, isSensitive, enc)
  }

  function CollectEntries(entries: seq<Entry>, sensitive: bool, isSensitive: string -> bool, enc: Encoders)
    : seq<string>
    decreases entries, 0
  {
    if entries == [] then []
    else
      Collect(entries[0].value, sensitive || isSensitive(entries[0].key), isSensitive, enc)
      + CollectEntries(entries[1..], sensitive, isSensitive, enc)
  }

  /** A scalar somewhere inside value; needsKey asks for a sensitive key on the way to it. */
  ghost predicate HasScalar(value: Value, scalar: Value, needsKey: bool, isSensitive: string -> bool)
    decreases value, 0
  {
    match value
    case Arr(slots) =>
      exists i :: 0 <= i < |slots| && HasScalar(slots[i], scalar, needsKey && !isSensitive(Numeral(i)), isSensitive)
    case Obj(entries) =>
      exists i :: && 0 <= i < |entries|
                  && HasScalar(entries[i].value, scalar, needsKey && !isSensitive(entries[i].key), isSensitive)
    case _ => value == scalar && !needsKey
  }

  lemma {:induction false} CollectedSlot(
    slots: seq<Value>, index: nat, i: nat, sensitive: bool, isSensitive: string -> bool, enc: Encoders)
    requires i < |slots|
    ensures forall t :: t in Collect(slots[i], sensitive || isSensitive(Numeral(index + i)), isSensitive, enc)
                    ==> t in CollectSlots(slots, index, sensitive, isSensitive, enc)
    decreases i
  {
    if 0 < i {
      CollectedSlot(slots[1..], index + 1, i - 1, sensitive, isSensitive, enc);
    }
  }

  lemma {:induction false} CollectedEntry(
    entries: seq<Entry>, i: nat, sensitive: bool, isSensitive: string -> bool, enc: Encoders)
    requires i < |entries|
    ensures forall t :: t in Collect(entries[i].value, sensitive || isSensitive(entries[i].key), isSensitive, enc)
                    ==> t in CollectEntries(entries, sensitive, isSensitive, enc)
    decreases i
  {
    if 0 < i {
      CollectedEntry(entries[1..], i - 1, sensitive, isSensitive, enc);
    }
  }

  /** Every scalar at or below a sensitive key is collected. */
  lemma {:induction false} SensitiveIsCollected(
    value: Value, scalar: Value, sensitive: bool, isSensitive: string -> bool, enc: Encoders)
    requires HasScalar(value, scalar, !sensitive, isSensitive) && SecretText(scalar, enc) != ""
    ensures SecretText(scalar, enc) in Collect(value, sensitive, isSensitive, enc)
    decreases value
  {
    match value
    case Arr(slots) =>
      var i :| 0 <= i < |slots| && HasScalar(slots[i], scalar, !sensitive && !isSensitive(Numeral(i)), isSensitive);
      CollectedSlot(slots, 0, i, sensitive, isSensitive, enc);
      assert Numeral(0 + i) == Numeral(i);
      SensitiveIsCollected(slots[i], scalar, sensitive || isSensitive(Numeral(i)), isSensitive, enc);
    case Obj(entries) =>
      var i :| && 0 <= i < |entries|
               && HasScalar(entries[i].value, scalar, !sensitive && !isSensitive(entries[i].key), isSensitive);
      CollectedEntry(entries, i, sensitive, isSensitive, enc);
      SensitiveIsCollected(entries[i].value, scalar, sensitive || isSensitive(entries[i].key), isSensitive, enc);
    case _ =>
  }

  // ----- Redacting sensitive keys -----

  /** redactSensitiveFields: the value of a sensitive key is replaced as a whole. */
  function Redact(value: Value, isSensitive: string -> bool): Value
    decreases value, 1
  {
    match value
    case Arr(slots) => Arr(RedactSlots(slots, isSensitive))
    case Obj(entries) => Obj(RedactEntries(entries, isSensitive))
    case _ => value
  }

  function RedactSlots(slots: seq<Value>, isSensitive: string -> bool): seq<Value>
    decreases slots, 0
  {
    if slots == [] then [] else [Redact(slots[0], isSensitive)] + RedactSlots(slots[1..], isSensitive)
  }

  function RedactEntries(entries: seq<Entry>, isSensitive: string -> bool): seq<Entry>
    decreases entries, 0
  {
    if entries == [] then []
    else
      [Entry(entries[0].key, if isSensitive(entries[0].key) then Str(MASK) else Redact(entries[0].value, isSensitive))]
      + RedactEntries(entries[1..], isSensitive)
  }
}
