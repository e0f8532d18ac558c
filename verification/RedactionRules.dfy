/**
 What scrubbing, redacting and collecting do to a value (redact.ts), told without their scans: where a mask is put,
 what is kept, and which scalars are collected.
 */
module RedactionRules {
  import opened Prelude
  import opened Text
  import opened Json
  import opened Redaction

  // ----- Texts -----

  /** The secret stands at m; one of fewer than six characters only counts as a word of its own. */
  predicate StandsAt(s: string, m: nat, secret: string) {
    && secret != "" && m + |secret| <= |s| && s[m..m + |secret|] == secret
    && (|secret| < 6 ==>
          && (m == 0 || !IsWordPart(s[m - 1]))
          && (m + |secret| == |s| || !IsWordPart(s[m + |secret|])))
  }

  /** From i up to j none of the secrets stands anywhere. */
  ghost predicate NoneStands(variants: seq<string>, s: string, i: nat, j: nat) {
    forall k: nat, w :: i <= k < j && w in variants ==> !StandsAt(s, k, w)
  }

  lemma {:induction false} NoMatchBefore(variants: seq<string>, s: string, i: nat, j: nat)
    requires i <= j <= |s| && NoneStands(variants, s, i, j)
    ensures ReplaceFrom(variants, s, i) == s[i..j] + ReplaceFrom(variants, s, j)
    decreases j - i
  {
    if i < j {
      var found := FirstMatch(variants, s, i);
      assert found.Some? ==> StandsAt(s, i, found.value);
      NoMatchBefore(variants, s, i + 1, j);
      CopyOneMore(s, i, j, ReplaceFrom(variants, s, j));
    }
  }

  /** A text in which no secret stands is left as it is. */
  lemma CopiedWhole(variants: seq<string>, s: string, i: nat)
    requires i <= |s| && NoneStands(variants, s, i, |s|)
    ensures ReplaceFrom(variants, s, i) == s[i..]
  {
    NoMatchBefore(variants, s, i, |s|);
  }

  /** Otherwise the longest secret at the first position where one stands gives way to the mask, and so on after it. */
  lemma FirstIsMasked(variants: seq<string>, s: string, i: nat, m: nat, secret: string)
    requires LongestFirst(variants) && secret in variants && i <= m && StandsAt(s, m, secret)
    requires NoneStands(variants, s, i, m)
    requires forall w :: w in variants && StandsAt(s, m, w) ==> |w| <= |secret|
    ensures ReplaceFrom(variants, s, i) == s[i..m] + "***" + ReplaceFrom(variants, s, m + |secret|)
  {
    LongestIsMasked(variants, s, m, secret);
    NoMatchBefore(variants, s, i, m);
    hide StandsAt, NoneStands, ReplaceFrom;
    var rest := ReplaceFrom(variants, s, m + |secret|);
    assert s[i..m] + ("***" + rest) == s[i..m] + "***" + rest;
  }

  lemma LongestIsMasked(variants: seq<string>, s: string, m: nat, secret: string)
    requires LongestFirst(variants) && secret in variants && StandsAt(s, m, secret)
    requires forall w :: w in variants && StandsAt(s, m, w) ==> |w| <= |secret|
    ensures ReplaceFrom(variants, s, m) == "***" + ReplaceFrom(variants, s, m + |secret|)
  {
    hide LongestFirst, IsWordPart, FirstMatch;
    assert Applies(s, m, secret);
    FirstMatchIsLongest(variants, s, m, secret);
    var found := FirstMatch(variants, s, m).value;
    assert StandsAt(s, m, found);
    assert found == s[m..m + |secret|];
  }

  // ----- Values -----

  /** Scrubbing keeps the shape: strings are scrubbed, numbers and booleans masked if their text is a secret. */
  lemma ScrubbedInPlace(value: Value, variants: seq<string>, secrets: seq<string>, enc: Encoders)
    ensures var r := Scrub(value, variants, secrets, enc);
            match value
            case Str(text) => r == Str(ReplaceFrom(variants, text, 0))
            case Num(number) => r == if enc.number(number) in secrets then Str("***") else value
            case Bool(true) => r == if "true" in secrets then Str("***") else value
            case Bool(false) => r == if "false" in secrets then Str("***") else value
            case Arr(slots) =>
              && r.Arr? && |r.slots| == |slots|
              && forall i :: 0 <= i < |slots| ==> r.slots[i] == Scrub(slots[i], variants, secrets, enc)
            case Obj(entries) => r.Obj?
            case _ => r == value
  {
    if value.Arr? {
      ScrubbedSlots(value.slots, variants, secrets, enc);
    }
  }

  lemma {:induction false} ScrubbedSlots(
    slots: seq<Value>, variants: seq<string>, secrets: seq<string>, enc: Encoders)
    ensures var r := ScrubSlots(slots, variants, secrets, enc);
            |r| == |slots| && forall i :: 0 <= i < |slots| ==> r[i] == Scrub(slots[i], variants, secrets, enc)
    decreases |slots|
  {
    if slots != [] {
      ScrubbedSlots(slots[1..], variants, secrets, enc);
      hide Scrub;
    }
  }

  lemma {:induction false} PutReads(entries: seq<Entry>, entry: Entry, key: string)
    ensures EntryOf(Put(entries, entry), key) == if key == entry.key then Some(entry.value) else EntryOf(entries, key)
    decreases |entries|
  {
    if entries != [] {
      PutReads(entries[1..], entry, key);
    }
  }

  /** Entry i is the last one whose key scrubs to this. */
  predicate LastUnder(entries: seq<Entry>, variants: seq<string>, key: string, i: nat) {
    && i < |entries| && Replace(variants, entries[i].key) == key
    && forall j :: i < j < |entries| ==> Replace(variants, entries[j].key) != key
  }

  /** Under a key of a scrubbed object is the scrubbed value of the last entry whose key scrubs to it. */
  lemma {:induction false} ScrubbedUnderKey(
    entries: seq<Entry>, variants: seq<string>, secrets: seq<string>, enc: Encoders, key: string, i: nat)
    requires LastUnder(entries, variants, key, i)
    ensures EntryOf(ScrubEntries(entries, variants, secrets, enc), key)
         == Some(Scrub(entries[i].value, variants, secrets, enc))
    decreases |entries|
  {
    hide Scrub, Replace;
    var n := |entries| - 1;
    var last := Entry(Replace(variants, entries[n].key), Scrub(entries[n].value, variants, secrets, enc));
    PutReads(ScrubEntries(entries[..n], variants, secrets, enc), last, key);
    if i < n {
      ScrubbedUnderKey(entries[..n], variants, secrets, enc, key, i);
    }
  }

  /** And there is nothing under any other key. */
  lemma {:induction false} NothingUnderOtherKeys(
    entries: seq<Entry>, variants: seq<string>, secrets: seq<string>, enc: Encoders, key: string)
    requires forall j :: 0 <= j < |entries| ==> Replace(variants, entries[j].key) != key
    ensures EntryOf(ScrubEntries(entries, variants, secrets, enc), key) == None
    decreases |entries|
  {
    hide Scrub, Replace;
    if entries != [] {
      var n := |entries| - 1;
      var last := Entry(Replace(variants, entries[n].key), Scrub(entries[n].value, variants, secrets, enc));
      PutReads(ScrubEntries(entries[..n], variants, secrets, enc), last, key);
      NothingUnderOtherKeys(entries[..n], variants, secrets, enc, key);
    }
  }

  // ----- Sensitive keys -----

  /** Redacting keeps the shape and every key; the value of a sensitive key becomes the mask, whatever it is. */
  lemma RedactedInPlace(value: Value, isSensitive: string -> bool)
    ensures var r := Redact(value, isSensitive);
            match value
            case Arr(slots) =>
              && r.Arr? && |r.slots| == |slots|
              && forall i :: 0 <= i < |slots| ==> r.slots[i] == Redact(slots[i], isSensitive)
            case Obj(entries) =>
              && r.Obj? && |r.entries| == |entries|
              && forall i :: 0 <= i < |entries| ==> r.entries[i] == RedactedEntry(entries[i], isSensitive)
            case _ => r == value
  {
    match value
    case Arr(slots) => RedactedSlots(slots, isSensitive);
    case Obj(entries) => RedactedEntries(entries, isSensitive);
    case _ =>
  }

  function RedactedEntry(entry: Entry, isSensitive: string -> bool): Entry {
    if isSensitive(entry.key) then Entry(entry.key, Str("***"))
    else Entry(entry.key, Redact(entry.value, isSensitive))
  }

  lemma {:induction false} RedactedSlots(slots: seq<Value>, isSensitive: string -> bool)
    ensures var r := RedactSlots(slots, isSensitive);
            |r| == |slots| && forall i :: 0 <= i < |slots| ==> r[i] == Redact(slots[i], isSensitive)
    decreases |slots|
  {
    if slots != [] {
      RedactedSlots(slots[1..], isSensitive);
      hide Redact;
    }
  }

  lemma {:induction false} RedactedEntries(entries: seq<Entry>, isSensitive: string -> bool)
    ensures var r := RedactEntries(entries, isSensitive);
            |r| == |entries| && forall i :: 0 <= i < |entries| ==> r[i] == RedactedEntry(entries[i], isSensitive)
    decreases |entries|
  {
    if entries != [] {
      RedactedEntries(entries[1..], isSensitive);
      hide Redact;
    }
  }

  // ----- Collecting -----

  lemma {:induction false} FromSlot(
    slots: seq<Value>, index: nat, sensitive: bool, isSensitive: string -> bool, enc: Encoders, text: string)
    returns (i: nat)
    requires text in CollectSlots(slots, index, sensitive, isSensitive, enc)
    ensures i < |slots| && text in Collect(slots[i], sensitive || isSensitive(Numeral(index + i)), isSensitive, enc)
    decreases |slots|
  {
    if text in Collect(slots[0], sensitive || isSensitive(Numeral(index)), isSensitive, enc) {
      i := 0;
    } else {
      i := FromSlot(slots[1..], index + 1, sensitive, isSensitive, enc, text);
      i := i + 1;
    }
  }

  lemma {:induction false} FromEntry(
    entries: seq<Entry>, sensitive: bool, isSensitive: string -> bool, enc: Encoders, text: string)
    returns (i: nat)
    requires text in CollectEntries(entries, sensitive, isSensitive, enc)
    ensures i < |entries|
    ensures text in Collect(entries[i].value, sensitive || isSensitive(entries[i].key), isSensitive, enc)
    decreases |entries|
  {
    if text in Collect(entries[0].value, sensitive || isSensitive(entries[0].key), isSensitive, enc) {
      i := 0;
    } else {
      i := FromEntry(entries[1..], sensitive, isSensitive, enc, text);
      i := i + 1;
    }
  }

  /** Whatever is collected is the text of a scalar at or below a sensitive key. */
  lemma {:induction false} CollectedIsSensitive(
    value: Value, sensitive: bool, isSensitive: string -> bool, enc: Encoders, text: string) returns (scalar: Value)
    requires text in Collect(value, sensitive, isSensitive, enc)
    ensures HasScalar(value, scalar, !sensitive, isSensitive) && SecretText(scalar, enc) == text && text != ""
    decreases value
  {
    match value
    case Arr(slots) =>
      var i := FromSlot(slots, 0, sensitive, isSensitive, enc, text);
      assert Numeral(0 + i) == Numeral(i);
      scalar := CollectedIsSensitive(slots[i], sensitive || isSensitive(Numeral(i)), isSensitive, enc, text);
    case Obj(entries) =>
      var i := FromEntry(entries, sensitive, isSensitive, enc, text);
      scalar := CollectedIsSensitive(
        entries[i].value, sensitive || isSensitive(entries[i].key), isSensitive, enc, text);
    case _ => scalar := value;
  }

  /** String(value) of a scalar. */
  predicate Spells(text: string, scalar: Value, enc: Encoders) {
    match scalar
    case Str(s) => text == s
    case Num(number) => text == enc.number(number)
    case Bool(flag) => text == if flag then "true" else "false"
    case _ => false
  }

  /** A text is collected from a value if and only if it spells a scalar below a sensitive key, and is not empty. */
  lemma CollectedExactlyWhen(value: Value, isSensitive: string -> bool, enc: Encoders, text: string)
    ensures text in Collect(value, false, isSensitive, enc)
       <==> text != "" && exists scalar :: HasScalar(value, scalar, true, isSensitive) && Spells(text, scalar, enc)
  {
    if text in Collect(value, false, isSensitive, enc) {
      var scalar := CollectedIsSensitive(value, false, isSensitive, enc, text);
      assert Spells(text, scalar, enc);
    }
    if scalar :| text != "" && HasScalar(value, scalar, true, isSensitive) && Spells(text, scalar, enc) {
      SensitiveIsCollected(value, scalar, false, isSensitive, enc);
    }
  }
}
