/**
 Which secrets scrubbing is safe for (redact.ts). The mask itself is text, so masking one secret can put
 another one together; that happens to exactly the secrets a mask can be a part of.
 */
module SafeSecrets {
  import opened Prelude
  import opened Text
  import opened Json
  import opened Redaction

  /** Left and right of an asterisk, which no encoding touches. */
  function Starred(x: string, y: string): string {
    x + "*" + y
  }

  predicate KeepsStar(f: string -> string, x: string, y: string) {
    f(Starred(x, y)) == Starred(f(x), f(y))
  }

  /** What the three encodings have in common: they never shorten, and keep asterisks and plain words. */
  ghost predicate IsEncoding(f: string -> string) {
    && (forall s :: |s| <= |f(s)|)
    && (forall x, y :: KeepsStar(f, x, y))
    && (forall s :: All(WordPart, s) ==> f(s) == s)
  }

  ghost predicate AreEncodings(enc: Encoders) {
    IsEncoding(enc.uri) && IsEncoding(enc.form) && IsEncoding(enc.json)
  }

  // ----- A text that is masked in its middle only -----

  predicate AllAre(s: string, c: char) {
    forall i :: 0 <= i < |s| ==> s[i] == c
  }

  /** From l on the text has k characters c, and not one more before them. */
  predicate Filled(s: string, l: nat, k: nat, c: char) {
    && l + k <= |s| && c != '*'
    && (forall j :: l <= j < l + k ==> s[j] == c)
    && (0 < l ==> s[l - 1] != c)
  }

  /** The variant holds an asterisk that lands on the filler wherever it is tried up to l. */
  predicate StarsInside(v: string, l: nat, k: nat) {
    exists q :: l <= q < |v| && q < k && v[q] == '*'
  }

  lemma MatchAgrees(s: string, i: nat, v: string, q: nat)
    requires MatchesAt(s, i, v) && q < |v|
    ensures s[i + q] == v[q]
  {
    assert s[i..i + |v|][q] == s[i + q];
  }

  lemma StarredMisses(s: string, l: nat, k: nat, c: char, i: nat, v: string)
    requires i <= l && Filled(s, l, k, c) && StarsInside(v, l, k)
    ensures !Applies(s, i, v)
  {
    if Applies(s, i, v) {
      var q :| l <= q < |v| && q < k && v[q] == '*';
      MatchAgrees(s, i, v, q);
      assert false;
    }
  }

  lemma FillerMisses(s: string, l: nat, k: nat, c: char, i: nat, filler: string)
    requires i < l < k == |filler| && Filled(s, l, k, c) && AllAre(filler, c)
    ensures !Applies(s, i, filler)
  {
    if Applies(s, i, filler) {
      MatchAgrees(s, i, filler, l - 1 - i);
      assert false;
    }
  }

  /** In such a text the filler is the only variant that matches up to where it stands. */
  predicate Staged(variants: seq<string>, s: string, l: nat, filler: string, c: char) {
    && Filled(s, l, |filler|, c) && AllAre(filler, c)
    && filler in variants && IsLong(filler) && l < |filler|
    && forall v :: v in variants ==> v == filler || StarsInside(v, l, |filler|)
  }

  lemma NothingMatchesBefore(variants: seq<string>, s: string, l: nat, filler: string, c: char, i: nat)
    requires i < l && Staged(variants, s, l, filler, c)
    ensures FirstMatch(variants, s, i).None?
  {
    var found := FirstMatch(variants, s, i);
    if found.Some? {
      if found.value == filler {
        FillerMisses(s, l, |filler|, c, i, filler);
      } else {
        StarredMisses(s, l, |filler|, c, i, found.value);
      }
      assert false;
    }
  }

  lemma {:induction false} NextMatchIs(variants: seq<string>, s: string, i: nat, l: nat)
    requires i <= l < |s| && FirstMatch(variants, s, l).Some?
    requires forall j :: i <= j < l ==> FirstMatch(variants, s, j).None?
    ensures NextMatch(variants, s, i) == l
    decreases l - i
  {
    if i < l {
      NextMatchIs(variants, s, i + 1, l);
    }
  }

  /** The tail of a text that is shorter than every alternative is copied. */
  lemma {:induction false} ShortTailIsCopied(variants: seq<string>, s: string, i: nat)
    requires i <= |s|
    requires forall v :: v in variants ==> |s| - i < |v|
    ensures ReplaceFrom(variants, s, i) == s[i..]
    decreases |s| - i
  {
    if i < |s| {
      ShortTailIsCopied(variants, s, i + 1);
      assert FirstMatch(variants, s, i).None?;
      assert s[i..] == [s[i]] + s[i + 1..];
    }
  }

  lemma FillerIsFirst(variants: seq<string>, s: string, l: nat, filler: string, c: char)
    requires Staged(variants, s, l, filler, c)
    ensures NextMatch(variants, s, 0) == l
  {
    forall j | 0 <= j < l ensures FirstMatch(variants, s, j).None? {
      NothingMatchesBefore(variants, s, l, filler, c, j);
    }
    NextMatchIs(variants, s, 0, l);
  }

  lemma MaskedAndCopied(variants: seq<string>, s: string, l: nat, filler: string)
    requires l < |s| && FirstMatch(variants, s, l) == Some(filler)
    requires forall v :: v in variants ==> |s| - l - |filler| < |v|
    ensures ReplaceFrom(variants, s, l) == MASK + s[l + |filler|..]
  {
    hide FirstMatch, AtBoundaries;
    assert ReplaceFrom(variants, s, l) == MASK + ReplaceFrom(variants, s, l + |filler|);
    hide ReplaceFrom, Applies;
    ShortTailIsCopied(variants, s, l + |filler|);
  }

  lemma OnlyFillerIsMasked(variants: seq<string>, s: string, l: nat, filler: string, c: char)
    requires Staged(variants, s, l, filler, c)
    requires forall v :: v in variants ==> |s| - l - |filler| < |v|
    ensures Replace(variants, s) == s[0..l] + (MASK + s[l + |filler|..])
  {
    FillerIsFirst(variants, s, l, filler, c);
    CopiedUpToMatch(variants, s, 0);
    MaskedAndCopied(variants, s, l, filler);
  }

  // ----- The variants of a secret with an asterisk -----

  lemma StarAt(x: string, y: string)
    ensures |Starred(x, y)| == |x| + 1 + |y| && Starred(x, y)[|x|] == '*'
  {
  }

  lemma EncodedStar(f: string -> string, left: string, rest: string, k: nat)
    requires IsEncoding(f) && |f(left)| < k
    ensures StarsInside(f(Starred(left, rest)), |left|, k) && |Starred(left, rest)| <= |f(Starred(left, rest))|
  {
    assert KeepsStar(f, left, rest);
    StarAt(f(left), f(rest));
  }

  /** Long enough that no encoding moves the first asterisk past it. */
  function FillerLength(left: string, secret: string, enc: Encoders): (k: nat)
    ensures MIN_BOUNDARY_FREE_LENGTH <= k && |secret| < k
    ensures |enc.uri(left)| < k && |enc.form(left)| < k && |enc.json(left)| < k
  {
    MIN_BOUNDARY_FREE_LENGTH + |secret| + |enc.uri(left)| + |enc.form(left)| + |enc.json(left)|
  }

  lemma VariantIsStarred(left: string, rest: string, enc: Encoders, k: nat, v: string)
    requires AreEncodings(enc) && FillerLength(left, Starred(left, rest), enc) <= k
    requires IsVariantOf(v, Starred(left, rest), enc)
    ensures |Starred(left, rest)| <= |v| && StarsInside(v, |left|, k)
  {
    var secret := Starred(left, rest);
    if v == enc.uri(secret) {
      EncodedStar(enc.uri, left, rest, k);
    } else if v == enc.form(secret) {
      EncodedStar(enc.form, left, rest, k);
    } else if v == enc.json(secret) {
      EncodedStar(enc.json, left, rest, k);
    } else {
      StarAt(left, rest);
    }
  }

  lemma PairVariant(filler: string, left: string, rest: string, enc: Encoders, v: string)
    requires AreEncodings(enc) && All(WordPart, filler)
    requires FillerLength(left, Starred(left, rest), enc) <= |filler|
    requires v in Variants([filler, Starred(left, rest)], enc)
    ensures v == filler || (|Starred(left, rest)| <= |v| && StarsInside(v, |left|, |filler|))
  {
    var secrets := [filler, Starred(left, rest)];
    VariantsMeaning(secrets, enc, v);
    var k :| 0 <= k < 2 && IsVariantOf(v, secrets[k], enc);
    if k == 0 {
    } else {
      VariantIsStarred(left, rest, enc, |filler|, v);
    }
  }

  /** A plain character that does not continue left. */
  function FillerFor(left: string): (c: char)
    ensures c != '*' && IsWordPart(c) && (left != "" ==> left[|left| - 1] != c)
  {
    if left != "" && left[|left| - 1] == 'a' then 'b' else 'a'
  }

  function Repeated(c: char, k: nat): (s: string)
    ensures |s| == k && AllAre(s, c)
  {
    seq(k, _ => c)
  }

  lemma RepeatedIsPlain(c: char, k: nat)
    requires IsWordPart(c)
    ensures All(WordPart, Repeated(c, k)) && IsWellFormed(Repeated(c, k))
  {
  }

  lemma FilledBetween(left: string, filler: string, right: string, c: char)
    requires AllAre(filler, c) && c != '*' && (left != "" ==> left[|left| - 1] != c)
    ensures var s := left + filler + right;
            && Filled(s, |left|, |filler|, c)
            && s[0..|left|] == left && s[|left| + |filler|..] == right && |s| - |left| - |filler| == |right|
  {
  }

  /** Masking the filler between left and right leaves left + MASK + right, although the starred secret is known. */
  lemma MaskIsPutBetween(left: string, rest: string, right: string, enc: Encoders)
    returns (secrets: seq<string>, text: string)
    requires AreEncodings(enc) && IsWellFormed(Starred(left, rest)) && |right| < |Starred(left, rest)|
    ensures Starred(left, rest) in secrets && CanScrub(secrets)
    ensures Replace(Variants(secrets, enc), text) == left + (MASK + right)
  {
    hide Variants, IsEncoding, KeepsStar, FillerLength, FillerFor, StarsInside, Replace;
    var secret, c := Starred(left, rest), FillerFor(left);
    var filler := Repeated(c, FillerLength(left, secret, enc));
    secrets, text := [filler, secret], left + filler + right;
    RepeatedIsPlain(c, |filler|);
    FilledBetween(left, filler, right, c);
    SecretIsVariant(secrets, enc, filler);
    var variants := Variants(secrets, enc);
    forall v | v in variants ensures |right| < |v| && (v == filler || StarsInside(v, |left|, |filler|)) {
      PairVariant(filler, left, rest, enc, v);
    }
    StarAt(left, rest);
    OnlyFillerIsMasked(variants, text, |left|, filler, c);
  }

  lemma OccursWithin(secret: string, s: string, i: nat)
    requires i + |secret| <= |s| && s[i..i + |secret|] == secret
    ensures Occurs(secret, s)
  {
    forall k | 0 <= k < |secret| ensures s[i + k] == secret[k] {
      MatchAgrees(s, i, secret, k);
    }
    assert OccursAt(secret, s, i);
  }

  /** For every secret that is not robust, some other secret and some text put it back together. */
  lemma FragileSecretReappears(secret: string, enc: Encoders) returns (secrets: seq<string>, text: string)
    requires AreEncodings(enc) && IsLong(secret) && IsWellFormed(secret) && !Robust(secret)
    ensures secret in secrets && CanScrub(secrets) && Occurs(secret, Replace(Variants(secrets, enc), text))
  {
    hide IsEncoding, Variants, Replace, Occurs;
    var n := |secret| - 1;
    if secret[0] == '*' {
      var rest := secret[1..];
      assert secret == Starred("", rest);
      secrets, text := MaskIsPutBetween("", rest, rest, enc);
      OccursWithin(secret, "" + (MASK + rest), 2);
    } else if secret[n] == '*' {
      var left := secret[..n];
      assert secret == Starred(left, "");
      secrets, text := MaskIsPutBetween(left, "", "", enc);
      OccursWithin(secret, left + (MASK + ""), 0);
    } else {
      var p :| 0 <= p < |secret| && MaskAt(secret, p);
      var left, rest, right := secret[..p], secret[p + 1..], secret[p + 3..];
      assert secret == Starred(left, rest) && left + (MASK + right) == secret;
      secrets, text := MaskIsPutBetween(left, rest, right, enc);
      OccursWithin(secret, left + (MASK + right), 0);
    }
  }

  /** Scrubbing with any secrets that include this one leaves no trace of it in any value. */
  ghost predicate IsSafe(secret: string, enc: Encoders) {
    forall secrets, value :: secret in secrets && CanScrub(secrets) ==> Clean(Scrubbed(value, secrets, enc), secret)
  }

  /** A long secret is safe if and only if it is robust. */
  lemma SafeExactlyWhenRobust(secret: string, enc: Encoders)
    requires AreEncodings(enc) && IsLong(secret) && IsWellFormed(secret)
    ensures IsSafe(secret, enc) <==> Robust(secret)
  {
    if Robust(secret) {
      forall secrets, value | secret in secrets && CanScrub(secrets)
        ensures Clean(Scrubbed(value, secrets, enc), secret) {
        ScrubIsComplete(value, secrets, enc, secret);
      }
    } else {
      var secrets, text := FragileSecretReappears(secret, enc);
      SecretIsVariant(secrets, enc, secret);
      assert Scrubbed(Str(text), secrets, enc) == Str(Replace(Variants(secrets, enc), text));
      assert !Clean(Scrubbed(Str(text), secrets, enc), secret);
    }
  }

  // ----- Short secrets -----

  /** The character at a neighbouring position neither continues a word nor can belong to a mask. */
  predicate IsGap(r: string, k: int) {
    k < 0 || |r| <= k || (!IsWordPart(r[k]) && r[k] != '*')
  }

  /** A robust secret that scrubbed text starts with was copied there from the source. */
  lemma HeadIsCopied(variants: seq<string>, s: string, i: nat, secret: string)
    requires i <= |s| && Robust(secret) && OccursAt(secret, ReplaceFrom(variants, s, i), 0)
    ensures var m := NextMatch(variants, s, i);
            i + |secret| <= m && MatchesAt(s, i, secret)
  {
    hide FirstMatch;
    var r, m := ReplaceFrom(variants, s, i), NextMatch(variants, s, i);
    CopiedUpToMatch(variants, s, i);
    var rest := ReplaceFrom(variants, s, m);
    assert r == s[i..m] + rest;
    if m - i < |secret| && m < |s| {
      assert r[m - i] == rest[0] && r[m - i + 1] == rest[1] && r[m - i + 2] == rest[2];
      ReachesIntoMask(secret, r, m - i);
    }
    assert s[i..i + |secret|] == secret by {
      assert forall k :: 0 <= k < |secret| ==> r[0 + k] == secret[k] && r[k] == s[i + k];
    }
  }

  /** What follows the copy in the source is what follows it in the scrubbed text, or is masked there. */
  lemma AfterTheCopy(variants: seq<string>, s: string, i: nat, n: nat)
    requires i + n < |s| && i + n <= NextMatch(variants, s, i)
    ensures var r := ReplaceFrom(variants, s, i); n < |r| && (r[n] == s[i + n] || r[n] == '*')
  {
    hide FirstMatch;
    CopiedUpToMatch(variants, s, i);
  }

  lemma WordIsNotAtHead(variants: seq<string>, s: string, i: nat, secret: string)
    requires i <= |s| && FirstMatch(variants, s, i).None? && secret in variants && Robust(secret)
    requires i == 0 || !IsWordPart(s[i - 1])
    requires IsGap(ReplaceFrom(variants, s, i), |secret|)
    ensures !OccursAt(secret, ReplaceFrom(variants, s, i), 0)
  {
    if OccursAt(secret, ReplaceFrom(variants, s, i), 0) {
      HeadIsCopied(variants, s, i, secret);
      if i + |secret| < |s| {
        AfterTheCopy(variants, s, i, |secret|);
      }
      assert false;
    }
  }

  lemma LaterOccurrence(secret: string, r: string, rest: string, skipped: nat, j: nat)
    requires skipped <= |r| && r[skipped..] == rest && skipped <= j
    ensures OccursAt(secret, r, j) ==> OccursAt(secret, rest, j - skipped)
    ensures IsGap(r, j + |secret|) ==> IsGap(rest, j - skipped + |secret|)
    ensures skipped < j && IsGap(r, j - 1) ==> IsGap(rest, j - skipped - 1)
  {
    if OccursAt(secret, r, j) {
      forall k | 0 <= k < |secret| ensures rest[j - skipped + k] == secret[k] {
        assert r[j + k] == secret[k];
      }
    }
  }

  /** The text after the first replacement or the first character copied. */
  function RestFrom(variants: seq<string>, s: string, i: nat): (next: nat)
    requires i < |s|
    ensures i < next <= |s|
    ensures FirstMatch(variants, s, i).None? ==> next == i + 1
  {
    if FirstMatch(variants, s, i).Some? then i + |FirstMatch(variants, s, i).value| else i + 1
  }

  lemma RestIsSuffix(variants: seq<string>, s: string, i: nat)
    requires i < |s|
    ensures var r, rest := ReplaceFrom(variants, s, i), ReplaceFrom(variants, s, RestFrom(variants, s, i));
            if FirstMatch(variants, s, i).Some? then 3 <= |r| && r[3..] == rest && r[0] == r[1] == r[2] == '*'
            else 1 <= |r| && r[1..] == rest && r[0] == s[i]
  {
    hide FirstMatch;
  }

  lemma NotOnMask(secret: string, r: string, j: nat)
    requires Robust(secret) && j <= 3 <= |r| && r[0] == r[1] == r[2] == '*'
    requires j == 3 ==> IsGap(r, j - 1)
    ensures !OccursAt(secret, r, j)
  {
  }

  lemma OneCharacterLeft(s: string, i: nat, r: string)
    requires i < |s| && r != "" && r[0] == s[i] && IsGap(r, 0)
    ensures !IsWordPart(s[i])
  {
  }

  lemma NothingAtTheEnd(variants: seq<string>, s: string, secret: string, j: nat)
    requires Robust(secret)
    ensures !OccursAt(secret, ReplaceFrom(variants, s, |s|), j)
  {
  }

  lemma {:induction false} NoWordFrom(variants: seq<string>, s: string, i: nat, secret: string, j: nat)
    requires i <= |s| && secret in variants && Robust(secret)
    requires IsGap(ReplaceFrom(variants, s, i), j + |secret|)
    requires if j == 0 then i == 0 || !IsWordPart(s[i - 1]) else IsGap(ReplaceFrom(variants, s, i), j - 1)
    ensures !OccursAt(secret, ReplaceFrom(variants, s, i), j)
    decreases |s| - i
  {
    hide FirstMatch, ReplaceFrom, RestFrom, OccursAt, Robust, IsGap, IsWordPart;
    if i == |s| {
      NothingAtTheEnd(variants, s, secret, j);
    } else {
      var r, next, found := ReplaceFrom(variants, s, i), RestFrom(variants, s, i), FirstMatch(variants, s, i);
      RestIsSuffix(variants, s, i);
      if found.None? && j == 0 {
        WordIsNotAtHead(variants, s, i, secret);
      } else if found.None? {
        if j == 1 {
          OneCharacterLeft(s, i, r);
        }
        LaterOccurrence(secret, r, ReplaceFrom(variants, s, next), 1, j);
        NoWordFrom(variants, s, next, secret, j - 1);
      } else if 3 < j {
        LaterOccurrence(secret, r, ReplaceFrom(variants, s, next), 3, j);
        NoWordFrom(variants, s, next, secret, j - 3);
      } else {
        NotOnMask(secret, r, j);
      }
    }
  }

  /**
   A robust secret of any length never stands by itself in a scrubbed text: where it still occurs it
   continues a word, or stands next to an asterisk.
   */
  lemma SecretNeverStandsAlone(text: string, secrets: seq<string>, enc: Encoders, secret: string, j: nat)
    requires secret in secrets && Robust(secret)
    ensures var r := ScrubbedText(text, secrets, enc);
            OccursAt(secret, r, j) ==> !IsGap(r, j - 1) || !IsGap(r, j + |secret|)
  {
    SecretIsVariant(secrets, enc, secret);
    var variants := Variants(secrets, enc);
    var r := Replace(variants, text);
    if OccursAt(secret, r, j) && IsGap(r, j - 1) && IsGap(r, j + |secret|) {
      NoWordFrom(variants, text, 0, secret, j);
    }
  }

  /** Next to a mask it can: the long secret that stood before it made a word of both. */
  lemma ShortSecretNextToMask()
    ensures LongestFirst(["LONGSEC", "ab"]) && Replace(["LONGSEC", "ab"], "LONGSECab") == "***ab"
  {
    var variants, s := ["LONGSEC", "ab"], "LONGSECab";
    assert s[0..7] == "LONGSEC" && s[7..9] == "ab";
    assert FirstMatch(variants, s, 0) == Some("LONGSEC");
    assert variants[1..] == ["ab"] && ["ab"][1..] == [];
    assert !AtBoundaries(s, 7, 9);
    assert FirstMatch(variants, s, 7).None? && FirstMatch(variants, s, 8).None?;
    assert ReplaceFrom(variants, s, 9) == "";
    assert ReplaceFrom(variants, s, 8) == "b" && ReplaceFrom(variants, s, 7) == "ab";
  }
}
