/**
 `{$env.NAME}` references (the files of env-ref) and what read APIs show of a stored configuration
 (services.route.ts): registration checks them, reading masks them, an invocation resolves them.
 Masking and resolving are proved to be one and the same replacement, and resubmitting what a
 read API returned to be refused exactly when something was hidden in it.
 */
module EnvRefs {
  import opened Prelude
  import opened Text
  import opened Json
  import Redaction

  const MASK := "****"

  predicate HasPrefix(s: string) {
    6 <= |s| && s[0] == '{' && s[1] == '$' && s[2] == 'e' && s[3] == 'n' && s[4] == 'v' && s[5] == '.'
  }

  /** [A-Za-z_][A-Za-z0-9_]* as a whole string. */
  predicate IsName(s: string) {
    s != "" && IsWordStart(s[0]) && forall i :: 0 <= i < |s| ==> IsWordPart(s[i])
  }

  predicate IsEnvRef(s: string) {
    HasPrefix(s) && 7 < |s| && s[|s| - 1] == '}' && IsName(s[6..|s| - 1])
  }

  function RefName(s: string): string
    requires IsEnvRef(s)
  {
    s[6..|s| - 1]
  }

  // ----- Registration (parse.ts) -----

  datatype Complaint = MaskedValue | MalformedRef

  datatype Issue = Issue(path: seq<string>, text: string, complaint: Complaint)

  function StringIssues(s: string, path: seq<string>): seq<Issue> {
    if s == MASK || s == Redaction.MASK then [Issue(path, s, MaskedValue)]
    else if !HasPrefix(s) || IsEnvRef(s) then []
    else [Issue(path, s, MalformedRef)]
  }

  function CollectIssues(value: Value, path: seq<string>): seq<Issue>
    decreases value, 1
  {
    match value
    case Str(text) => StringIssues(text, path)
    case Arr(slots) => SlotIssues(slots, 0, path)
    case Obj(entries) => EntryIssues(entries, path)
    case _ => []
  }

  function SlotIssues(slots: seq<Value>, index: nat, path: seq<string>): seq<Issue>
    decreases slots, 0
  {
    if slots == [] then []
    else CollectIssues(slots[0], path + [Numeral(index)]) + SlotIssues(slots[1..], index + 1, path)
  }

  function EntryIssues(entries: seq<Entry>, path: seq<string>): seq<Issue>
    decreases entries, 0
  {
    if entries == [] then []
    else CollectIssues(entries[0].value, path + [entries[0].key]) + EntryIssues(entries[1..], path)
  }

  predicate AcceptedString(s: string) {
    s != MASK && s != Redaction.MASK && (HasPrefix(s) ==> IsEnvRef(s))
  }

  /** No string anywhere in the value is a mask or a malformed reference. */
  predicate Accepted(value: Value)
    decreases value
  {
    match value
    case Str(text) => AcceptedString(text)
    case Arr(slots) => forall i :: 0 <= i < |slots| ==> Accepted(slots[i])
    case Obj(entries) => forall i :: 0 <= i < |entries| ==> Accepted(entries[i].value)
    case _ => true
  }

  lemma {:induction false} NoIssuesMeansAccepted(value: Value, path: seq<string>)
    ensures CollectIssues(value, path) == [] <==> Accepted(value)
    decreases value, 1
  {
    match value
    case Arr(slots) => NoSlotIssues(slots, 0, path);
    case Obj(entries) => NoEntryIssues(entries, path);
    case _ =>
  }

  lemma {:induction false} NoSlotIssues(slots: seq<Value>, index: nat, path: seq<string>)
    ensures SlotIssues(slots, index, path) == [] <==> forall i :: 0 <= i < |slots| ==> Accepted(slots[i])
    decreases slots, 0
  {
    if slots != [] {
      NoIssuesMeansAccepted(slots[0], path + [Numeral(index)]);
      NoSlotIssues(slots[1..], index + 1, path);
      assert forall i :: 1 <= i < |slots| ==> slots[i] == slots[1..][i - 1];
    }
  }

  lemma {:induction false} NoEntryIssues(entries: seq<Entry>, path: seq<string>)
    ensures EntryIssues(entries, path) == [] <==> forall i :: 0 <= i < |entries| ==> Accepted(entries[i].value)
    decreases entries, 0
  {
    if entries != [] {
      NoIssuesMeansAccepted(entries[0].value, path + [entries[0].key]);
      NoEntryIssues(entries[1..], path);
      assert forall i :: 1 <= i < |entries| ==> entries[i] == entries[1..][i - 1];
    }
  }

  // ----- Masking (mask.ts) -----

  const PROTO := "__proto__"

  /** Assigning out["__proto__"] sets the prototype, so that key is lost from the copy. */
  function MaskEnvRefs(value: Value): Value
    decreases value, 1
  {
    match value
    case Str(text) => if IsEnvRef(text) then Str(MASK) else value
    case Arr(slots) => Arr(MaskSlots(slots))
    case Obj(entries) => Obj(MaskEntries(entries))
    case _ => value
  }

  function MaskSlots(slots: seq<Value>): seq<Value>
    decreases slots, 0
  {
    if slots == [] then [] else [MaskEnvRefs(slots[0])] + MaskSlots(slots[1..])
  }

  function MaskEntries(entries: seq<Entry>): seq<Entry>
    decreases entries, 0
  {
    if entries == [] then []
    else if entries[0].key == PROTO then MaskEntries(entries[1..])
    else [Entry(entries[0].key, MaskEnvRefs(entries[0].value))] + MaskEntries(entries[1..])
  }

  /** The same value without any `__proto__` entry. */
  function WithoutProto(value: Value): Value
    decreases value, 1
  {
    match value
    case Arr(slots) => Arr(SlotsWithoutProto(slots))
    case Obj(entries) => Obj(EntriesWithoutProto(entries))
    case _ => value
  }

  function SlotsWithoutProto(slots: seq<Value>): seq<Value>
    decreases slots, 0
  {
    if slots == [] then [] else [WithoutProto(slots[0])] + SlotsWithoutProto(slots[1..])
  }

  function EntriesWithoutProto(entries: seq<Entry>): seq<Entry>
    decreases entries, 0
  {
    if entries == [] then []
    else if entries[0].key == PROTO then EntriesWithoutProto(entries[1..])
    else [Entry(entries[0].key, WithoutProto(entries[0].value))] + EntriesWithoutProto(entries[1..])
  }

  // ----- The one replacement -----

  /** Every reference replaced by f of it, and nothing else changed. */
  function ReplaceRefs(value: Value, f: string -> string): Value
    decreases value, 1
  {
    match value
    case Str(text) => if IsEnvRef(text) then Str(f(text)) else value
    case Arr(slots) => Arr(ReplaceInSlots(slots, f))
    case Obj(entries) => Obj(ReplaceInEntries(entries, f))
    case _ => value
  }

  function ReplaceInSlots(slots: seq<Value>, f: string -> string): seq<Value>
    decreases slots, 0
  {
    if slots == [] then [] else [ReplaceRefs(slots[0], f)] + ReplaceInSlots(slots[1..], f)
  }

  function ReplaceInEntries(entries: seq<Entry>, f: string -> string): seq<Entry>
    decreases entries, 0
  {
    if entries == [] then []
    else [Entry(entries[0].key, ReplaceRefs(entries[0].value, f))] + ReplaceInEntries(entries[1..], f)
  }

  /** Masking replaces exactly the references, each by the mask. */
  lemma {:induction false} MaskIsReplacement(value: Value, f: string -> string)
    requires forall s :: f(s) == MASK
    ensures MaskEnvRefs(value) == ReplaceRefs(WithoutProto(value), f)
    decreases value, 1
  {
    match value
    case Arr(slots) => MaskSlotsIsReplacement(slots, f);
    case Obj(entries) => MaskEntriesIsReplacement(entries, f);
    case _ =>
  }

  lemma {:induction false} MaskSlotsIsReplacement(slots: seq<Value>, f: string -> string)
    requires forall s :: f(s) == MASK
    ensures MaskSlots(slots) == ReplaceInSlots(SlotsWithoutProto(slots), f)
    decreases slots, 0
  {
    if slots != [] {
      MaskIsReplacement(slots[0], f);
      MaskSlotsIsReplacement(slots[1..], f);
      assert SlotsWithoutProto(slots)[1..] == SlotsWithoutProto(slots[1..]);
    }
  }

  lemma {:induction false} MaskEntriesIsReplacement(entries: seq<Entry>, f: string -> string)
    requires forall s :: f(s) == MASK
    ensures MaskEntries(entries) == ReplaceInEntries(EntriesWithoutProto(entries), f)
    decreases entries, 0
  {
    if entries != [] {
      MaskEntriesIsReplacement(entries[1..], f);
      if entries[0].key != PROTO {
        MaskIsReplacement(entries[0].value, f);
        assert EntriesWithoutProto(entries)[1..] == EntriesWithoutProto(entries[1..]);
      }
    }
  }

  // ----- Resolution (resolve.ts) -----

  /** EnvRefResolutionError: the first reference, in order, to a variable that is not set. */
  datatype Unset = Unset(name: string, path: seq<string>)

  function FirstUnset(value: Value, env: map<string, string>, path: seq<string>): Option<Unset>
    decreases value, 1
  {
    match value
    case Str(text) => if IsEnvRef(text) && RefName(text) !in env then Some(Unset(RefName(text), path)) else None
    case Arr(slots) => FirstUnsetSlot(slots, 0, env, path)
    case Obj(entries) => FirstUnsetEntry(entries, env, path)
    case _ => None
  }

  function FirstUnsetSlot(slots: seq<Value>, index: nat, env: map<string, string>, path: seq<string>): Option<Unset>
    decreases slots, 0
  {
    if slots == [] then None
    else
      var first := FirstUnset(slots[0], env, path + [Numeral(index)]);
      if first.Some? then first else FirstUnsetSlot(slots[1..], index + 1, env, path)
  }

  function FirstUnsetEntry(entries: seq<Entry>, env: map<string, string>, path: seq<string>): Option<Unset>
    decreases entries, 0
  {
    if entries == [] then None
    else
      var first := FirstUnset(entries[0].value, env, path + [entries[0].key]);
      if first.Some? then first else FirstUnsetEntry(entries[1..], env, path)
  }

  /** The value a reference resolves to. */
  function EnvValue(env: map<string, string>): string -> string {
    s => if IsEnvRef(s) && RefName(s) in env then env[RefName(s)] else ""
  }

  /** The non-empty values the walk resolves references to, up to the first unset variable. */
  function SecretsIn(value: Value, env: map<string, string>): set<string>
    decreases value, 1
  {
    match value
    case Str(text) =>
      if IsEnvRef(text) && RefName(text) in env && env[RefName(text)] != "" then {env[RefName(text)]} else {}
    case Arr(slots) => SecretsInSlots(slots, env)
    case Obj(entries) => SecretsInEntries(entries, env)
    case _ => {}
  }

  function SecretsInSlots(slots: seq<Value>, env: map<string, string>): set<string>
    decreases slots, 0
  {
    if slots == [] then {}
    else SecretsIn(slots[0], env) + (if IsSet(slots[0], env) then SecretsInSlots(slots[1..], env) else {})
  }

  function SecretsInEntries(entries: seq<Entry>, env: map<string, string>): set<string>
    decreases entries, 0
  {
    if entries == [] then {}
    else
      SecretsIn(entries[0].value, env)
      + (if IsSet(entries[0].value, env) then SecretsInEntries(entries[1..], env) else {})
  }

  /** No reference in the value is to an unset variable. */
  predicate IsSet(value: Value, env: map<string, string>)
    decreases value
  {
    match value
    case Str(text) => IsEnvRef(text) ==> RefName(text) in env
    case Arr(slots) => forall i :: 0 <= i < |slots| ==> IsSet(slots[i], env)
    case Obj(entries) => forall i :: 0 <= i < |entries| ==> IsSet(entries[i].value, env)
    case _ => true
  }

  /** Resolving fails exactly when some reference is to an unset variable. */
  lemma {:induction false} UnsetExactlyWhenFound(value: Value, env: map<string, string>, path: seq<string>)
    ensures FirstUnset(value, env, path).None? <==> IsSet(value, env)
    decreases value, 1
  {
    match value
    case Arr(slots) => UnsetSlot(slots, 0, env, path);
    case Obj(entries) => UnsetEntry(entries, env, path);
    case _ =>
  }

  lemma {:induction false} UnsetSlot(slots: seq<Value>, index: nat, env: map<string, string>, path: seq<string>)
    ensures FirstUnsetSlot(slots, index, env, path).None? <==> IsSet(Arr(slots), env)
    decreases slots, 0
  {
    if slots != [] {
      UnsetExactlyWhenFound(slots[0], env, path + [Numeral(index)]);
      UnsetSlot(slots[1..], index + 1, env, path);
      assert forall i :: 1 <= i < |slots| ==> slots[i] == slots[1..][i - 1];
    }
  }

  lemma {:induction false} UnsetEntry(entries: seq<Entry>, env: map<string, string>, path: seq<string>)
    ensures FirstUnsetEntry(entries, env, path).None? <==> IsSet(Obj(entries), env)
    decreases entries, 0
  {
    if entries != [] {
      UnsetExactlyWhenFound(entries[0].value, env, path + [entries[0].key]);
      UnsetEntry(entries[1..], env, path);
      assert forall i :: 1 <= i < |entries| ==> entries[i] == entries[1..][i - 1];
    }
  }

  /** The Set the walk fills; every addition is also reported to onSecret. */
  class SecretSet {
    var secrets: set<string>

    constructor ()
      ensures secrets == {}
    {
      secrets := {};
    }
  }

  /** What a walk returns: the replaced value, or the first unset variable. */
  function Resolution(value: Value, env: map<string, string>, path: seq<string>): Result<Value, Unset> {
    var unset := FirstUnset(value, env, path);
    if unset.Some? then Err(unset.value) else Ok(ReplaceRefs(value, EnvValue(env)))
  }

  method Walk(value: Value, env: map<string, string>, path: seq<string>, sink: SecretSet)
    returns (r: Result<Value, Unset>)
    modifies sink
    ensures r == Resolution(value, env, path)
    ensures sink.secrets == old(sink.secrets) + SecretsIn(value, env)
    decreases value, 1
  {
    match value
    case Str(text) =>
      if !IsEnvRef(text) {
        return Ok(value);
      }
      var name := RefName(text);
      if name !in env {
        return Err(Unset(name, path));
      }
      if env[name] != "" {
        sink.secrets := sink.secrets + {env[name]};
      }
      return Ok(Str(env[name]));
    case Arr(slots) =>
      var inner := WalkSlots(slots, 0, env, path, sink);
      return if inner.Err? then Err(inner.error) else Ok(Arr(inner.value));
    case Obj(entries) =>
      var inner := WalkEntries(entries, env, path, sink);
      return if inner.Err? then Err(inner.error) else Ok(Obj(inner.value));
    case _ =>
      return Ok(value);
  }

  method WalkSlots(slots: seq<Value>, index: nat, env: map<string, string>, path: seq<string>, sink: SecretSet)
    returns (r: Result<seq<Value>, Unset>)
    modifies sink
    ensures r == var unset := FirstUnsetSlot(slots, index, env, path);
                 if unset.Some? then Err(unset.value) else Ok(ReplaceInSlots(slots, EnvValue(env)))
    ensures sink.secrets == old(sink.secrets) + SecretsInSlots(slots, env)
    decreases slots, 0
  {
    if slots == [] {
      return Ok([]);
    }
    UnsetExactlyWhenFound(slots[0], env, path + [Numeral(index)]);
    var first := Walk(slots[0], env, path + [Numeral(index)], sink);
    if first.Err? {
      return Err(first.error);
    }
    var rest := WalkSlots(slots[1..], index + 1, env, path, sink);
    return if rest.Err? then Err(rest.error) else Ok([first.value] + rest.value);
  }

  method WalkEntries(entries: seq<Entry>, env: map<string, string>, path: seq<string>, sink: SecretSet)
    returns (r: Result<seq<Entry>, Unset>)
    modifies sink
    ensures r == var unset := FirstUnsetEntry(entries, env, path);
                 if unset.Some? then Err(unset.value) else Ok(ReplaceInEntries(entries, EnvValue(env)))
    ensures sink.secrets == old(sink.secrets) + SecretsInEntries(entries, env)
    decreases entries, 0
  {
    if entries == [] {
      return Ok([]);
    }
    UnsetExactlyWhenFound(entries[0].value, env, path + [entries[0].key]);
    var first := Walk(entries[0].value, env, path + [entries[0].key], sink);
    if first.Err? {
      return Err(first.error);
    }
    var rest := WalkEntries(entries[1..], env, path, sink);
    return if rest.Err? then Err(rest.error) else Ok([Entry(entries[0].key, first.value)] + rest.value);
  }

  /** resolveEnvRefsDetailed: the resolved configuration and exactly the secrets put into it. */
  method ResolveEnvRefs(config: Value, env: map<string, string>) returns (r: Result<Value, Unset>, secrets: set<string>)
    ensures r == Resolution(config, env, [])
    ensures secrets == SecretsIn(config, env)
  {
    var sink := new SecretSet();
    r := Walk(config, env, [], sink);
    secrets := sink.secrets;
    assert {} + SecretsIn(config, env) == SecretsIn(config, env);
  }

  // ----- What a read API shows (services.route.ts, redact.ts) -----

  function View(config: Value, isSensitive: string -> bool): Value {
    Redaction.Redact(MaskEnvRefs(config), isSensitive)
  }

  /** Both facts the induction carries: the view is accepted exactly when it hides nothing. */
  predicate HidesNothingIffAccepted(value: Value, isSensitive: string -> bool) {
    Accepted(View(value, isSensitive)) <==> View(value, isSensitive) == WithoutProto(value)
  }

  lemma {:induction false} ViewAccepted(value: Value, isSensitive: string -> bool)
    requires Accepted(value)
    ensures HidesNothingIffAccepted(value, isSensitive)
    ensures Accepted(WithoutProto(value))
    decreases value, 1
  {
    match value
    case Arr(slots) => SlotsViewAccepted(slots, isSensitive);
    case Obj(entries) => EntriesViewAccepted(entries, isSensitive);
    case _ =>
  }

  lemma {:induction false} SlotsViewAccepted(slots: seq<Value>, isSensitive: string -> bool)
    requires forall i :: 0 <= i < |slots| ==> Accepted(slots[i])
    ensures var view := Redaction.RedactSlots(MaskSlots(slots), isSensitive);
            (forall i :: 0 <= i < |view| ==> Accepted(view[i])) <==> view == SlotsWithoutProto(slots)
    ensures Accepted(Arr(SlotsWithoutProto(slots)))
    decreases slots, 0
  {
    if slots != [] {
      ViewAccepted(slots[0], isSensitive);
      SlotsViewAccepted(slots[1..], isSensitive);
      var head, tail := View(slots[0], isSensitive), Redaction.RedactSlots(MaskSlots(slots[1..]), isSensitive);
      assert MaskSlots(slots)[1..] == MaskSlots(slots[1..]);
      assert Redaction.RedactSlots(MaskSlots(slots), isSensitive) == [head] + tail;
      AcceptedCons(head, tail);
      AcceptedCons(WithoutProto(slots[0]), SlotsWithoutProto(slots[1..]));
      ConsEqual(head, tail, WithoutProto(slots[0]), SlotsWithoutProto(slots[1..]));
    }
  }

  lemma AcceptedCons(head: Value, tail: seq<Value>)
    ensures (forall i :: 0 <= i < |[head] + tail| ==> Accepted(([head] + tail)[i]))
       <==> Accepted(head) && forall i :: 0 <= i < |tail| ==> Accepted(tail[i])
  {
    var whole := [head] + tail;
    assert whole[0] == head;
    assert forall i :: 0 <= i < |tail| ==> tail[i] == whole[i + 1];
    assert forall i :: 1 <= i < |whole| ==> whole[i] == tail[i - 1];
  }

  lemma ConsEqual<T>(a: T, s: seq<T>, b: T, t: seq<T>)
    ensures [a] + s == [b] + t <==> a == b && s == t
  {
    if [a] + s == [b] + t {
      assert ([a] + s)[0] == ([b] + t)[0];
      assert ([a] + s)[1..] == ([b] + t)[1..];
    }
  }

  predicate EntriesAccepted(entries: seq<Entry>) {
    forall i :: 0 <= i < |entries| ==> Accepted(entries[i].value)
  }

  lemma EntriesAcceptedCons(head: Entry, tail: seq<Entry>)
    ensures EntriesAccepted([head] + tail) <==> Accepted(head.value) && EntriesAccepted(tail)
  {
    var whole := [head] + tail;
    assert whole[0] == head;
    assert forall i :: 0 <= i < |tail| ==> tail[i] == whole[i + 1];
    assert forall i :: 1 <= i < |whole| ==> whole[i] == tail[i - 1];
  }

  lemma {:induction false} EntriesViewAccepted(entries: seq<Entry>, isSensitive: string -> bool)
    requires EntriesAccepted(entries)
    ensures var view := Redaction.RedactEntries(MaskEntries(entries), isSensitive);
            EntriesAccepted(view) <==> view == EntriesWithoutProto(entries)
    ensures EntriesAccepted(EntriesWithoutProto(entries))
    decreases entries, 0
  {
    if entries != [] {
      assert EntriesAccepted(entries[1..]);
      EntriesViewAccepted(entries[1..], isSensitive);
      if entries[0].key != PROTO {
        var key, value := entries[0].key, entries[0].value;
        ViewAccepted(value, isSensitive);
        var shown := if isSensitive(key) then Str(Redaction.MASK) else View(value, isSensitive);
        var head, tail := Entry(key, shown), Redaction.RedactEntries(MaskEntries(entries[1..]), isSensitive);
        assert MaskEntries(entries)[1..] == MaskEntries(entries[1..]);
        assert Redaction.RedactEntries(MaskEntries(entries), isSensitive) == [head] + tail;
        EntriesAcceptedCons(head, tail);
        EntriesAcceptedCons(Entry(key, WithoutProto(value)), EntriesWithoutProto(entries[1..]));
        ConsEqual(head, tail, Entry(key, WithoutProto(value)), EntriesWithoutProto(entries[1..]));
      }
    }
  }

  /** Resubmitting what a read API returned is accepted exactly when nothing in it was masked or redacted. */
  lemma ResubmissionIsCaught(config: Value, isSensitive: string -> bool)
    requires CollectIssues(config, []) == []
    ensures CollectIssues(View(config, isSensitive), []) == [] <==> View(config, isSensitive) == WithoutProto(config)
  {
    NoIssuesMeansAccepted(config, []);
    NoIssuesMeansAccepted(View(config, isSensitive), []);
    ViewAccepted(config, isSensitive);
  }

  // ----- Which strings are replaced -----

  /** s is one of the strings of the value, at any depth. */
  predicate HasString(value: Value, s: string)
    decreases value
  {
    match value
    case Str(text) => text == s
    case Arr(slots) => exists i :: 0 <= i < |slots| && HasString(slots[i], s)
    case Obj(entries) => exists i :: 0 <= i < |entries| && HasString(entries[i].value, s)
    case _ => false
  }

  lemma {:induction false} AcceptedStrings(value: Value, s: string)
    requires Accepted(value) && HasString(value, s)
    ensures AcceptedString(s)
    decreases value
  {
    match value
    case Arr(slots) =>
      var i :| 0 <= i < |slots| && HasString(slots[i], s);
      AcceptedStrings(slots[i], s);
    case Obj(entries) =>
      var i :| 0 <= i < |entries| && HasString(entries[i].value, s);
      AcceptedStrings(entries[i].value, s);
    case _ =>
  }

  /** Every string of an accepted configuration that starts with `{$env.`, at any depth, is a reference. */
  lemma AcceptedPrefixIsReference(config: Value, path: seq<string>, s: string)
    requires CollectIssues(config, path) == [] && HasString(config, s)
    ensures HasPrefix(s) <==> IsEnvRef(s)
  {
    NoIssuesMeansAccepted(config, path);
    AcceptedStrings(config, s);
  }

  /** Every string that starts with `{$env.` replaced by f of it. */
  function ReplacePrefixed(value: Value, f: string -> string): Value
    decreases value, 1
  {
    match value
    case Str(text) => if HasPrefix(text) then Str(f(text)) else value
    case Arr(slots) => Arr(ReplacePrefixedSlots(slots, f))
    case Obj(entries) => Obj(ReplacePrefixedEntries(entries, f))
    case _ => value
  }

  function ReplacePrefixedSlots(slots: seq<Value>, f: string -> string): seq<Value>
    decreases slots, 0
  {
    if slots == [] then [] else [ReplacePrefixed(slots[0], f)] + ReplacePrefixedSlots(slots[1..], f)
  }

  function ReplacePrefixedEntries(entries: seq<Entry>, f: string -> string): seq<Entry>
    decreases entries, 0
  {
    if entries == [] then []
    else [Entry(entries[0].key, ReplacePrefixed(entries[0].value, f))] + ReplacePrefixedEntries(entries[1..], f)
  }

  lemma {:induction false} AcceptedReplacement(value: Value, f: string -> string)
    requires Accepted(value)
    ensures ReplaceRefs(value, f) == ReplacePrefixed(value, f)
    decreases value, 1
  {
    match value
    case Arr(slots) => AcceptedSlotReplacement(slots, f);
    case Obj(entries) => AcceptedEntryReplacement(entries, f);
    case _ =>
  }

  lemma {:induction false} AcceptedSlotReplacement(slots: seq<Value>, f: string -> string)
    requires Accepted(Arr(slots))
    ensures ReplaceInSlots(slots, f) == ReplacePrefixedSlots(slots, f)
    decreases slots, 0
  {
    if slots != [] {
      assert Accepted(slots[0]);
      AcceptedReplacement(slots[0], f);
      AcceptedSlotReplacement(slots[1..], f);
    }
  }

  lemma {:induction false} AcceptedEntryReplacement(entries: seq<Entry>, f: string -> string)
    requires EntriesAccepted(entries)
    ensures ReplaceInEntries(entries, f) == ReplacePrefixedEntries(entries, f)
    decreases entries, 0
  {
    if entries != [] {
      assert Accepted(entries[0].value);
      AcceptedReplacement(entries[0].value, f);
      AcceptedEntryReplacement(entries[1..], f);
    }
  }

  /** Masking and resolving an accepted configuration replace the same strings: all that start with `{$env.`. */
  lemma SamePositionsReplaced(config: Value, env: map<string, string>, mask: string -> string)
    requires CollectIssues(config, []) == [] && forall s :: mask(s) == MASK
    ensures MaskEnvRefs(config) == ReplacePrefixed(WithoutProto(config), mask)
    ensures Resolution(config, env, []).Ok? ==>
              Resolution(config, env, []).value == ReplacePrefixed(config, EnvValue(env))
  {
    NoIssuesMeansAccepted(config, []);
    ViewAccepted(config, _ => false);
    MaskIsReplacement(config, mask);
    AcceptedReplacement(WithoutProto(config), mask);
    AcceptedReplacement(config, EnvValue(env));
  }
}
