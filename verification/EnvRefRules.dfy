/**
 The references of a configuration (the files of env-ref) by the strings it holds, in document order: which of them
 are references, which are reported, which variable is the first one missing and which values are taken.
 */
module EnvRefRules {
  import opened Prelude
  import opened Text
  import opened Json
  import opened EnvRefs

  // ----- What a reference is -----

  /** A reference is `{$env.`, the name of a variable and `}`, and stands for that variable. */
  lemma ReferenceGrammar(s: string, name: string)
    requires IsName(name)
    ensures s == "{$env." + name + "}" <==> IsEnvRef(s) && RefName(s) == name
  {
    var ref := "{$env." + name + "}";
    assert ref[6..|ref| - 1] == name;
    if IsEnvRef(s) && RefName(s) == name {
      assert s[..6] == "{$env.";
      assert s == s[..6] + s[6..|s| - 1] + [s[|s| - 1]];
    }
  }

  /** What makes a name. */
  lemma NameGrammar(name: string)
    ensures IsName(name)
       <==> && 1 <= |name| && !('0' <= name[0] <= '9')
            && forall i :: 0 <= i < |name| ==>
                 'A' <= name[i] <= 'Z' || 'a' <= name[i] <= 'z' || '0' <= name[i] <= '9' || name[i] == '_'
  {
  }

  // ----- Registration -----

  /** A mask from a read API, or `{$env.` without a reference. */
  function ComplaintsAbout(leaf: Leaf): seq<Issue> {
    if leaf.text == "****" || leaf.text == "***" then [Issue(leaf.path, leaf.text, MaskedValue)]
    else if |leaf.text| < 6 || leaf.text[..6] != "{$env." || IsEnvRef(leaf.text) then []
    else [Issue(leaf.path, leaf.text, MalformedRef)]
  }

  function AllComplaints(leaves: seq<Leaf>): seq<Issue> {
    if leaves == [] then [] else ComplaintsAbout(leaves[0]) + AllComplaints(leaves[1..])
  }

  lemma {:induction false} ComplaintsConcat(a: seq<Leaf>, b: seq<Leaf>)
    ensures AllComplaints(a + b) == AllComplaints(a) + AllComplaints(b)
    decreases |a|
  {
    if a == [] {
      assert a + b == b;
    } else {
      assert (a + b)[1..] == a[1..] + b;
      ComplaintsConcat(a[1..], b);
      hide ComplaintsAbout;
    }
  }

  lemma StringComplaints(s: string, path: seq<string>)
    ensures StringIssues(s, path) == AllComplaints([Leaf(path, s)])
  {
    var leaf := Leaf(path, s);
    assert AllComplaints([leaf]) == ComplaintsAbout(leaf) + AllComplaints([]);
    if 6 <= |s| {
      assert s[..6] == "{$env." <==> HasPrefix(s);
    }
  }

  /** Registration reports the complaints about all strings in document order, each with its path. */
  lemma {:induction false} IssuesAreOfTheStrings(value: Value, path: seq<string>)
    ensures CollectIssues(value, path) == AllComplaints(Leaves(value, path))
    decreases value, 1
  {
    hide StringIssues, ComplaintsAbout;
    match value
    case Str(text) => StringComplaints(text, path);
    case Arr(slots) => IssuesOfSlots(slots, 0, path);
    case Obj(entries) => IssuesOfEntries(entries, path);
    case _ =>
  }

  lemma {:induction false} IssuesOfSlots(slots: seq<Value>, index: nat, path: seq<string>)
    ensures SlotIssues(slots, index, path) == AllComplaints(LeavesOfSlots(slots, index, path))
    decreases slots, 0
  {
    if slots != [] {
      var here := path + [Numeral(index)];
      IssuesAreOfTheStrings(slots[0], here);
      IssuesOfSlots(slots[1..], index + 1, path);
      ComplaintsConcat(Leaves(slots[0], here), LeavesOfSlots(slots[1..], index + 1, path));
      hide AllComplaints;
    }
  }

  lemma {:induction false} IssuesOfEntries(entries: seq<Entry>, path: seq<string>)
    ensures EntryIssues(entries, path) == AllComplaints(LeavesOfEntries(entries, path))
    decreases entries, 0
  {
    if entries != [] {
      var here := path + [entries[0].key];
      IssuesAreOfTheStrings(entries[0].value, here);
      IssuesOfEntries(entries[1..], path);
      ComplaintsConcat(Leaves(entries[0].value, here), LeavesOfEntries(entries[1..], path));
      hide AllComplaints;
    }
  }

  // ----- The first unset variable -----

  predicate LacksVariable(leaf: Leaf, env: map<string, string>) {
    IsEnvRef(leaf.text) && RefName(leaf.text) !in env
  }

  /** The position of the first string that lacks its variable, |leaves| if none does. */
  function FirstLacking(leaves: seq<Leaf>, env: map<string, string>): (k: nat)
    ensures k <= |leaves|
    ensures forall j :: 0 <= j < k ==> !LacksVariable(leaves[j], env)
    ensures k < |leaves| ==> LacksVariable(leaves[k], env)
  {
    if leaves == [] || LacksVariable(leaves[0], env) then 0 else 1 + FirstLacking(leaves[1..], env)
  }

  lemma {:induction false} LackingConcat(a: seq<Leaf>, b: seq<Leaf>, env: map<string, string>)
    ensures FirstLacking(a + b, env)
         == if FirstLacking(a, env) < |a| then FirstLacking(a, env) else |a| + FirstLacking(b, env)
    decreases |a|
  {
    if a == [] {
      assert a + b == b;
    } else {
      assert (a + b)[1..] == a[1..] + b;
      LackingConcat(a[1..], b, env);
      hide LacksVariable;
    }
  }

  function UnsetAt(leaves: seq<Leaf>, env: map<string, string>): Option<Unset> {
    var k := FirstLacking(leaves, env);
    if k == |leaves| then None else Some(Unset(RefName(leaves[k].text), leaves[k].path))
  }

  lemma UnsetConcat(a: seq<Leaf>, b: seq<Leaf>, env: map<string, string>)
    ensures UnsetAt(a + b, env) == if UnsetAt(a, env).Some? then UnsetAt(a, env) else UnsetAt(b, env)
  {
    LackingConcat(a, b, env);
    hide LacksVariable;
  }

  /** Resolving stops at the first string in document order whose variable is not set, and names both. */
  lemma {:induction false} FirstUnsetIsFirstString(value: Value, env: map<string, string>, path: seq<string>)
    ensures FirstUnset(value, env, path) == UnsetAt(Leaves(value, path), env)
    decreases value, 1
  {
    match value
    case Str(_) =>
    case Arr(slots) => FirstUnsetOfSlots(slots, 0, env, path);
    case Obj(entries) => FirstUnsetOfEntries(entries, env, path);
    case _ =>
  }

  lemma {:induction false} FirstUnsetOfSlots(
    slots: seq<Value>, index: nat, env: map<string, string>, path: seq<string>)
    ensures FirstUnsetSlot(slots, index, env, path) == UnsetAt(LeavesOfSlots(slots, index, path), env)
    decreases slots, 0
  {
    if slots != [] {
      var here := path + [Numeral(index)];
      FirstUnsetIsFirstString(slots[0], env, here);
      FirstUnsetOfSlots(slots[1..], index + 1, env, path);
      UnsetConcat(Leaves(slots[0], here), LeavesOfSlots(slots[1..], index + 1, path), env);
      hide UnsetAt;
    }
  }

  lemma {:induction false} FirstUnsetOfEntries(entries: seq<Entry>, env: map<string, string>, path: seq<string>)
    ensures FirstUnsetEntry(entries, env, path) == UnsetAt(LeavesOfEntries(entries, path), env)
    decreases entries, 0
  {
    if entries != [] {
      var here := path + [entries[0].key];
      FirstUnsetIsFirstString(entries[0].value, env, here);
      FirstUnsetOfEntries(entries[1..], env, path);
      UnsetConcat(Leaves(entries[0].value, here), LeavesOfEntries(entries[1..], path), env);
      hide UnsetAt;
    }
  }

  // ----- The values taken -----

  /** The values of the references among the strings up to the first that lacks its variable. */
  function Taken(leaves: seq<Leaf>, env: map<string, string>): set<string> {
    set k | 0 <= k < FirstLacking(leaves, env) && IsEnvRef(leaves[k].text) && env[RefName(leaves[k].text)] != ""
        :: env[RefName(leaves[k].text)]
  }

  lemma TakenConcat(a: seq<Leaf>, b: seq<Leaf>, env: map<string, string>)
    ensures Taken(a + b, env) == Taken(a, env) + (if UnsetAt(a, env).None? then Taken(b, env) else {})
  {
    LackingConcat(a, b, env);
    var ab, n := a + b, FirstLacking(a + b, env);
    assert forall k :: 0 <= k < |a| ==> ab[k] == a[k];
    assert forall k :: 0 <= k < |b| ==> ab[|a| + k] == b[k];
    forall v | v in Taken(a, env) + (if UnsetAt(a, env).None? then Taken(b, env) else {})
      ensures v in Taken(ab, env)
    {
      if v in Taken(a, env) {
        var k :| 0 <= k < FirstLacking(a, env) && IsEnvRef(a[k].text) && env[RefName(a[k].text)] == v && v != "";
        assert IsEnvRef(ab[k].text) && env[RefName(ab[k].text)] == v;
      } else {
        var k :| 0 <= k < FirstLacking(b, env) && IsEnvRef(b[k].text) && env[RefName(b[k].text)] == v && v != "";
        assert IsEnvRef(ab[|a| + k].text) && env[RefName(ab[|a| + k].text)] == v;
      }
    }
    forall v | v in Taken(ab, env)
      ensures v in Taken(a, env) + (if UnsetAt(a, env).None? then Taken(b, env) else {})
    {
      var k :| 0 <= k < n && IsEnvRef(ab[k].text) && env[RefName(ab[k].text)] == v && v != "";
      if |a| <= k {
        assert ab[k] == b[k - |a|];
      }
    }
  }

  lemma SetExactlyWhenNoneLacks(value: Value, env: map<string, string>, path: seq<string>)
    ensures IsSet(value, env) <==> UnsetAt(Leaves(value, path), env).None?
  {
    UnsetExactlyWhenFound(value, env, path);
    FirstUnsetIsFirstString(value, env, path);
  }

  /** The secrets are the non-empty values of the references up to the first unset one. */
  lemma {:induction false} SecretsAreTaken(value: Value, env: map<string, string>, path: seq<string>)
    ensures SecretsIn(value, env) == Taken(Leaves(value, path), env)
    decreases value, 1
  {
    match value
    case Str(text) =>
      var leaves := [Leaf(path, text)];
      assert leaves[0].text == text;
    case Arr(slots) => SecretsOfSlots(slots, 0, env, path);
    case Obj(entries) => SecretsOfEntries(entries, env, path);
    case _ =>
  }

  lemma {:induction false} SecretsOfSlots(
    slots: seq<Value>, index: nat, env: map<string, string>, path: seq<string>)
    ensures SecretsInSlots(slots, env) == Taken(LeavesOfSlots(slots, index, path), env)
    decreases slots, 0
  {
    if slots != [] {
      var here := path + [Numeral(index)];
      SecretsAreTaken(slots[0], env, here);
      SecretsOfSlots(slots[1..], index + 1, env, path);
      SetExactlyWhenNoneLacks(slots[0], env, here);
      TakenConcat(Leaves(slots[0], here), LeavesOfSlots(slots[1..], index + 1, path), env);
      hide Taken, UnsetAt, IsSet;
    }
  }

  lemma {:induction false} SecretsOfEntries(entries: seq<Entry>, env: map<string, string>, path: seq<string>)
    ensures SecretsInEntries(entries, env) == Taken(LeavesOfEntries(entries, path), env)
    decreases entries, 0
  {
    if entries != [] {
      var here := path + [entries[0].key];
      SecretsAreTaken(entries[0].value, env, here);
      SecretsOfEntries(entries[1..], env, path);
      SetExactlyWhenNoneLacks(entries[0].value, env, here);
      TakenConcat(Leaves(entries[0].value, here), LeavesOfEntries(entries[1..], path), env);
      hide Taken, UnsetAt, IsSet;
    }
  }

  // ----- What replaces a reference -----

  /** Replacing keeps every shape, key and other string; a resolved reference is its variable's value. */
  lemma ReplacedInPlace(value: Value, env: map<string, string>)
    ensures var r := ReplaceRefs(value, EnvValue(env));
            match value
            case Str(text) =>
              && (!IsEnvRef(text) ==> r == value)
              && forall name :: IsName(name) && text == "{$env." + name + "}" && name in env ==> r == Str(env[name])
            case Arr(slots) =>
              && r.Arr? && |r.slots| == |slots|
              && forall i :: 0 <= i < |slots| ==> r.slots[i] == ReplaceRefs(slots[i], EnvValue(env))
            case Obj(entries) =>
              && r.Obj? && |r.entries| == |entries|
              && forall i :: 0 <= i < |entries| ==>
                   r.entries[i] == Entry(entries[i].key, ReplaceRefs(entries[i].value, EnvValue(env)))
            case _ => r == value
  {
    match value
    case Str(text) =>
      forall name | IsName(name) && text == "{$env." + name + "}" && name in env
        ensures ReplaceRefs(value, EnvValue(env)) == Str(env[name])
      {
        ReferenceGrammar(text, name);
      }
    case Arr(slots) => ReplacedSlots(slots, EnvValue(env));
    case Obj(entries) => ReplacedEntries(entries, EnvValue(env));
    case _ =>
  }

  lemma {:induction false} ReplacedSlots(slots: seq<Value>, f: string -> string)
    ensures var r := ReplaceInSlots(slots, f);
            |r| == |slots| && forall i :: 0 <= i < |slots| ==> r[i] == ReplaceRefs(slots[i], f)
    decreases |slots|
  {
    if slots != [] {
      ReplacedSlots(slots[1..], f);
      hide ReplaceRefs;
    }
  }

  lemma {:induction false} ReplacedEntries(entries: seq<Entry>, f: string -> string)
    ensures var r := ReplaceInEntries(entries, f);
            |r| == |entries|
            && forall i :: 0 <= i < |entries| ==> r[i] == Entry(entries[i].key, ReplaceRefs(entries[i].value, f))
    decreases |entries|
  {
    if entries != [] {
      ReplacedEntries(entries[1..], f);
      hide ReplaceRefs;
    }
  }
}
