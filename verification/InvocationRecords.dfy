/**
 What an invocation promises about its record (runtime-executor.ts): when there is exactly one, what it
 says about how the invocation ended, and which of its fields a sensitive input can still be found in.
 */
module InvocationRecords {
  import opened Prelude
  import opened Text
  import opened Json
  import opened Components
  import opened Redaction
  import opened Invocation
  import Resilience

  // ----- Exactly one record -----

  /** All secrets collected by the time the invocation ends. */
  function FinalSecrets(sc: Scenario, c: Component): seq<string> {
    var t := TryBlock(sc, c);
    if t.end.Throws? then Disclosed(sc.sanitizer, t.frame, AsAppError(t.end.error)).secrets else t.frame.secrets
  }

  predicate NeverSettles(sc: Scenario, c: Component) {
    TryBlock(sc, c).end.Hangs?
  }

  /**
   A component was found: one record is written if and only if the invocation settles and every secret
   it collected is well-formed. Otherwise none is, and an exception other than the primary error escapes.
   */
  lemma RecordedExactlyWhenScrubbable(sc: Scenario, c: Component)
    requires sc.lookup == Found(c)
    ensures |Invoked(sc).records| == if !NeverSettles(sc, c) && CanScrub(FinalSecrets(sc, c)) then 1 else 0
    ensures Invoked(sc).ending.Escaped? <==> !NeverSettles(sc, c) && !CanScrub(FinalSecrets(sc, c))
    ensures Invoked(sc).ending.Pending? <==> NeverSettles(sc, c)
  {
  }

  /** No component, no record. */
  lemma NothingFoundNothingRecorded(sc: Scenario)
    requires !sc.lookup.Found?
    ensures Invoked(sc).records == [] && (Invoked(sc).ending.NotFound? || Invoked(sc).ending.LookupFailed?)
  {
  }

  /** With a timeout or a budget every invocation settles. */
  lemma LimitedInvocationSettles(sc: Scenario, c: Component)
    requires 0 < c.policy.requestTimeout || c.policy.maxElapsedTime.Some?
    ensures !NeverSettles(sc, c)
  {
    Resilience.WorstCaseElapsed(c.handler, c.policy);
  }

  /** Secrets are only ever added. */
  lemma InputSecretsStay(sc: Scenario, c: Component, secret: string)
    requires secret in Collect(sc.context, false, sc.sanitizer.isSensitive, sc.sanitizer.enc)
    ensures secret in TryBlock(sc, c).frame.secrets && secret in FinalSecrets(sc, c)
  {
    assert secret in PreparedOf(sc, c).secrets;
    assert secret in ExecutedOf(sc, c).secrets;
  }

  /** One sensitive input that is not well-formed is enough, wherever the invocation would have got. */
  lemma IllFormedSecretEscapes(sc: Scenario, c: Component, secret: string)
    requires sc.lookup == Found(c) && !NeverSettles(sc, c)
    requires secret in Collect(sc.context, false, sc.sanitizer.isSensitive, sc.sanitizer.enc) && !IsWellFormed(secret)
    ensures Invoked(sc) == Outcomes(Escaped, [])
  {
    InputSecretsStay(sc, c, secret);
    RecordedExactlyWhenScrubbable(sc, c);
  }

  /** The input { "password": "\ud800abcdef" }: nothing is recorded, and the primary error is lost. */
  lemma LoneSurrogateEscapes(sc: Scenario, c: Component)
    requires sc.lookup == Found(c) && !NeverSettles(sc, c) && sc.sanitizer.isSensitive("password")
    requires sc.context == Obj([Entry("password", Str("\U{10D800}abcdef"))])
    ensures Invoked(sc) == Outcomes(Escaped, [])
  {
    var secret := "\U{10D800}abcdef";
    assert IsHighSurrogate(secret[0]) && !IsLowSurrogate(secret[1]);
    assert HasScalar(sc.context, Str(secret), true, sc.sanitizer.isSensitive) by {
      assert HasScalar(sc.context.entries[0].value, Str(secret), false, sc.sanitizer.isSensitive);
    }
    SensitiveIsCollected(sc.context, Str(secret), false, sc.sanitizer.isSensitive, sc.sanitizer.enc);
    IllFormedSecretEscapes(sc, c, secret);
  }

  // ----- What the record says -----

  predicate ReturnsNormally(ending: Ending) {
    ending.Returned? || ending.Skipped?
  }

  /** invoke returns if and only if a COMPLETED record was written, and a FAILED one means it threw that error. */
  lemma CompletedExactlyWhenReturned(sc: Scenario)
    ensures ReturnsNormally(Invoked(sc).ending) <==> exists r :: r in Invoked(sc).records && r.status == COMPLETED
    ensures Invoked(sc).ending.Rejected? <==> exists r :: r in Invoked(sc).records && r.status == FAILED
    ensures forall r :: r in Invoked(sc).records ==>
              && r.error == (if Invoked(sc).ending.Rejected? then Some(Invoked(sc).ending.error) else None)
              && (Invoked(sc).ending.Returned? ==> r.result == Invoked(sc).ending.data)
  {
    var records := Invoked(sc).records;
    assert records != [] ==> records[0] in records;
  }

  /** The error whose code a rejection owes its caller. */
  function PrimaryError(sc: Scenario, c: Component): (e: Error)
    requires TryBlock(sc, c).end.Throws?
    ensures e.AppError?
  {
    AsAppError(TryBlock(sc, c).end.error)
  }

  /**
   Whatever rules, mapping and default do in the catch block, the code of the error that was thrown is
   rethrown, recorded, and found in the recorded result.
   */
  lemma PrimaryCodeSurvives(sc: Scenario, c: Component)
    requires sc.lookup == Found(c) && TryBlock(sc, c).end.Throws? && CanScrub(FinalSecrets(sc, c))
    ensures var Outcomes(ending, records) := Invoked(sc);
            && ending.Rejected? && ending.error.code == PrimaryError(sc, c).code
            && |records| == 1 && records[0].error == Some(ending.error)
            && ErrorIn(records[0].result).Some? && ErrorIn(records[0].result).value.Obj?
            && EntryOf(ErrorIn(records[0].result).value.entries, "code") == Some(Str(CodeText(ending.error.code)))
  {
    var t, error := TryBlock(sc, c), PrimaryError(sc, c);
    var f := Disclosed(sc.sanitizer, t.frame, error);
    var standard := StandardError(sc.sanitizer, f.secrets, error);
    InjectedErrorIsFound(
      Cleaned(sc.sanitizer, f.secrets, FailureOutput(t.config, f.output, t.started)), standard, "error");
    assert standard.entries[0] == Entry("code", Str(CodeText(error.code)));
  }

  /** The scenario with another configuration of the output. */
  function WithOutputs(sc: Scenario, c: Component, stored: OutputConfig, resolved: OutputConfig): Scenario {
    sc.(lookup := Found(c.(stored := stored, resolved := resolved)))
  }

  /** Once an execution has failed, no rule, mapping or default can change the error. */
  lemma FailureMappingKeepsError(sc: Scenario, c: Component, stored: OutputConfig, resolved: OutputConfig)
    requires sc.lookup == Found(c) && TryBlock(sc, c).end.Throws? && !TryBlock(sc, c).started
    ensures Invoked(WithOutputs(sc, c, stored, resolved)).ending == Invoked(sc).ending
  {
    var changed := WithOutputs(sc, c, stored, resolved);
    var d := changed.lookup.component;
    assert EarlyError(d) == EarlyError(c);
    assert TryBlock(changed, d).end == TryBlock(sc, c).end;
    assert TryBlock(changed, d).frame == TryBlock(sc, c).frame;
  }

  /** What the handler answered, if it got that far. */
  function Answer(sc: Scenario, c: Component): Option<Value> {
    if c.condition.DoesNotHold? || EarlyError(c).Some? || c.unresolved.Some? then None
    else
      var race := Resilience.RaceAt(c.handler, c.policy, Resilience.Attempts(c.handler, c.policy) - 1);
      if race.Settles? && race.outcome.Data? then Some(race.outcome.data) else None
  }

  /** A rejected rule is reported whatever the mapping would do. */
  lemma RuleErrorBeatsMapping(sc: Scenario, c: Component, transform: Value -> Option<Value>)
    requires sc.lookup == Found(c) && Answer(sc, c).Some?
    requires !AllRulesPass(c.resolved.rules, Answer(sc, c).value)
    ensures Invoked(WithOutputs(sc, c, c.stored, c.resolved.(transform := transform))).ending == Invoked(sc).ending
  {
    NoRuleError(c.resolved.rules, Answer(sc, c).value);
    var changed := WithOutputs(sc, c, c.stored, c.resolved.(transform := transform));
    var d := changed.lookup.component;
    assert EarlyError(d) == EarlyError(c);
    assert TryBlock(changed, d).end == TryBlock(sc, c).end;
    assert TryBlock(changed, d).frame == TryBlock(sc, c).frame;
  }

  /** invoke returns data exactly when the handler answered, the rules passed, and mapping and scrubbing worked. */
  lemma ReturnsExactlyWhenNothingFails(sc: Scenario, c: Component)
    requires sc.lookup == Found(c)
    ensures Invoked(sc).ending.Returned? <==>
              && Answer(sc, c).Some?
              && AllRulesPass(c.resolved.rules, Answer(sc, c).value)
              && c.resolved.transform(AfterRules(c.resolved, Answer(sc, c).value)).Some?
              && CanScrub(FinalSecrets(sc, c))
  {
    if Answer(sc, c).Some? {
      NoRuleError(c.resolved.rules, Answer(sc, c).value);
    }
  }

  /** The output the response rules see: the answer, or in the catch block a downstream body or null. */
  function SeenOutput(sc: Scenario, c: Component): Value {
    if Answer(sc, c).Some? then Answer(sc, c).value
    else if TryBlock(sc, c).end.Throws? then Disclosed(sc.sanitizer, TryBlock(sc, c).frame, PrimaryError(sc, c)).output
    else Null
  }

  function WithDefaults(sc: Scenario, c: Component, stored: Option<Value>, resolved: Option<Value>): Scenario {
    WithOutputs(sc, c, c.stored.(default := stored), c.resolved.(default := resolved))
  }

  /** A configured default has no effect unless every response rule passed on an empty output. */
  lemma DefaultNeedsPassingRules(sc: Scenario, c: Component, stored: Option<Value>, resolved: Option<Value>)
    requires sc.lookup == Found(c)
    requires !IsEmpty(SeenOutput(sc, c)) || !AllRulesPass(TryBlock(sc, c).config.rules, SeenOutput(sc, c))
    ensures Invoked(WithDefaults(sc, c, stored, resolved)) == Invoked(sc)
  {
    var changed := WithDefaults(sc, c, stored, resolved);
    var t, u := TryBlock(sc, c), TryBlock(changed, changed.lookup.component);
    SameTryBlock(sc, c, stored, resolved);
    if t.end.Throws? && !t.started {
      SameFailureOutput(t.config, u.config, SeenOutput(sc, c));
    }
    hide TryBlock, Cleaned, StandardError, SafeErrorOf, InjectStandardError, Collect, CanScrub, FailureOutput;
  }

  lemma SameTryBlock(sc: Scenario, c: Component, stored: Option<Value>, resolved: Option<Value>)
    requires sc.lookup == Found(c)
    requires !IsEmpty(SeenOutput(sc, c)) || !AllRulesPass(TryBlock(sc, c).config.rules, SeenOutput(sc, c))
    ensures var d := WithDefaults(sc, c, stored, resolved).lookup.component;
            var t, u := TryBlock(sc, c), TryBlock(WithDefaults(sc, c, stored, resolved), d);
            && u.end == t.end && u.frame == t.frame && u.started == t.started
            && u.config.rules == t.config.rules && u.config.transform == t.config.transform
  {
    hide Collect, Redact;
    var d := WithDefaults(sc, c, stored, resolved).lookup.component;
    assert EarlyError(d) == EarlyError(c);
  }

  lemma SameFailureOutput(a: OutputConfig, b: OutputConfig, output: Value)
    requires a.rules == b.rules && a.transform == b.transform
    requires !IsEmpty(output) || !AllRulesPass(a.rules, output)
    ensures FailureOutput(a, output, false) == FailureOutput(b, output, false)
  {
  }

  // ----- Before the handler -----

  /** Nothing stands between the component and its execution. */
  predicate MayExecute(c: Component) {
    && (c.condition.NoCondition? || c.condition.Holds?)
    && c.unknownType.None? && c.notExecutable.None? && c.invalidInput.None? && c.unresolved.None?
  }

  /** The errors that keep a component from being executed, in the order they are thrown. */
  function Obstacles(c: Component): seq<Error> {
    (if c.condition.MalformedCondition? then [TransformationError("Stored condition is malformed")] else [])
    + (if c.unknownType.Some? then [c.unknownType.value] else [])
    + (if c.notExecutable.Some? then [c.notExecutable.value] else [])
    + (if c.invalidInput.Some? then [c.invalidInput.value] else [])
    + (if c.unresolved.Some? then [c.unresolved.value] else [])
  }

  /** The handler is called if and only if nothing stands in the way, and then at most retryCount + 1 times. */
  lemma HandlerCalledExactlyWhen(sc: Scenario, c: Component)
    requires sc.lookup == Found(c)
    ensures 1 <= CallsOf(sc) <==> MayExecute(c)
    ensures CallsOf(sc) <= c.policy.retryCount + 1
  {
    Resilience.AttemptsMeaning(c.handler, c.policy);
  }

  /** A failed condition skips the component, whatever else is wrong with it. */
  lemma FailedConditionSkips(sc: Scenario, c: Component)
    requires sc.lookup == Found(c) && c.condition.DoesNotHold? && CanScrub(FinalSecrets(sc, c))
    ensures var Outcomes(ending, records) := Invoked(sc);
            && ending.Skipped?
            && |records| == 1 && records[0].status == COMPLETED && records[0].attempts == 0 && records[0].result == Null
  {
  }

  /** Otherwise the first obstacle is what the caller gets, and the handler is never called. */
  lemma FirstObstacleRejects(sc: Scenario, c: Component)
    requires sc.lookup == Found(c) && !c.condition.DoesNotHold? && !MayExecute(c) && CanScrub(FinalSecrets(sc, c))
    ensures Obstacles(c) != []
    ensures var Outcomes(ending, records) := Invoked(sc);
            && ending.Rejected? && ending.error.code == AsAppError(Obstacles(c)[0]).code
            && |records| == 1 && records[0].status == FAILED && records[0].attempts == 0
  {
    PrimaryCodeSurvives(sc, c);
  }

  // ----- Sensitive inputs and the record -----

  /** The secret is a sensitive scalar of the input that scrubbing is complete for. */
  predicate IsScrubbedSecret(sc: Scenario, secret: string) {
    && secret in Collect(sc.context, false, sc.sanitizer.isSensitive, sc.sanitizer.enc)
    && IsLong(secret) && Robust(secret)
  }

  /** The secret is known to the scrubber. */
  predicate Knows(secrets: seq<string>, secret: string) {
    secret in secrets && CanScrub(secrets) && IsLong(secret) && Robust(secret)
  }

  ghost predicate CleanRequest(request: Option<Summary>, secret: string) {
    request.Some? ==> !Occurs(secret, request.value.uri) && Clean(request.value.body, secret)
  }

  /** The secret is in no text of the record; its numbers and the names of its fields are not texts. */
  ghost predicate CleanRecord(r: Record, secret: string) {
    && !Occurs(secret, StatusText(r.status)) && !Occurs(secret, LogStatusText(r.logStatus))
    && !Occurs(secret, r.startedAt) && !Occurs(secret, r.completedAt)
    && !Occurs(secret, r.executionId) && !Occurs(secret, r.service)
    && !Occurs(secret, r.action) && !Occurs(secret, r.componentType)
    && Clean(r.context, secret) && Clean(r.result, secret) && Clean(r.response, secret)
    && CleanRequest(r.request, secret) && (r.request.Some? ==> !Occurs(secret, r.request.value.verb))
    && (r.error.Some? ==> CleanError(r.error.value, secret))
  }

  ghost predicate CleanError(e: SafeError, secret: string) {
    && !Occurs(secret, CodeText(e.code)) && !Occurs(secret, e.message)
    && (e.details.Some? ==> Clean(e.details.value, secret))
  }

  lemma CleanedIsClean(san: Sanitizer, secrets: seq<string>, value: Value, secret: string)
    requires Knows(secrets, secret)
    ensures Clean(Cleaned(san, secrets, value), secret)
  {
    ScrubIsComplete(Redact(value, san.isSensitive), secrets, san.enc, secret);
  }

  lemma CleanedTextIsClean(san: Sanitizer, secrets: seq<string>, text: string, secret: string)
    requires Knows(secrets, secret)
    ensures !Occurs(secret, CleanedText(san, secrets, text))
  {
    SecretIsVariant(secrets, san.enc, secret);
    ScrubbedStringHasNoSecret(Variants(secrets, san.enc), text, secret);
  }

  lemma CleanedRequestIsClean(san: Sanitizer, secrets: seq<string>, request: Option<Summary>, secret: string)
    requires Knows(secrets, secret)
    ensures CleanRequest(CleanedRequest(san, secrets, request), secret)
  {
    if request.Some? {
      CleanedTextIsClean(san, secrets, request.value.uri, secret);
      CleanedIsClean(san, secrets, request.value.body, secret);
    }
  }

  // ----- What is recorded as it is -----

  /** The keys of entries without their values. */
  function KeysOnly(entries: seq<Entry>): seq<Entry> {
    if entries == [] then [] else [Entry(entries[0].key, Null)] + KeysOnly(entries[1..])
  }

  /** The sanitized details with everything that is scrubbed left out. */
  function RawDetails(code: Code, details: Details): Value {
    var value := DetailsValue(details);
    if details.NoDetails? then Null
    else if KeepsDetails(code) then value
    else if code.External? && details.Downstream? then Obj([Entry("downstream", DownstreamValue(details.status, Null))])
    else if code.ValidationFailed? && value.Obj? then Obj(KeysOnly(value.entries))
    else Null
  }

  const RAW_RULE := Arr([Obj([Entry("rule", Null), Entry("message", Null), Entry("path", Null)])])

  /** The standard error with everything that is scrubbed left out. */
  function RawStandardError(error: Error): Value
    requires error.AppError?
  {
    Obj([Entry("code", Str(CodeText(error.code))), Entry("message", Null)]
        + RawRuleEntries(error) + RawDownstreamEntries(error))
  }

  function RawRuleEntries(error: Error): seq<Entry>
    requires error.AppError?
  {
    if error.rule.None? then [] else [Entry("details", RAW_RULE)]
  }

  function RawDownstreamEntries(error: Error): seq<Entry>
    requires error.AppError?
  {
    if !error.code.External? || !error.details.Downstream? then []
    else [Entry("downstream", DownstreamValue(error.details.status, Null))]
  }

  lemma ConsIsClean(head: Entry, tail: seq<Entry>, secret: string)
    ensures CleanEntries([head] + tail, secret)
       <==> !Occurs(secret, head.key) && Clean(head.value, secret) && CleanEntries(tail, secret)
  {
    var whole := [head] + tail;
    assert whole[0] == head;
    assert forall i :: 0 <= i < |tail| ==> tail[i] == whole[i + 1];
    assert forall i :: 1 <= i < |whole| ==> whole[i] == tail[i - 1];
  }

  lemma {:induction false} CleanedEntriesAreClean(
    san: Sanitizer, secrets: seq<string>, entries: seq<Entry>, secret: string)
    requires Knows(secrets, secret)
    ensures CleanEntries(CleanedEntries(san, secrets, entries), secret) <==> CleanEntries(KeysOnly(entries), secret)
    decreases |entries|
  {
    if entries != [] {
      CleanedEntriesAreClean(san, secrets, entries[1..], secret);
      CleanedIsClean(san, secrets, entries[0].value, secret);
      ConsIsClean(
        Entry(entries[0].key, Cleaned(san, secrets, entries[0].value)),
        CleanedEntries(san, secrets, entries[1..]), secret);
      ConsIsClean(Entry(entries[0].key, Null), KeysOnly(entries[1..]), secret);
    }
  }

  lemma TwoEntries(a: Entry, b: Entry, secret: string)
    ensures CleanEntries([a, b], secret)
       <==> !Occurs(secret, a.key) && Clean(a.value, secret) && !Occurs(secret, b.key) && Clean(b.value, secret)
  {
    assert [a, b] == [a] + [b] && [b] == [b] + [];
    ConsIsClean(a, [b], secret);
    ConsIsClean(b, [], secret);
  }

  lemma OneEntry(key: string, value: Value, secret: string)
    ensures Clean(Obj([Entry(key, value)]), secret) <==> !Occurs(secret, key) && Clean(value, secret)
  {
    ConsIsClean(Entry(key, value), [], secret);
    assert [Entry(key, value)] + [] == [Entry(key, value)];
  }

  lemma DownstreamIsClean(status: Option<int>, body: Value, secret: string)
    requires Clean(body, secret)
    ensures Clean(DownstreamValue(status, body), secret) <==> Clean(DownstreamValue(status, Null), secret)
  {
    TwoEntries(Entry("status", StatusValue(status)), Entry("body", body), secret);
    TwoEntries(Entry("status", StatusValue(status)), Entry("body", Null), secret);
  }

  lemma DetailsAreClean(san: Sanitizer, secrets: seq<string>, code: Code, details: Details, secret: string)
    requires Knows(secrets, secret) && SafeDetails(san, secrets, code, details).Some?
    ensures Clean(SafeDetails(san, secrets, code, details).value, secret) <==> Clean(RawDetails(code, details), secret)
  {
    var value := DetailsValue(details);
    if KeepsDetails(code) {
    } else if code.External? && details.Downstream? {
      var body := Cleaned(san, secrets, Truncated(san, OrUndefined(details.body)));
      CleanedIsClean(san, secrets, Truncated(san, OrUndefined(details.body)), secret);
      DownstreamIsClean(details.status, body, secret);
      OneEntry("downstream", DownstreamValue(details.status, body), secret);
      OneEntry("downstream", DownstreamValue(details.status, Null), secret);
    } else if code.ValidationFailed? && value.Obj? {
      CleanedEntriesAreClean(san, secrets, value.entries, secret);
    } else {
      CleanedIsClean(san, secrets, value, secret);
    }
  }

  lemma ConcatIsClean(a: seq<Entry>, b: seq<Entry>, secret: string)
    ensures CleanEntries(a + b, secret) <==> CleanEntries(a, secret) && CleanEntries(b, secret)
  {
    var ab := a + b;
    assert forall i :: 0 <= i < |a| ==> ab[i] == a[i];
    assert forall i :: 0 <= i < |b| ==> b[i] == ab[|a| + i];
    assert forall i :: |a| <= i < |ab| ==> ab[i] == b[i - |a|];
  }

  lemma OneSlot(value: Value, secret: string)
    ensures Clean(Arr([value]), secret) <==> Clean(value, secret)
  {
    assert [value][0] == value;
  }

  lemma RuleDetailsAreClean(san: Sanitizer, secrets: seq<string>, rule: RuleFailure, message: string, secret: string)
    requires Knows(secrets, secret)
    ensures Clean(RuleDetails(san, secrets, rule, message), secret) <==> Clean(RAW_RULE, secret)
  {
    CleanedTextIsClean(san, secrets, rule.expression, secret);
    CleanedTextIsClean(san, secrets, message, secret);
    CleanedTextIsClean(san, secrets, rule.path, secret);
    ThreeAlike(
      "rule", Str(CleanedText(san, secrets, rule.expression)),
      "message", Str(CleanedText(san, secrets, message)),
      "path", Str(CleanedText(san, secrets, rule.path)), secret);
    OneSlot(RuleDetails(san, secrets, rule, message).slots[0], secret);
    OneSlot(RAW_RULE.slots[0], secret);
  }

  /** Clean values under the same keys clean alike. */
  lemma ThreeAlike(k1: string, v1: Value, k2: string, v2: Value, k3: string, v3: Value, secret: string)
    requires Clean(v1, secret) && Clean(v2, secret) && Clean(v3, secret)
    ensures Clean(Obj([Entry(k1, v1), Entry(k2, v2), Entry(k3, v3)]), secret)
       <==> Clean(Obj([Entry(k1, Null), Entry(k2, Null), Entry(k3, Null)]), secret)
  {
    var a, b := [Entry(k1, v1), Entry(k2, v2), Entry(k3, v3)], [Entry(k1, Null), Entry(k2, Null), Entry(k3, Null)];
    assert forall i :: 0 <= i < 3 ==> a[i].key == b[i].key && Clean(a[i].value, secret) && Clean(b[i].value, secret);
    assert CleanEntries(a, secret) ==> forall i :: 0 <= i < 3 ==> !Occurs(secret, a[i].key);
    assert CleanEntries(b, secret) ==> forall i :: 0 <= i < 3 ==> !Occurs(secret, b[i].key);
  }

  lemma RuleEntriesAreClean(san: Sanitizer, secrets: seq<string>, error: Error, secret: string)
    requires Knows(secrets, secret) && error.AppError?
    ensures CleanEntries(RuleEntries(san, secrets, error), secret) <==> CleanEntries(RawRuleEntries(error), secret)
  {
    if error.rule.Some? {
      RuleDetailsAreClean(san, secrets, error.rule.value, error.message, secret);
      OneEntry("details", RuleDetails(san, secrets, error.rule.value, error.message), secret);
      OneEntry("details", RAW_RULE, secret);
    }
  }

  lemma DownstreamEntriesAreClean(san: Sanitizer, secrets: seq<string>, error: Error, secret: string)
    requires Knows(secrets, secret) && error.AppError?
    ensures CleanEntries(DownstreamEntries(san, secrets, error), secret)
       <==> CleanEntries(RawDownstreamEntries(error), secret)
  {
    if error.code.External? && error.details.Downstream? {
      var status, body := error.details.status, Cleaned(san, secrets, OrUndefined(error.details.body));
      CleanedIsClean(san, secrets, OrUndefined(error.details.body), secret);
      DownstreamIsClean(status, body, secret);
      OneEntry("downstream", DownstreamValue(status, body), secret);
      OneEntry("downstream", DownstreamValue(status, Null), secret);
    }
  }

  lemma ThreeParts(a: seq<Entry>, b: seq<Entry>, c: seq<Entry>, secret: string)
    ensures Clean(Obj(a + b + c), secret)
        <==> CleanEntries(a, secret) && CleanEntries(b, secret) && CleanEntries(c, secret)
  {
    ConcatIsClean(a, b, secret);
    ConcatIsClean(a + b, c, secret);
  }

  lemma StandardErrorIsClean(san: Sanitizer, secrets: seq<string>, error: Error, secret: string)
    requires Knows(secrets, secret) && error.AppError?
    ensures Clean(StandardError(san, secrets, error), secret) <==> Clean(RawStandardError(error), secret)
  {
    var code := Entry("code", Str(CodeText(error.code)));
    var message := Entry("message", Str(CleanedText(san, secrets, error.message)));
    CleanedTextIsClean(san, secrets, error.message, secret);
    TwoEntries(code, message, secret);
    TwoEntries(code, Entry("message", Null), secret);
    RuleEntriesAreClean(san, secrets, error, secret);
    DownstreamEntriesAreClean(san, secrets, error, secret);
    ThreeParts([code, message], RuleEntries(san, secrets, error), DownstreamEntries(san, secrets, error), secret);
    ThreeParts([code, Entry("message", Null)], RawRuleEntries(error), RawDownstreamEntries(error), secret);
  }

  lemma {:induction false} WithIsClean(entries: seq<Entry>, key: string, value: Value, secret: string)
    requires CleanEntries(entries, secret)
    ensures CleanEntries(With(entries, key, value), secret) <==> !Occurs(secret, key) && Clean(value, secret)
    decreases |entries|
  {
    if entries == [] {
      OneEntry(key, value, secret);
    } else {
      assert entries == [entries[0]] + entries[1..];
      ConsIsClean(entries[0], entries[1..], secret);
      if entries[0].key == key {
        ConsIsClean(Entry(key, value), entries[1..], secret);
      } else {
        WithIsClean(entries[1..], key, value, secret);
        ConsIsClean(entries[0], With(entries[1..], key, value), secret);
      }
    }
  }

  lemma InjectedIsClean(output: Value, error: Value, secret: string)
    requires Clean(output, secret)
    ensures Clean(InjectStandardError(output, error), secret) <==> Clean(Obj([Entry("error", error)]), secret)
  {
    OneEntry("error", error, secret);
    if output.Obj? {
      if IsEnvelope(output) {
        var inner := output.entries[0];
        assert CleanEntries(output.entries, secret);
        assert !Occurs(secret, inner.key) && Clean(inner.value, secret);
        WithIsClean(inner.value.entries, "error", error, secret);
        OneEntry(inner.key, Obj(With(inner.value.entries, "error", error)), secret);
      } else {
        WithIsClean(output.entries, "error", error, secret);
      }
    }
  }

  // ----- Where a sensitive input can still be found -----

  /** How an invocation that is recorded is logged. */
  function LoggedAs(end: TryEnd): LogStatus {
    if end.Throws? then LogFailed else if end.Skips? then LogSkipped else LogSuccess
  }

  /** What a record holds as it is: names, ids, status, times, the request's method, and the frame of an error. */
  ghost predicate RawPartsClean(sc: Scenario, c: Component, secret: string) {
    var t := TryBlock(sc, c);
    && !Occurs(secret, StatusText(StatusOf(LoggedAs(t.end)))) && !Occurs(secret, LogStatusText(LoggedAs(t.end)))
    && !Occurs(secret, sc.startedAt) && !Occurs(secret, sc.completedAt)
    && !Occurs(secret, sc.executionId) && !Occurs(secret, sc.service)
    && !Occurs(secret, sc.action) && !Occurs(secret, c.componentType)
    && (t.frame.request.Some? ==> !Occurs(secret, t.frame.request.value.verb))
    && (t.end.Throws? ==> RawErrorClean(PrimaryError(sc, c), secret))
  }

  ghost predicate RawErrorClean(error: Error, secret: string)
    requires error.AppError?
  {
    && !Occurs(secret, CodeText(error.code))
    && Clean(RawDetails(error.code, error.details), secret)
    && Clean(Obj([Entry("error", RawStandardError(error))]), secret)
  }

  lemma FailedPartsClean(sc: Scenario, secrets: seq<string>, error: Error, output: Value, secret: string)
    requires Knows(secrets, secret) && error.AppError?
    ensures var san := sc.sanitizer;
            (&& Clean(InjectStandardError(Cleaned(san, secrets, output), StandardError(san, secrets, error)), secret)
             && CleanError(SafeErrorOf(san, secrets, error), secret))
            <==> RawErrorClean(error, secret)
  {
    var san := sc.sanitizer;
    CleanedIsClean(san, secrets, output, secret);
    StandardErrorIsClean(san, secrets, error, secret);
    InjectedIsClean(Cleaned(san, secrets, output), StandardError(san, secrets, error), secret);
    OneEntry("error", StandardError(san, secrets, error), secret);
    OneEntry("error", RawStandardError(error), secret);
    CleanedTextIsClean(san, secrets, error.message, secret);
    if SafeDetails(san, secrets, error.code, error.details).Some? {
      DetailsAreClean(san, secrets, error.code, error.details, secret);
    }
  }

  /**
   A sensitive input scrubbing is complete for is in no text of the record if and only if it is not in
   one of the parts that are recorded as they are.
   */
  lemma SecretInRecordExactlyWhenRaw(sc: Scenario, c: Component, r: Record, secret: string)
    requires sc.lookup == Found(c) && r in Invoked(sc).records && IsScrubbedSecret(sc, secret)
    ensures CleanRecord(r, secret) <==> RawPartsClean(sc, c, secret)
  {
    var t := TryBlock(sc, c);
    RecordedExactlyWhenScrubbable(sc, c);
    InputSecretsStay(sc, c, secret);
    if t.end.Throws? {
      var error := PrimaryError(sc, c);
      var f := Disclosed(sc.sanitizer, t.frame, error);
      CleanedIsClean(sc.sanitizer, f.secrets, sc.context, secret);
      CleanedIsClean(sc.sanitizer, f.secrets, f.rawResponse, secret);
      CleanedRequestIsClean(sc.sanitizer, f.secrets, f.request, secret);
      FailedPartsClean(sc, f.secrets, error, FailureOutput(t.config, f.output, t.started), secret);
    } else {
      CleanedIsClean(sc.sanitizer, t.frame.secrets, sc.context, secret);
      CleanedIsClean(sc.sanitizer, t.frame.secrets, t.frame.rawResponse, secret);
      CleanedRequestIsClean(sc.sanitizer, t.frame.secrets, t.frame.request, secret);
      if t.end.Yields? {
        CleanedIsClean(sc.sanitizer, t.frame.secrets, t.end.mapped, secret);
      }
    }
  }

  /** So a password that is also the name of the service is recorded, as that name. */
  lemma PasswordNamedLikeService(sc: Scenario, c: Component, r: Record)
    requires sc.lookup == Found(c) && r in Invoked(sc).records && IsScrubbedSecret(sc, sc.service)
    ensures !CleanRecord(r, sc.service)
  {
    SecretInRecordExactlyWhenRaw(sc, c, r, sc.service);
    assert OccursAt(sc.service, sc.service, 0);
  }

  /** And the password `failed` is in the record of every failure, as its status. */
  lemma PasswordSpelledLikeStatus(sc: Scenario, c: Component, r: Record)
    requires sc.lookup == Found(c) && r in Invoked(sc).records && IsScrubbedSecret(sc, "failed")
    requires TryBlock(sc, c).end.Throws?
    ensures !CleanRecord(r, "failed")
  {
    SecretInRecordExactlyWhenRaw(sc, c, r, "failed");
    assert OccursAt("failed", "failed", 0);
  }
}
