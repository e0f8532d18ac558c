/**
 What an invocation returns and records, field by field (runtime-executor.ts, response-pipeline.ts): from which
 rule, default and mapping its data comes, which secrets were known, and what an error is turned into.
 */
module InvocationRules {
  import opened Prelude
  import opened Json
  import opened Components
  import opened Redaction
  import opened Invocation
  import opened InvocationRecords
  import Resilience

  // ----- The pipeline -----

  /** The first rule that does not pass decides, and a malformed one has an error of its own. */
  lemma {:induction false} FirstRuleDecides(rules: seq<Value -> RuleResult>, output: Value, error: Error)
    ensures RuleError(rules, output) == Some(error) <==>
              exists i :: && 0 <= i < |rules|
                          && (forall j :: 0 <= j < i ==> rules[j](output) == Passes)
                          && (|| rules[i](output) == Fails(error)
                              || (rules[i](output) == MalformedRule
                                  && error == TransformationError("Stored validation expression is malformed")))
    decreases |rules|
  {
    if rules != [] {
      FirstRuleDecides(rules[1..], output, error);
      if rules[0](output) == Passes {
        assert forall j :: 0 < j < |rules| ==> rules[j] == rules[1..][j - 1];
        if RuleError(rules, output) == Some(error) {
          var i :| && 0 <= i < |rules[1..]|
                   && (forall j :: 0 <= j < i ==> rules[1..][j](output) == Passes)
                   && (|| rules[1..][i](output) == Fails(error)
                       || (rules[1..][i](output) == MalformedRule && error == MALFORMED_RULE));
          assert forall j :: 0 <= j < i + 1 ==> rules[j](output) == Passes;
          assert rules[i + 1] == rules[1..][i];
        }
      }
    }
  }

  /** What the mapping is given: the default in place of an empty output that every rule let pass. */
  function MappingInput(config: OutputConfig, output: Value): Value {
    if (forall i :: 0 <= i < |config.rules| ==> config.rules[i](output) == Passes)
       && output in [Null, Undefined, Str("")] && config.default.Some?
    then config.default.value
    else output
  }

  /** The data returned is the mapping of the handler's answer, or of the default, redacted and scrubbed. */
  lemma ReturnedData(sc: Scenario, c: Component)
    requires sc.lookup == Found(c) && Invoked(sc).ending.Returned?
    ensures Answer(sc, c).Some?
    ensures var mapped := c.resolved.transform(MappingInput(c.resolved, Answer(sc, c).value));
            mapped.Some? && Invoked(sc).ending.data == Cleaned(sc.sanitizer, FinalSecrets(sc, c), mapped.value)
  {
    hide Collect, Redact;
    ReturnsExactlyWhenNothingFails(sc, c);
    NoRuleError(c.resolved.rules, Answer(sc, c).value);
  }

  // ----- The record -----

  /** The request recorded: the one answered with, or else the last one reported. */
  function RequestSeen(sc: Scenario, c: Component): Option<Summary> {
    var calls := CallsOf(sc);
    if calls == 0 then None
    else
      var race := Resilience.RaceAt(c.handler, c.policy, calls - 1);
      if race.Settles? && race.outcome.Data? && race.outcome.request.Some? then race.outcome.request
      else Resilience.RequestReported(c.handler, calls)
  }

  /** The downstream body of the error that was thrown. */
  function Disclosure(sc: Scenario, c: Component): Option<Value> {
    if TryBlock(sc, c).end.Throws? && PrimaryError(sc, c).details.Downstream? then PrimaryError(sc, c).details.body
    else None
  }

  /** The response recorded: the body a failure disclosed, or else the answer, or nothing. */
  function ResponseSeen(sc: Scenario, c: Component): Value {
    if Disclosure(sc, c).Some? then Disclosure(sc, c).value
    else if Answer(sc, c).Some? then Answer(sc, c).value
    else Undefined
  }

  /** A record names its execution, and shows input, request and response as they were, cleaned. */
  lemma RecordMeaning(sc: Scenario, c: Component, r: Record)
    requires sc.lookup == Found(c) && r in Invoked(sc).records
    ensures && r.executionId == sc.executionId && r.service == sc.service && r.action == sc.action
            && r.componentType == c.componentType && r.startedAt == sc.startedAt && r.completedAt == sc.completedAt
    ensures r.attempts == CallsOf(sc)
    ensures r.logStatus == match Invoked(sc).ending
                           case Skipped => LogSkipped
                           case Returned(_) => LogSuccess
                           case _ => LogFailed
    ensures r.status == if r.logStatus == LogFailed then FAILED else COMPLETED
    ensures r.context == Cleaned(sc.sanitizer, FinalSecrets(sc, c), sc.context)
    ensures r.request == CleanedRequest(sc.sanitizer, FinalSecrets(sc, c), RequestSeen(sc, c))
    ensures r.response == Cleaned(sc.sanitizer, FinalSecrets(sc, c), ResponseSeen(sc, c))
  {
    hide Scrubbed, Redact, Collect, StandardError, SafeErrorOf, InjectStandardError, FailureOutput, PipelineResult;
  }

  /** The references of the configuration are resolved, as far as they can be. */
  predicate IsPrepared(c: Component) {
    && (c.condition.NoCondition? || c.condition.Holds?)
    && c.unknownType.None? && c.notExecutable.None? && c.invalidInput.None?
  }

  /** The secrets known at the end: of the input, the configuration, the handler, its answer or a failure's body. */
  lemma SecretsKnown(sc: Scenario, c: Component, secret: string)
    requires sc.lookup == Found(c)
    ensures var Collected := value => Collect(value, false, sc.sanitizer.isSensitive, sc.sanitizer.enc);
            secret in FinalSecrets(sc, c) <==>
              || secret in Collected(sc.context)
              || (IsPrepared(c) && (secret in Collected(c.config) || secret in c.envSecrets))
              || (MayExecute(c) && secret in Resilience.SecretsReported(c.handler, CallsOf(sc)))
              || (Answer(sc, c).Some? && secret in Collected(Answer(sc, c).value))
              || (Disclosure(sc, c).Some? && secret in Collected(Disclosure(sc, c).value))
  {
    hide Collect, Redact, PipelineResult, AfterRules;
  }

  // ----- Errors -----

  /** What a reader finds in a standard error. */
  lemma StandardErrorMeaning(san: Sanitizer, secrets: seq<string>, error: Error)
    requires error.AppError?
    ensures var standard := StandardError(san, secrets, error);
            && standard.Obj?
            && EntryOf(standard.entries, "code") == Some(Str(CodeText(error.code)))
            && EntryOf(standard.entries, "message") == Some(Str(CleanedText(san, secrets, error.message)))
            && (EntryOf(standard.entries, "details").Some? <==> error.rule.Some?)
            && (EntryOf(standard.entries, "downstream").Some? <==> error.code.External? && error.details.Downstream?)
  {
    hide CleanedText, Cleaned, CodeText, RuleDetails;
    var entries := StandardError(san, secrets, error).entries;
    assert entries[0].key == "code" && entries[1].key == "message";
    assert entries[1..][0] == entries[1];
    assert forall i :: 2 <= i < |entries| ==> entries[i].key == "details" || entries[i].key == "downstream";
    assert error.rule.Some? ==> entries[2].key == "details";
    assert error.code.External? && error.details.Downstream? ==> entries[|entries| - 1].key == "downstream";
  }

  /** An exception that is no AppError is shown as an internal error without details. */
  lemma OtherExceptionsAreInternal(sc: Scenario, c: Component)
    requires sc.lookup == Found(c) && TryBlock(sc, c).end == Throws(Raw) && CanScrub(FinalSecrets(sc, c))
    ensures Invoked(sc).ending
         == Rejected(SafeError(
              Internal, ScrubbedText("Internal server error", FinalSecrets(sc, c), sc.sanitizer.enc), None))
  {
    hide ScrubbedText, Collect, Redact;
  }

  /** A downstream body of more than 1024 characters is cut off there, as text or as a preview of its JSON. */
  lemma TruncationMeaning(san: Sanitizer, body: Value)
    ensures var r := Truncated(san, body);
            match body
            case Null => r == body
            case Undefined => r == body
            case Str(text) => r == if |text| <= 1024 then body else Str(text[..1024] + "... [truncated]")
            case _ =>
              var json := san.stringify(body);
              r == if |json| <= 1024 then body
                   else Obj([Entry("_truncated", Bool(true)), Entry("preview", Str(json[..1024] + "..."))])
  {
  }

  /** The error goes inside an object around one other object, beside the keys of any other object, else alone. */
  lemma InjectionMeaning(output: Value, error: Value, envelope: string, inner: seq<Entry>)
    ensures envelope != "error" ==>
              InjectStandardError(Obj([Entry(envelope, Obj(inner))]), error)
              == Obj([Entry(envelope, Obj(With(inner, "error", error)))])
    ensures !output.Obj? ==> InjectStandardError(output, error) == Obj([Entry("error", error)])
    ensures output.Obj? && !(|output.entries| == 1 && output.entries[0].key != "error" && output.entries[0].value.Obj?)
            ==> InjectStandardError(output, error) == Obj(With(output.entries, "error", error))
  {
  }

  /** What a failure maps: the body it disclosed, or the answer, or null; a default is tried once at most. */
  function FailureInput(sc: Scenario, c: Component): Value {
    match Disclosure(sc, c)
    case Some(body) => if Answer(sc, c).Some? then body else MappingInput(TryBlock(sc, c).config, body)
    case None =>
      MappingInput(TryBlock(sc, c).config, if Answer(sc, c).Some? then Answer(sc, c).value else Null)
  }

  /** The result recorded for a failure is that, mapped if the mapping works and null if not, and the error. */
  lemma FailureShows(sc: Scenario, c: Component, r: Record)
    requires sc.lookup == Found(c) && TryBlock(sc, c).end.Throws? && r in Invoked(sc).records
    ensures var mapped := TryBlock(sc, c).config.transform(FailureInput(sc, c));
            var shown := if mapped.Some? then mapped.value else Null;
            r.result == InjectStandardError(
                          Cleaned(sc.sanitizer, FinalSecrets(sc, c), shown),
                          StandardError(sc.sanitizer, FinalSecrets(sc, c), PrimaryError(sc, c)))
  {
    hide Cleaned, StandardError, Collect, Redact, SafeErrorOf, InjectStandardError;
  }
}
