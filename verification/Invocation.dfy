/**
 One invocation (runtime-executor.ts, response-pipeline.ts). Everything an invocation can meet, from
 the lookup of its component to the recorder, is an arbitrary scenario. The executor's try, catch and
 pipeline run on a frame of shared variables and are proved to do what functions on frames say; the
 theorems are about those functions.
 */
module Invocation {
  import opened Prelude
  import opened Json
  import opened Components
  import opened Redaction
  import Resilience

  // ----- Components and scenarios -----

  datatype Condition = NoCondition | Holds | DoesNotHold | MalformedCondition

  datatype RuleResult = Passes | Fails(error: Error) | MalformedRule

  /** The configuration of a component's output: rules and mapping read the bag's output. */
  datatype OutputConfig = OutputConfig(
    rules: seq<Value -> RuleResult>,
    default: Option<Value>,
    transform: Value -> Option<Value>)  // None: the mapping throws

  /** A stored component, and what preparing its execution comes to. */
  datatype Component = Component(
    componentType: string,
    condition: Condition,
    unknownType: Option<Error>,      // no handler is registered
    notExecutable: Option<Error>,    // assertExecutable throws
    invalidInput: Option<Error>,     // a field fails, or its stored path does not parse
    config: Value,
    envSecrets: seq<string>,         // reported while references are resolved
    unresolved: Option<Error>,       // a reference cannot be resolved
    policy: Resilience.Policy,
    handler: nat -> Call,
    stored: OutputConfig,            // before references are resolved
    resolved: OutputConfig)

  datatype Lookup = LookupThrows(error: Error) | Missing | Found(component: Component)

  /** What cleaning values depends on besides the secrets; stringify is JSON.stringify. */
  datatype Sanitizer = Sanitizer(isSensitive: string -> bool, enc: Encoders, stringify: Value -> string)

  datatype Scenario = Scenario(
    executionId: string,
    service: string,
    action: string,
    context: Value,
    startedAt: string,               // toISOString() of when the invocation started
    completedAt: string,             // and of when it is recorded
    lookup: Lookup,
    sanitizer: Sanitizer)

  datatype Status = COMPLETED | FAILED

  datatype LogStatus = LogSuccess | LogFailed | LogSkipped

  function StatusOf(logStatus: LogStatus): Status {
    if logStatus.LogFailed? then FAILED else COMPLETED
  }

  /** The texts both are recorded as. */
  function StatusText(status: Status): string {
    if status.FAILED? then "FAILED" else "COMPLETED"
  }

  function LogStatusText(logStatus: LogStatus): string {
    match logStatus
    case LogSuccess => "success"
    case LogFailed => "failed"
    case LogSkipped => "skipped"
  }

  /** An AppError whose message and details are sanitized. */
  datatype SafeError = SafeError(code: Code, message: string, details: Option<Value>)

  datatype Record = Record(
    executionId: string,
    service: string,
    action: string,
    componentType: string,
    status: Status,
    logStatus: LogStatus,
    context: Value,
    result: Value,
    attempts: nat,
    startedAt: string,
    completedAt: string,
    request: Option<Summary>,
    response: Value,
    error: Option<SafeError>)

  /** Escaped: an exception left the catch block. Pending: the handler never settles and nothing limits it. */
  datatype Ending =
    | LookupFailed(cause: Error)
    | NotFound
    | Skipped
    | Returned(data: Value)
    | Rejected(error: SafeError)
    | Escaped
    | Pending

  datatype Outcomes = Outcomes(ending: Ending, records: seq<Record>)

  // ----- The response pipeline -----

  const MAPPING_FAILED := TransformationError("Response transformation failed")
  const MALFORMED_RULE := TransformationError("Stored validation expression is malformed")
  const MALFORMED_CONDITION := TransformationError("Stored condition is malformed")

  predicate IsEmpty(output: Value) {
    output.Null? || output.Undefined? || (output.Str? && output.text == "")
  }

  predicate AllRulesPass(rules: seq<Value -> RuleResult>, output: Value) {
    forall i :: 0 <= i < |rules| ==> rules[i](output) == Passes
  }

  /** The first rule that does not pass decides the error. */
  function RuleError(rules: seq<Value -> RuleResult>, output: Value): Option<Error> {
    if rules == [] then None
    else
      match rules[0](output)
      case Passes => RuleError(rules[1..], output)
      case Fails(error) => Some(error)
      case MalformedRule => Some(MALFORMED_RULE)
  }

  lemma {:induction false} NoRuleError(rules: seq<Value -> RuleResult>, output: Value)
    ensures RuleError(rules, output).None? <==> AllRulesPass(rules, output)
    decreases |rules|
  {
    if rules != [] {
      NoRuleError(rules[1..], output);
      assert forall i :: 1 <= i < |rules| ==> rules[i] == rules[1..][i - 1];
    }
  }

  /** bag.output once the pipeline ran: the default replaces an empty output that passed every rule. */
  function AfterRules(config: OutputConfig, output: Value): Value {
    if AllRulesPass(config.rules, output) && IsEmpty(output) && config.default.Some?
    then config.default.value
    else output
  }

  function Mapped(config: OutputConfig, output: Value): Result<Value, Error> {
    var mapped := config.transform(output);
    if mapped.None? then Err(MAPPING_FAILED) else Ok(mapped.value)
  }

  function PipelineResult(config: OutputConfig, output: Value): Result<Value, Error> {
    var error := RuleError(config.rules, output);
    if error.Some? then Err(error.value) else Mapped(config, AfterRules(config, output))
  }

  // ----- Standard errors -----

  /** { ...record, [key]: value }: an existing key keeps its place. */
  function With(entries: seq<Entry>, key: string, value: Value): seq<Entry> {
    if entries == [] then [Entry(key, value)]
    else if entries[0].key == key then [Entry(key, value)] + entries[1..]
    else [entries[0]] + With(entries[1..], key, value)
  }

  /** An object around one other object, like {"response": {...}}, takes the error inside. */
  predicate IsEnvelope(output: Value) {
    output.Obj? && |output.entries| == 1 && output.entries[0].key != "error" && output.entries[0].value.Obj?
  }

  function InjectStandardError(output: Value, error: Value): Value {
    if !output.Obj? then Obj([Entry("error", error)])
    else if IsEnvelope(output) then
      var inner := output.entries[0];
      Obj([Entry(inner.key, Obj(With(inner.value.entries, "error", error)))])
    else Obj(With(output.entries, "error", error))
  }

  /** Where a reader finds the error of a recorded result. */
  function ErrorIn(result: Value): Option<Value> {
    if IsEnvelope(result) then EntryOf(result.entries[0].value.entries, "error")
    else if result.Obj? then EntryOf(result.entries, "error")
    else None
  }

  lemma {:induction false} WithMeaning(entries: seq<Entry>, key: string, value: Value, other: string)
    ensures EntryOf(With(entries, key, value), other) == if other == key then Some(value) else EntryOf(entries, other)
    ensures |With(entries, key, value)| == |entries| + (if EntryOf(entries, key).Some? then 0 else 1)
    decreases |entries|
  {
    if entries != [] {
      WithMeaning(entries[1..], key, value, other);
    }
  }

  /** The error can always be read back, whatever the mapping produced, and nothing else is overwritten. */
  lemma InjectedErrorIsFound(output: Value, error: Value, key: string)
    ensures ErrorIn(InjectStandardError(output, error)) == Some(error)
    ensures output.Obj? && !IsEnvelope(output) && key != "error" ==>
              EntryOf(InjectStandardError(output, error).entries, key) == EntryOf(output.entries, key)
    ensures IsEnvelope(output) && key != "error" ==>
              && IsEnvelope(InjectStandardError(output, error))
              && EntryOf(InjectStandardError(output, error).entries[0].value.entries, key)
                 == EntryOf(output.entries[0].value.entries, key)
  {
    if output.Obj? {
      WithMeaning(output.entries, "error", error, "error");
      WithMeaning(output.entries, "error", error, key);
      if IsEnvelope(output) {
        WithMeaning(output.entries[0].value.entries, "error", error, "error");
        WithMeaning(output.entries[0].value.entries, "error", error, key);
      }
    }
  }

  // ----- The frame of an invocation -----

  /** What the closures of invoke share; output is the bag's. */
  datatype FrameState = FrameState(
    output: Value,
    secrets: seq<string>,
    request: Option<Summary>,
    rawResponse: Value,
    attempts: nat)

  function StartOf(sc: Scenario): FrameState {
    FrameState(Null, Collect(sc.context, false, sc.sanitizer.isSensitive, sc.sanitizer.enc), None, Undefined, 0)
  }

  /** scrub(redactSensitiveFields(value)), for secrets that can be scrubbed. */
  function Cleaned(san: Sanitizer, secrets: seq<string>, value: Value): Value {
    Scrubbed(Redact(value, san.isSensitive), secrets, san.enc)
  }

  function CleanedText(san: Sanitizer, secrets: seq<string>, text: string): string {
    ScrubbedText(text, secrets, san.enc)
  }

  function CleanedRequest(san: Sanitizer, secrets: seq<string>, request: Option<Summary>): Option<Summary> {
    match request
    case None => None
    case Some(Summary(uri, verb, body)) =>
      Some(Summary(CleanedText(san, secrets, uri), verb, Cleaned(san, secrets, body)))
  }

  function RecordOf(
    sc: Scenario, componentType: string, f: FrameState, logStatus: LogStatus, result: Value, error: Option<SafeError>)
    : Record
  {
    Record(
      sc.executionId, sc.service, sc.action, componentType,
      StatusOf(logStatus), logStatus,
      Cleaned(sc.sanitizer, f.secrets, sc.context), result, f.attempts, sc.startedAt, sc.completedAt,
      CleanedRequest(sc.sanitizer, f.secrets, f.request), Cleaned(sc.sanitizer, f.secrets, f.rawResponse), error)
  }

  // ----- The try block -----

  datatype TryEnd = Skips | Throws(error: Error) | Hangs | Yields(mapped: Value)

  /** started: the pipeline was reached. config: what maps the output from here on. */
  datatype Tried = Tried(frame: FrameState, started: bool, config: OutputConfig, end: TryEnd)

  /** The first error thrown before the references of the configuration are resolved. */
  function EarlyError(c: Component): Option<Error> {
    if c.condition.MalformedCondition? then Some(MALFORMED_CONDITION)
    else if c.unknownType.Some? then c.unknownType
    else if c.notExecutable.Some? then c.notExecutable
    else c.invalidInput
  }

  function PreparedOf(sc: Scenario, c: Component): FrameState {
    var f := StartOf(sc);
    f.(secrets := f.secrets + Collect(c.config, false, sc.sanitizer.isSensitive, sc.sanitizer.enc) + c.envSecrets)
  }

  /** After the handler's last attempt. */
  function ExecutedOf(sc: Scenario, c: Component): FrameState {
    var f, made := PreparedOf(sc, c), Resilience.Attempts(c.handler, c.policy);
    f.(secrets := f.secrets + Resilience.SecretsReported(c.handler, made),
       request := Resilience.RequestReported(c.handler, made),
       attempts := made)
  }

  function RespondedOf(san: Sanitizer, f: FrameState, data: Value, request: Option<Summary>): FrameState {
    f.(request := if request.Some? then request else f.request,
       rawResponse := data, output := data,
       secrets := f.secrets + Collect(data, false, san.isSensitive, san.enc))
  }

  function Piped(f: FrameState, config: OutputConfig): Tried {
    var t := f.(output := AfterRules(config, f.output));
    match PipelineResult(config, f.output)
    case Ok(mapped) => Tried(t, true, config, Yields(mapped))
    case Err(error) => Tried(t, true, config, Throws(error))
  }

  function TryBlock(sc: Scenario, c: Component): Tried {
    if c.condition.DoesNotHold? then Tried(StartOf(sc), false, c.stored, Skips)
    else if EarlyError(c).Some? then Tried(StartOf(sc), false, c.stored, Throws(EarlyError(c).value))
    else if c.unresolved.Some? then Tried(PreparedOf(sc, c), false, c.stored, Throws(c.unresolved.value))
    else
      match Resilience.RaceAt(c.handler, c.policy, Resilience.Attempts(c.handler, c.policy) - 1)
      case Hangs => Tried(ExecutedOf(sc, c), false, c.resolved, TryEnd.Hangs)
      case Settles(Failed(error), _) => Tried(ExecutedOf(sc, c), false, c.resolved, Throws(error))
      case Settles(Data(data, request), _) =>
        Piped(RespondedOf(sc.sanitizer, ExecutedOf(sc, c), data, request), c.resolved)
  }

  // ----- The catch block -----

  function AsAppError(caught: Error): Error {
    if caught.AppError? then caught else AppError(Internal, "Internal server error", NoDetails, None)
  }

  /** The body of a downstream error replaces output and response, and is searched for secrets. */
  function Disclosed(san: Sanitizer, f: FrameState, error: Error): FrameState {
    if error.AppError? && error.details.Downstream? && error.details.body.Some? then
      var body := error.details.body.value;
      f.(output := body, rawResponse := body, secrets := f.secrets + Collect(body, false, san.isSensitive, san.enc))
    else f
  }

  /** The mapping of a failure: a failed rule prevents the default only, and a mapping that throws gives null. */
  function FailureOutput(config: OutputConfig, output: Value, started: bool): Value {
    var seen := if started then output else AfterRules(config, output);
    var mapped := Mapped(config, seen);
    if mapped.Ok? then mapped.value else Null
  }

  const MAX_DOWNSTREAM_BODY_SIZE: nat := 1024

  /** truncateResponseBody. */
  function Truncated(san: Sanitizer, body: Value): Value {
    if body.Null? || body.Undefined? then body
    else if body.Str? then
      if MAX_DOWNSTREAM_BODY_SIZE < |body.text|
      then Str(body.text[..MAX_DOWNSTREAM_BODY_SIZE] + "... [truncated]")
      else body
    else
      var serialized := san.stringify(body);
      if MAX_DOWNSTREAM_BODY_SIZE < |serialized| then
        Obj([Entry("_truncated", Bool(true)), Entry("preview", Str(serialized[..MAX_DOWNSTREAM_BODY_SIZE] + "..."))])
      else body
  }

  function OrUndefined(value: Option<Value>): Value {
    if value.Some? then value.value else Undefined
  }

  function StatusValue(status: Option<int>): Value {
    if status.Some? then Num(status.value as real) else Undefined
  }

  /** { status, body } with a cleaned body. */
  function DownstreamValue(status: Option<int>, body: Value): Value {
    Obj([Entry("status", StatusValue(status)), Entry("body", body)])
  }

  /** The details as the value they are. */
  function DetailsValue(details: Details): Value {
    match details
    case NoDetails => Undefined
    case Downstream(status, body) => Obj([Entry("downstream", DownstreamValue(status, OrUndefined(body)))])
    case Plain(value) => value
  }

  /** These codes are recorded with their details as they are. */
  predicate KeepsDetails(code: Code) {
    code.NotImplemented? || code.UnknownComponentType? || code.EnvRefUnresolved?
  }

  function CleanedEntries(san: Sanitizer, secrets: seq<string>, entries: seq<Entry>): seq<Entry> {
    if entries == [] then []
    else
      [Entry(entries[0].key, Cleaned(san, secrets, entries[0].value))] + CleanedEntries(san, secrets, entries[1..])
  }

  /** sanitizeErrorDetails. */
  function SafeDetails(san: Sanitizer, secrets: seq<string>, code: Code, details: Details): Option<Value> {
    var value := DetailsValue(details);
    if details.NoDetails? then None
    else if KeepsDetails(code) then Some(value)
    else if code.External? && details.Downstream? then
      Some(Obj([Entry("downstream",
        DownstreamValue(details.status, Cleaned(san, secrets, Truncated(san, OrUndefined(details.body)))))]))
    else if code.ValidationFailed? && value.Obj? then Some(Obj(CleanedEntries(san, secrets, value.entries)))
    else Some(Cleaned(san, secrets, value))
  }

  /** buildStandardError, every text and body cleaned; rule failures and downstream errors bring more along. */
  function StandardError(san: Sanitizer, secrets: seq<string>, error: Error): Value
    requires error.AppError?
  {
    Obj([Entry("code", Str(CodeText(error.code))), Entry("message", Str(CleanedText(san, secrets, error.message)))]
        + RuleEntries(san, secrets, error) + DownstreamEntries(san, secrets, error))
  }

  function RuleEntries(san: Sanitizer, secrets: seq<string>, error: Error): seq<Entry>
    requires error.AppError?
  {
    if error.rule.None? then [] else [Entry("details", RuleDetails(san, secrets, error.rule.value, error.message))]
  }

  function DownstreamEntries(san: Sanitizer, secrets: seq<string>, error: Error): seq<Entry>
    requires error.AppError?
  {
    if !error.code.External? || !error.details.Downstream? then []
    else
      [Entry("downstream",
         DownstreamValue(error.details.status, Cleaned(san, secrets, OrUndefined(error.details.body))))]
  }

  function RuleDetails(san: Sanitizer, secrets: seq<string>, rule: RuleFailure, message: string): Value {
    Arr([Obj([Entry("rule", Str(CleanedText(san, secrets, rule.expression))),
              Entry("message", Str(CleanedText(san, secrets, message))),
              Entry("path", Str(CleanedText(san, secrets, rule.path)))])])
  }

  function SafeErrorOf(san: Sanitizer, secrets: seq<string>, error: Error): SafeError
    requires error.AppError?
  {
    SafeError(
      error.code, CleanedText(san, secrets, error.message), SafeDetails(san, secrets, error.code, error.details))
  }

  /** The catch block: what it scrubs throws again when a secret cannot be encoded, before anything is recorded. */
  function CatchBlock(sc: Scenario, componentType: string, t: Tried, caught: Error): Outcomes {
    var error := AsAppError(caught);
    var f := Disclosed(sc.sanitizer, t.frame, error);
    if !CanScrub(f.secrets) then Outcomes(Escaped, [])
    else
      var output := Cleaned(sc.sanitizer, f.secrets, FailureOutput(t.config, f.output, t.started));
      var result := InjectStandardError(output, StandardError(sc.sanitizer, f.secrets, error));
      var safe := SafeErrorOf(sc.sanitizer, f.secrets, error);
      Outcomes(Rejected(safe), [RecordOf(sc, componentType, f, LogFailed, result, Some(safe))])
  }

  // ----- invoke -----

  /** A component was found: the try block, its two calls of finish, and the catch block. */
  function Run(sc: Scenario, c: Component): Outcomes {
    var t := TryBlock(sc, c);
    var f := t.frame;
    match t.end
    case Hangs => Outcomes(Pending, [])
    case Throws(error) => CatchBlock(sc, c.componentType, t, error)
    case Skips =>
      if !CanScrub(f.secrets) then CatchBlock(sc, c.componentType, t, Raw)
      else Outcomes(Skipped, [RecordOf(sc, c.componentType, f, LogSkipped, Null, None)])
    case Yields(mapped) =>
      if !CanScrub(f.secrets) then CatchBlock(sc, c.componentType, t, Raw)
      else
        var data := Cleaned(sc.sanitizer, f.secrets, mapped);
        Outcomes(Returned(data), [RecordOf(sc, c.componentType, f, LogSuccess, data, None)])
  }

  /** How often the handler is called. */
  function CallsOf(sc: Scenario): nat {
    if sc.lookup.Found? then TryBlock(sc, sc.lookup.component).frame.attempts else 0
  }

  function Invoked(sc: Scenario): Outcomes {
    match sc.lookup
    case LookupThrows(error) => Outcomes(LookupFailed(error), [])
    case Missing => Outcomes(NotFound, [])
    case Found(c) => Run(sc, c)
  }

  // ----- The recorder -----

  datatype RecorderResult = Recorded | AuditFailed | WriteFailed

  datatype Warning = AuditRowLost | RecordLost

  /** An ExecutionRecorder, which takes or refuses each entry as its script says. */
  class ExecutionRecorder {
    const script: nat -> RecorderResult
    var entries: seq<Record>

    constructor (script: nat -> RecorderResult)
      ensures this.script == script && entries == []
    {
      this.script := script;
      entries := [];
    }

    method RecordInvocation(entry: Record) returns (r: RecorderResult)
      modifies this
      ensures entries == old(entries) + [entry] && r == script(|entries|)
    {
      entries := entries + [entry];
      r := script(|entries|);
    }
  }

  function WarningsFor(result: RecorderResult): seq<Warning> {
    match result
    case Recorded => []
    case AuditFailed => [AuditRowLost]
    case WriteFailed => [RecordLost]
  }

  // ----- The executor -----

  /** The variables that invoke's closures share. */
  class Frame {
    var output: Value
    var secrets: seq<string>
    var request: Option<Summary>
    var rawResponse: Value
    var attempts: nat

    ghost function Abs(): FrameState
      reads this
    {
      FrameState(output, secrets, request, rawResponse, attempts)
    }

    constructor (secrets: seq<string>)
      ensures Abs() == FrameState(Null, secrets, None, Undefined, 0)
    {
      output, rawResponse := Null, Undefined;
      this.secrets := secrets;
      request, attempts := None, 0;
    }

    method TransformResponse(config: OutputConfig) returns (r: Result<Value, Error>)
      ensures r == Mapped(config, output)
    {
      var mapped := config.transform(output);
      r := if mapped.None? then Err(MAPPING_FAILED) else Ok(mapped.value);
    }

    /** The default replaces an empty output only after every rule passed on that output. */
    method RunResponsePipeline(config: OutputConfig) returns (r: Result<Value, Error>)
      modifies this`output
      ensures r == PipelineResult(config, old(output))
      ensures output == AfterRules(config, old(output))
    {
      NoRuleError(config.rules, output);
      for i := 0 to |config.rules|
        invariant output == old(output)
        invariant forall j :: 0 <= j < i ==> config.rules[j](output) == Passes
        invariant RuleError(config.rules, output) == RuleError(config.rules[i..], output)
      {
        match config.rules[i](output)
        case Passes =>
        case Fails(error) =>
          return Err(error);
        case MalformedRule =>
          return Err(MALFORMED_RULE);
      }
      if IsEmpty(output) && config.default.Some? {
        output := config.default.value;
      }
      r := TransformResponse(config);
    }
  }

  class RuntimeExecutor {
    const recorder: ExecutionRecorder
    var warnings: seq<Warning>

    constructor (recorder: ExecutionRecorder)
      ensures this.recorder == recorder && warnings == []
    {
      this.recorder := recorder;
      warnings := [];
    }

    /** record(): whatever the recorder throws is caught, and only the log tells. */
    method DoRecord(entry: Record)
      modifies this`warnings, recorder
      ensures recorder.entries == old(recorder.entries) + [entry]
      ensures warnings == old(warnings) + WarningsFor(recorder.script(|recorder.entries|))
    {
      var result := recorder.RecordInvocation(entry);
      match result
      case Recorded =>
      case AuditFailed =>
        warnings := warnings + [AuditRowLost];
      case WriteFailed =>
        warnings := warnings + [RecordLost];
    }

    /** finish(): it scrubs the input first, which throws when a secret cannot be encoded. */
    method Finish(
      sc: Scenario, componentType: string, frame: Frame, logStatus: LogStatus, result: Value, error: Option<SafeError>)
      returns (thrown: bool)
      modifies this`warnings, recorder
      ensures thrown <==> !CanScrub(frame.secrets)
      ensures recorder.entries
           == old(recorder.entries)
              + (if thrown then [] else [RecordOf(sc, componentType, frame.Abs(), logStatus, result, error)])
    {
      var context := ScrubSecretValues(Redact(sc.context, sc.sanitizer.isSensitive), frame.secrets, sc.sanitizer.enc);
      if context.None? {
        return true;
      }
      var request := CleanedRequest(sc.sanitizer, frame.secrets, frame.request);
      var response := Cleaned(sc.sanitizer, frame.secrets, frame.rawResponse);
      DoRecord(Record(
        sc.executionId, sc.service, sc.action, componentType,
        StatusOf(logStatus), logStatus,
        context.value, result, frame.attempts, sc.startedAt, sc.completedAt, request, response, error));
      return false;
    }

    /** The statements of the try block before the references are resolved. */
    method CheckComponent(c: Component) returns (error: Option<Error>)
      ensures error == EarlyError(c)
    {
      if c.condition.MalformedCondition? {
        return Some(MALFORMED_CONDITION);
      }
      if c.unknownType.Some? {
        return c.unknownType;
      }
      if c.notExecutable.Some? {
        return c.notExecutable;
      }
      error := c.invalidInput;
    }

    /** The handler's attempts: the frame gets what they reported and how many there were. */
    method CallHandler(sc: Scenario, c: Component, frame: Frame, handler: Handler) returns (r: Resilience.Result)
      requires handler.script == c.handler && handler.calls == 0
      requires frame.Abs() == PreparedOf(sc, c)
      modifies frame, handler
      ensures var made := Resilience.Attempts(c.handler, c.policy);
              && handler.calls == made && frame.Abs() == ExecutedOf(sc, c)
              && r == Resilience.ResultOf(Resilience.RaceAt(c.handler, c.policy, made - 1), made)
    {
      var operation := new Resilience.Operation(handler);
      var elapsed;
      r, elapsed := Resilience.Execute(operation, c.policy);
      frame.attempts := operation.attempts;
      frame.request := operation.request;
      frame.secrets := frame.secrets + operation.secrets;
    }

    /** The try block up to its calls of finish. */
    method Try(sc: Scenario, c: Component, frame: Frame, handler: Handler)
      returns (started: bool, config: OutputConfig, end: TryEnd)
      requires frame.Abs() == StartOf(sc)
      requires handler.script == c.handler && handler.calls == 0
      modifies frame, handler
      ensures TryBlock(sc, c) == Tried(frame.Abs(), started, config, end)
      ensures handler.calls == frame.attempts
    {
      started, config := false, c.stored;
      if c.condition.DoesNotHold? {
        return started, config, Skips;
      }
      var early := CheckComponent(c);
      if early.Some? {
        return started, config, Throws(early.value);
      }
      var configSecrets := Collect(c.config, false, sc.sanitizer.isSensitive, sc.sanitizer.enc);
      frame.secrets := frame.secrets + configSecrets + c.envSecrets;
      if c.unresolved.Some? {
        return started, config, Throws(c.unresolved.value);
      }
      config := c.resolved;
      var outcome := CallHandler(sc, c, frame, handler);
      match outcome
      case Never =>
        return started, config, TryEnd.Hangs;
      case Thrown(error) =>
        return started, config, Throws(error);
      case Returned(data, request, _) =>
        if request.Some? {
          frame.request := request;
        }
        frame.rawResponse, frame.output := data, data;
        frame.secrets := frame.secrets + Collect(data, false, sc.sanitizer.isSensitive, sc.sanitizer.enc);
        started := true;
        var mapped := frame.RunResponsePipeline(config);
        end := if mapped.Ok? then Yields(mapped.value) else Throws(mapped.error);
    }

    /** The catch block. */
    method HandleError(
      sc: Scenario, componentType: string, frame: Frame, started: bool, config: OutputConfig, caught: Error)
      returns (ending: Ending)
      modifies this`warnings, recorder, frame
      ensures frame.attempts == old(frame.attempts)
      ensures var outcomes := CatchBlock(sc, componentType, Tried(old(frame.Abs()), started, config, Skips), caught);
              ending == outcomes.ending && recorder.entries == old(recorder.entries) + outcomes.records
    {
      hide Variants, Scrub, Redact, StandardError, SafeErrorOf, InjectStandardError, Collect;
      var error := AsAppError(caught);
      if error.details.Downstream? && error.details.body.Some? {
        var body := error.details.body.value;
        frame.output, frame.rawResponse := body, body;
        frame.secrets := frame.secrets + Collect(body, false, sc.sanitizer.isSensitive, sc.sanitizer.enc);
      }
      NoRuleError(config.rules, frame.output);
      var mapped;
      if started {
        mapped := frame.TransformResponse(config);
      } else {
        mapped := frame.RunResponsePipeline(config);
      }
      if mapped.Err? {
        mapped := frame.TransformResponse(config);
      }
      var output := if mapped.Ok? then mapped.value else Null;
      var scrubbed := ScrubSecretValues(Redact(output, sc.sanitizer.isSensitive), frame.secrets, sc.sanitizer.enc);
      if scrubbed.None? {
        return Escaped;
      }
      var result := InjectStandardError(scrubbed.value, StandardError(sc.sanitizer, frame.secrets, error));
      var safe := SafeErrorOf(sc.sanitizer, frame.secrets, error);
      var thrown := Finish(sc, componentType, frame, LogFailed, result, Some(safe));
      return Rejected(safe);
    }

    /** The rest of the try block after its mapping: scrub and finish, both of which may throw into the catch block. */
    method Complete(sc: Scenario, c: Component, frame: Frame, end: TryEnd) returns (ending: Option<Ending>)
      requires end.Skips? || end.Yields?
      modifies this`warnings, recorder
      ensures ending.None? <==> !CanScrub(frame.secrets)
      ensures ending.None? ==> recorder.entries == old(recorder.entries)
      ensures ending.Some? ==>
                var outcomes := if end.Skips?
                  then Outcomes(Skipped, [RecordOf(sc, c.componentType, frame.Abs(), LogSkipped, Null, None)])
                  else
                    var data := Cleaned(sc.sanitizer, frame.secrets, end.mapped);
                    Outcomes(Returned(data), [RecordOf(sc, c.componentType, frame.Abs(), LogSuccess, data, None)]);
                ending.value == outcomes.ending && recorder.entries == old(recorder.entries) + outcomes.records
    {
      if end.Skips? {
        var thrown := Finish(sc, c.componentType, frame, LogSkipped, Null, None);
        return if thrown then None else Some(Skipped);
      }
      var data := ScrubSecretValues(Redact(end.mapped, sc.sanitizer.isSensitive), frame.secrets, sc.sanitizer.enc);
      if data.None? {
        return None;
      }
      var thrown := Finish(sc, c.componentType, frame, LogSuccess, data.value, None);
      return Some(Returned(data.value));
    }

    method Invoke(sc: Scenario, handler: Handler) returns (ending: Ending)
      requires handler.calls == 0 && (sc.lookup.Found? ==> handler.script == sc.lookup.component.handler)
      modifies this`warnings, recorder, handler
      ensures ending == Invoked(sc).ending
      ensures recorder.entries == old(recorder.entries) + Invoked(sc).records
      ensures handler.calls == CallsOf(sc)
      ensures forall r :: r in Invoked(sc).records ==> r.attempts == handler.calls
    {
      match sc.lookup
      case LookupThrows(error) =>
        return LookupFailed(error);
      case Missing =>
        return NotFound;
      case Found(c) =>
        var frame := new Frame(Collect(sc.context, false, sc.sanitizer.isSensitive, sc.sanitizer.enc));
        var started, config, end := Try(sc, c, frame, handler);
        if end.Hangs? {
          return Pending;
        }
        var caught := Raw;
        if end.Throws? {
          caught := end.error;
        } else {
          var completed := Complete(sc, c, frame, end);
          if completed.Some? {
            return completed.value;
          }
        }
        ending := HandleError(sc, c.componentType, frame, started, config, caught);
    }
  }
}
