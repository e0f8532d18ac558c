/**
 What the runtime and the component handlers exchange (components/base.ts, lib/errors.ts): errors with
 their codes and details, request summaries, and one call of a handler as the environment plays it.
 */
module Components {
  import opened Prelude
  import opened Json

  /** error.code; Other stands for the codes no code of the runtime looks at. */
  datatype Code =
    | Internal | Transformation | UnknownComponentType | ValidationFailed | External | Timeout
    | Connection | NotImplemented | EnvRefUnresolved | Other(name: string)

  function CodeText(code: Code): string {
    match code
    case Internal => "INTERNAL_ERROR"
    case Transformation => "TRANSFORMATION_ERROR"
    case UnknownComponentType => "UNKNOWN_COMPONENT_TYPE"
    case ValidationFailed => "VALIDATION_FAILED"
    case External => "EXTERNAL_ERROR"
    case Timeout => "TIMEOUT"
    case Connection => "CONNECTION_ERROR"
    case NotImplemented => "NOT_IMPLEMENTED"
    case EnvRefUnresolved => "ENV_REF_UNRESOLVED"
    case Other(name) => name
  }

  /** error.details: nothing, { downstream: { status, body } }, or any other value. */
  datatype Details = NoDetails | Downstream(status: Option<int>, body: Option<Value>) | Plain(value: Value)

  /** What a ResponseValidationError carries besides its message. */
  datatype RuleFailure = RuleFailure(expression: string, path: string)

  /** An exception: an AppError, or anything else thrown. */
  datatype Error = AppError(code: Code, message: string, details: Details, rule: Option<RuleFailure>) | Raw

  function TransformationError(message: string): Error {
    AppError(Transformation, message, NoDetails, None)
  }

  const TIMEOUT_ERROR := AppError(Timeout, "Component response deadline exceeded", NoDetails, None)

  /** ComponentRequestSummary; verb is its method. */
  datatype Summary = Summary(uri: string, verb: string, body: Value)

  datatype Outcome = Data(data: Value, request: Option<Summary>) | Failed(error: Error)

  /** One attempt: when it settles, if ever, and whether it beats a timer due at that instant. */
  datatype Attempt = Attempt(duration: Option<nat>, beatsTimer: bool, outcome: Outcome)

  /** One call of a handler: its attempt, and what it reports through onSecret and onRequest. */
  datatype Call = Call(attempt: Attempt, secrets: seq<string>, request: Option<Summary>)

  /** A component handler, which behaves as its script says and knows how often it was called. */
  class Handler {
    const script: nat -> Call
    var calls: nat

    constructor (script: nat -> Call)
      ensures this.script == script && calls == 0
    {
      this.script := script;
      calls := 0;
    }

    method Execute() returns (call: Call)
      modifies this
      ensures calls == old(calls) + 1 && call == script(calls)
    {
      calls := calls + 1;
      call := script(calls);
    }
  }
}
