/**
 The retry executor (resilience-executor.ts) under an ideal clock: timers fire exactly on time and
 code between awaits takes no time. What the operation does on each attempt, and how long it takes,
 is an arbitrary script of the environment.
 */
module Resilience {
  import opened Prelude
  import opened Json
  import opened Components

  /** requestTimeout == 0 means no limit; defaults are filled in by the caller. */
  datatype Policy = Policy(
    requestTimeout: nat,
    retryCount: nat,
    retryDelay: nat,
    exponential: bool,
    maxElapsedTime: Option<nat>,
    retryOn: seq<int>)

  const MAX_DELAY: nat := 30000

  predicate IsRetryable(error: Error, retryOn: seq<int>) {
    match error
    case Raw => false
    case AppError(code, _, details, _) =>
      || code.Timeout? || code.Connection?
      || (code.External? && details.Downstream? && details.status.Some?
          && 500 <= details.status.value <= 599 && details.status.value in retryOn)
  }

  function Pow2(n: nat): nat {
    if n == 0 then 1 else 2 * Pow2(n - 1)
  }

  function DelayFor(attempt: nat, policy: Policy): nat
    requires 1 <= attempt
  {
    var wanted := if policy.exponential then policy.retryDelay * Pow2(attempt - 1) else policy.retryDelay;
    if wanted < MAX_DELAY then wanted else MAX_DELAY
  }

  /** The waiting time after the first n attempts. */
  function DelaySum(n: nat, policy: Policy): nat {
    if n == 0 then 0 else DelaySum(n - 1, policy) + DelayFor(n, policy)
  }

  /** Result of execute: a value, a thrown error, or a promise that never settles. */
  datatype Result = Returned(data: Value, request: Option<Summary>, attempts: nat) | Thrown(error: Error) | Never

  /** What a race against the attempt's timer yields, and after how long. */
  datatype Race = Settles(outcome: Outcome, after: nat) | Hangs

  /** The limit of one attempt; None is Infinity. */
  function AttemptLimit(policy: Policy, elapsed: nat): Option<int> {
    var remaining := if policy.maxElapsedTime.Some? then Some(policy.maxElapsedTime.value - elapsed) else None;
    if policy.requestTimeout == 0 then remaining
    else if remaining.Some? && remaining.value < policy.requestTimeout then remaining
    else Some(policy.requestTimeout)
  }

  function RaceOf(attempt: Attempt, limit: Option<int>): Race {
    var fires: Option<nat> := if limit.None? then None else Some(if limit.value < 0 then 0 else limit.value);
    match (attempt.duration, fires)
    case (None, None) => Hangs
    case (None, Some(l)) => Settles(Failed(TIMEOUT_ERROR), l)
    case (Some(d), None) => Settles(attempt.outcome, d)
    case (Some(d), Some(l)) =>
      if d < l || (d == l && attempt.beatsTimer) then Settles(attempt.outcome, d) else Settles(Failed(TIMEOUT_ERROR), l)
  }

  // ----- The attempts one after the other -----

  /** When attempt n + 1 starts, if the n attempts before it are made. */
  function StartTime(script: nat -> Call, policy: Policy, n: nat): nat
    decreases n, 0
  {
    if n == 0 then 0 else EndTime(script, policy, n - 1) + DelayFor(n, policy)
  }

  function RaceAt(script: nat -> Call, policy: Policy, n: nat): Race
    decreases n, 1
  {
    RaceOf(script(n + 1).attempt, AttemptLimit(policy, StartTime(script, policy, n)))
  }

  function EndTime(script: nat -> Call, policy: Policy, n: nat): nat
    decreases n, 2
  {
    var race := RaceAt(script, policy, n);
    StartTime(script, policy, n) + (if race.Hangs? then 0 else race.after)
  }

  /** Attempt n + 1 is followed by another: a retryable error, a retry left, and time for the delay. */
  predicate Retried(script: nat -> Call, policy: Policy, n: nat) {
    var race := RaceAt(script, policy, n);
    && race.Settles? && race.outcome.Failed?
    && n < policy.retryCount
    && IsRetryable(race.outcome.error, policy.retryOn)
    && (policy.maxElapsedTime.Some? ==>
          DelayFor(n + 1, policy) < policy.maxElapsedTime.value - EndTime(script, policy, n))
  }

  /** The first n attempts are all followed by another. */
  predicate AllRetried(script: nat -> Call, policy: Policy, n: nat) {
    forall i :: 0 <= i < n ==> Retried(script, policy, i)
  }

  /** How execute ends when attempt n + 1 is the last. */
  function ResultOf(race: Race, attempts: nat): Result {
    match race
    case Hangs => Never
    case Settles(Data(data, request), _) => Returned(data, request, attempts)
    case Settles(Failed(error), _) => Thrown(error)
  }

  /** The attempts made from attempt n + 1 on are up to the first that is not followed by another. */
  function AttemptsFrom(script: nat -> Call, policy: Policy, n: nat): (made: nat)
    ensures n < made
    ensures n <= policy.retryCount ==> made <= policy.retryCount + 1
    decreases policy.retryCount - n
  {
    if Retried(script, policy, n) then AttemptsFrom(script, policy, n + 1) else n + 1
  }

  function Attempts(script: nat -> Call, policy: Policy): nat {
    AttemptsFrom(script, policy, 0)
  }

  lemma {:induction false} AttemptsFromMeaning(script: nat -> Call, policy: Policy, n: nat)
    requires AllRetried(script, policy, n)
    ensures var made := AttemptsFrom(script, policy, n);
            AllRetried(script, policy, made - 1) && !Retried(script, policy, made - 1)
    decreases policy.retryCount - n
  {
    if Retried(script, policy, n) {
      AttemptsFromMeaning(script, policy, n + 1);
    }
  }

  /** Between one and retryCount + 1 attempts: all but the last are followed by another, the last is not. */
  lemma AttemptsMeaning(script: nat -> Call, policy: Policy)
    ensures var made := Attempts(script, policy);
            && 1 <= made <= policy.retryCount + 1
            && AllRetried(script, policy, made - 1) && !Retried(script, policy, made - 1)
  {
    AttemptsFromMeaning(script, policy, 0);
  }

  /** The secrets the first n calls report, in order. */
  function SecretsReported(script: nat -> Call, n: nat): seq<string> {
    if n == 0 then [] else SecretsReported(script, n - 1) + script(n).secrets
  }

  /** The last request summary the first n calls report. */
  function RequestReported(script: nat -> Call, n: nat): Option<Summary> {
    if n == 0 then None
    else if script(n).request.Some? then script(n).request
    else RequestReported(script, n - 1)
  }

  /** The operation the runtime passes: it counts its attempts and keeps what the handler reports. */
  class Operation {
    const handler: Handler
    var attempts: nat
    var secrets: seq<string>
    var request: Option<Summary>

    constructor (handler: Handler)
      ensures this.handler == handler && attempts == 0 && secrets == [] && request == None
    {
      this.handler := handler;
      attempts, secrets, request := 0, [], None;
    }

    ghost predicate IsAfter(n: nat)
      reads this, handler
    {
      && attempts == n && handler.calls == n
      && secrets == SecretsReported(handler.script, n)
      && request == RequestReported(handler.script, n)
    }

    method Run() returns (attempt: Attempt)
      modifies this, handler
      ensures forall n: nat :: old(IsAfter(n)) ==> IsAfter(n + 1) && attempt == handler.script(n + 1).attempt
      ensures handler.calls == old(handler.calls) + 1
    {
      attempts := attempts + 1;
      var call := handler.Execute();
      secrets := secrets + call.secrets;
      if call.request.Some? {
        request := call.request;
      }
      attempt := call.attempt;
    }
  }

  /**
   execute: attempts are made up to the first that is not followed by another, and that one is
   what the caller gets. Every attempt is one call of the handler; elapsed is the time taken.
   */
  method Execute(operation: Operation, policy: Policy) returns (r: Result, elapsed: nat)
    requires operation.IsAfter(0)
    modifies operation, operation.handler
    ensures var script := operation.handler.script; var made := Attempts(script, policy);
            && operation.IsAfter(made)
            && r == ResultOf(RaceAt(script, policy, made - 1), made)
            && elapsed == EndTime(script, policy, made - 1)
  {
    hide RaceOf, AttemptLimit, IsRetryable;
    ghost var script := operation.handler.script;
    var attempt := 0;
    elapsed := 0;
    while true
      invariant 0 <= attempt <= policy.retryCount
      invariant operation.IsAfter(attempt)
      invariant Attempts(script, policy) == AttemptsFrom(script, policy, attempt)
      invariant elapsed == StartTime(script, policy, attempt)
      decreases policy.retryCount - attempt
    {
      var made := operation.Run();
      attempt := attempt + 1;
      var race := RaceOf(made, AttemptLimit(policy, elapsed));
      assert race == RaceAt(script, policy, attempt - 1);
      if race.Hangs? {
        return Never, elapsed;
      }
      elapsed := elapsed + race.after;
      assert elapsed == EndTime(script, policy, attempt - 1);
      if race.outcome.Data? {
        return Returned(race.outcome.data, race.outcome.request, attempt), elapsed;
      }
      var error := race.outcome.error;
      if attempt > policy.retryCount || !IsRetryable(error, policy.retryOn) {
        return Thrown(error), elapsed;
      }
      var delay := DelayFor(attempt, policy);
      if policy.maxElapsedTime.Some? && delay >= policy.maxElapsedTime.value - elapsed {
        return Thrown(error), elapsed;
      }
      elapsed := elapsed + delay;
    }
  }

  // ----- Bounds -----

  /** Attempt n + 1 starts within the budget and within the timeouts and delays before it. */
  lemma {:induction false} StartIsBounded(script: nat -> Call, policy: Policy, n: nat)
    requires AllRetried(script, policy, n)
    ensures policy.maxElapsedTime.Some? ==> StartTime(script, policy, n) <= policy.maxElapsedTime.value
    ensures 0 < policy.requestTimeout ==>
              StartTime(script, policy, n) <= n * policy.requestTimeout + DelaySum(n, policy)
    decreases n, 0
  {
    if 0 < n {
      assert Retried(script, policy, n - 1);
      EndIsBounded(script, policy, n - 1);
    }
  }

  /** It settles within its timeout and the budget, unless neither is set. */
  lemma {:induction false} EndIsBounded(script: nat -> Call, policy: Policy, n: nat)
    requires AllRetried(script, policy, n)
    ensures RaceAt(script, policy, n).Hangs? ==> policy.requestTimeout == 0 && policy.maxElapsedTime.None?
    ensures policy.maxElapsedTime.Some? ==> EndTime(script, policy, n) <= policy.maxElapsedTime.value
    ensures 0 < policy.requestTimeout ==>
              EndTime(script, policy, n) <= (n + 1) * policy.requestTimeout + DelaySum(n, policy)
    decreases n, 1
  {
    StartIsBounded(script, policy, n);
  }

  lemma {:induction false} DelaySumMonotone(m: nat, n: nat, policy: Policy)
    requires m <= n
    ensures DelaySum(m, policy) <= DelaySum(n, policy)
    decreases n - m
  {
    if m < n {
      DelaySumMonotone(m, n - 1, policy);
    }
  }

  lemma TimesMonotone(a: nat, b: nat, c: nat)
    requires a <= b
    ensures a * c <= b * c
  {
  }

  /**
   The bounds a caller can compute from the policy alone: the last attempt settles, within the budget
   and within all timeouts and delays the policy allows.
   */
  lemma WorstCaseElapsed(script: nat -> Call, policy: Policy)
    ensures var last := Attempts(script, policy) - 1;
            && (0 < policy.requestTimeout || policy.maxElapsedTime.Some? ==> RaceAt(script, policy, last).Settles?)
            && (policy.maxElapsedTime.Some? ==> EndTime(script, policy, last) <= policy.maxElapsedTime.value)
            && (0 < policy.requestTimeout ==>
                  EndTime(script, policy, last)
                  <= (policy.retryCount + 1) * policy.requestTimeout + Waits(policy.retryCount, policy))
  {
    WaitsAreDelays(policy.retryCount, policy);
    var made := Attempts(script, policy);
    AttemptsMeaning(script, policy);
    EndIsBounded(script, policy, made - 1);
    TimesMonotone(made, policy.retryCount + 1, policy.requestTimeout);
    DelaySumMonotone(made - 1, policy.retryCount, policy);
  }

  /** A client error ends the retries, whatever the policy lists: if it is met, it is the last attempt. */
  lemma NoAttemptAfterClientError(script: nat -> Call, policy: Policy, i: nat, error: Error, after: nat)
    requires i < Attempts(script, policy) && RaceAt(script, policy, i) == Settles(Failed(error), after)
    requires error.AppError? && error.code.External? && error.details.Downstream?
    requires error.details.status.Some? && 400 <= error.details.status.value < 500
    ensures i == Attempts(script, policy) - 1
  {
    AttemptsMeaning(script, policy);
    var retried := Retried(script, policy, i);
  }

  // ----- In terms of the policy alone -----

  /** retryDelay * 2^k, or retryDelay, but at most 30 seconds. */
  function WaitAfter(k: nat, policy: Policy): nat {
    var wanted := if policy.exponential then policy.retryDelay * Pow2(k) else policy.retryDelay;
    if wanted <= 30000 then wanted else 30000
  }

  /** The powers of two: one, and twice as much each time. */
  lemma PowersOfTwo(m: nat, n: nat)
    ensures Pow2(0) == 1 && Pow2(1) == 2 && Pow2(m + n) == Pow2(m) * Pow2(n)
    decreases n
  {
    if 0 < n {
      PowersOfTwo(m, n - 1);
    }
  }

  /** The waits after the first n attempts. */
  function Waits(n: nat, policy: Policy): nat {
    if n == 0 then 0 else Waits(n - 1, policy) + WaitAfter(n - 1, policy)
  }

  lemma {:induction false} WaitsAreDelays(n: nat, policy: Policy)
    ensures Waits(n, policy) == DelaySum(n, policy)
  {
    if 0 < n {
      WaitsAreDelays(n - 1, policy);
    }
  }

  /** A timeout, a connection failure, or a downstream status in 500..599 that the policy lists. */
  predicate MayPass(error: Error, policy: Policy) {
    && error.AppError?
    && match error.code
       case Timeout => true
       case Connection => true
       case External =>
         error.details.Downstream? && exists status: int ::
           error.details.status == Some(status) && 500 <= status < 600 && status in policy.retryOn
       case _ => false
  }

  /** Attempt i + 1 is followed by another exactly when it failed with such an error, and a retry and time are left. */
  lemma AnotherAttemptExactlyWhen(script: nat -> Call, policy: Policy, i: nat)
    requires i < Attempts(script, policy)
    ensures var race, ended := RaceAt(script, policy, i), EndTime(script, policy, i);
            i + 1 < Attempts(script, policy)
            <==> && race.Settles? && race.outcome.Failed? && MayPass(race.outcome.error, policy)
                 && i < policy.retryCount
                 && (policy.maxElapsedTime.Some? ==> ended + WaitAfter(i, policy) < policy.maxElapsedTime.value)
  {
    AttemptsMeaning(script, policy);
    var retried := Retried(script, policy, i);
  }

  // ----- One attempt -----

  /** When the timer of an attempt that starts at this time fires, if it is set. */
  predicate TimerDue(policy: Policy, start: nat, at: nat) {
    || (0 < policy.requestTimeout && start + policy.requestTimeout <= at)
    || (policy.maxElapsedTime.Some? && policy.maxElapsedTime.value <= at)
  }

  /** An attempt that settles before its timer is due has its own outcome; one that does not by then times out. */
  lemma AttemptMeaning(script: nat -> Call, policy: Policy, i: nat)
    requires i < Attempts(script, policy)
    ensures var attempt, start := script(i + 1).attempt, StartTime(script, policy, i);
            var race := RaceAt(script, policy, i);
            match attempt.duration
            case Some(d) =>
              && (!TimerDue(policy, start, start + d) ==> race == Settles(attempt.outcome, d))
              && (d != 0 && TimerDue(policy, start, start + d - 1) ==>
                    race.Settles? && race.outcome == Failed(TIMEOUT_ERROR) && race.after < d
                    && TimerDue(policy, start, start + race.after))
            case None =>
              if policy.requestTimeout == 0 && policy.maxElapsedTime.None? then race.Hangs?
              else race.Settles? && race.outcome == Failed(TIMEOUT_ERROR) && TimerDue(policy, start, start + race.after)
  {
    AttemptsMeaning(script, policy);
    StartIsBounded(script, policy, i);
  }

  /** The time taken: that of all races, and of the waits between them. */
  lemma {:induction false} ElapsedIsSum(script: nat -> Call, policy: Policy, n: nat)
    ensures EndTime(script, policy, n) == RaceTimes(script, policy, n + 1) + Waits(n, policy)
    decreases n
  {
    if 0 < n {
      ElapsedIsSum(script, policy, n - 1);
    }
  }

  function RaceTimes(script: nat -> Call, policy: Policy, n: nat): nat {
    if n == 0 then 0
    else
      var race := RaceAt(script, policy, n - 1);
      RaceTimes(script, policy, n - 1) + (if race.Hangs? then 0 else race.after)
  }
}
