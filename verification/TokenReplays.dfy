/**
 What an execution does with the responses it gets (rest.component.ts): a first 401 is always answered by a
 replay, and nothing else is, read off the events of any run.
 */
module TokenReplays {
  import opened Prelude
  import opened TokenCache

  /** What the dispatches of execution x came to, in order: true for a 401, false for any other response or none. */
  function Responses(events: seq<Event>, x: nat): seq<bool> {
    if events == [] then []
    else
      var e := events[|events| - 1];
      Responses(events[..|events| - 1], x) + (if e.Responds? && e.x == x then [e.unauthorized] else [])
  }

  /** A fetch of the key, not among the first ones, has failed. */
  ghost predicate FailedSince(s: State, key: Key, first: nat) {
    exists f :: first <= f < |s.fetches| && s.fetches[f].key == key && s.fetches[f].status == Failed
  }

  /** Where an execution is after these responses; it ends without a response only if the token it awaits fails. */
  ghost predicate IsAt(s: State, run: Execution, responses: seq<bool>) {
    match run.phase
    case AwaitToken(_) => responses == [] && run.requests == 0
    case AwaitResponse(_) => responses == [] && run.requests == 1
    case Cancelling(_) => responses == [true] && run.requests == 1
    case AwaitFreshToken(_) => responses == [true] && run.requests == 1
    case AwaitReplay(_) => responses == [true] && run.requests == 2
    case Done =>
      || (responses == [] && run.requests == 0 && FailedSince(s, run.key, 0))
      || (responses == [false] && run.requests == 1)
      || (responses == [true] && run.requests == 1 && FailedSince(s, run.key, run.fetchesAt401))
      || (|responses| == 2 && responses[0] && run.requests == 2)
  }

  lemma FailureStays(s: State, t: State, key: Key, first: nat)
    requires FailedSince(s, key, first) && |s.fetches| <= |t.fetches|
    requires forall f :: 0 <= f < |s.fetches| && s.fetches[f].status.Failed? ==>
               t.fetches[f].key == s.fetches[f].key && t.fetches[f].status.Failed?
    ensures FailedSince(t, key, first)
  {
    var f :| first <= f < |s.fetches| && s.fetches[f].key == key && s.fetches[f].status == Failed;
    assert t.fetches[f].status == Failed;
  }

  /** Failures are final. */
  lemma StepKeepsFailures(s: State, e: Event, key: Key, first: nat)
    requires Enabled(s, e) && FailedSince(s, key, first)
    ensures FailedSince(Step(s, e), key, first)
  {
    var t := Step(s, e);
    FailureStays(s, t, key, first);
  }

  /** The events an execution takes part in. */
  predicate Concerns(e: Event, x: nat) {
    (e.TokenReady? || e.Responds? || e.Replays?) && e.x == x
  }

  lemma OthersStay(s: State, e: Event, x: nat)
    requires Enabled(s, e) && x < |s.executions| && !Concerns(e, x)
    ensures x < |Step(s, e).executions| && Step(s, e).executions[x] == s.executions[x]
  {
  }

  lemma TokenReadyMoves(s: State, x: nat, responses: seq<bool>)
    requires Inv(s) && Enabled(s, TokenReady(x)) && IsAt(s, s.executions[x], responses)
    ensures var t := Step(s, TokenReady(x)); IsAt(t, t.executions[x], responses)
  {
    var t, run := Step(s, TokenReady(x)), s.executions[x];
    assert ExecutionRight(s, run);
    var f := run.phase.fetch;
    assert t.fetches[f] == s.fetches[f];
    assert t.executions[x].phase.Done? ==> s.fetches[f].status == Failed;
  }

  lemma ResponseMoves(s: State, x: nat, unauthorized: bool, responses: seq<bool>)
    requires Enabled(s, Responds(x, unauthorized)) && IsAt(s, s.executions[x], responses)
    ensures var t := Step(s, Responds(x, unauthorized)); IsAt(t, t.executions[x], responses + [unauthorized])
  {
  }

  lemma ReplayMoves(s: State, x: nat, responses: seq<bool>)
    requires Enabled(s, Replays(x)) && IsAt(s, s.executions[x], responses)
    ensures var t := Step(s, Replays(x)); IsAt(t, t.executions[x], responses)
  {
  }

  lemma StepMoves(s: State, e: Event, x: nat, responses: seq<bool>)
    requires Inv(s) && Enabled(s, e) && x < |s.executions| && IsAt(s, s.executions[x], responses)
    ensures var t := Step(s, e);
            && x < |t.executions|
            && IsAt(t, t.executions[x], responses + (if e.Responds? && e.x == x then [e.unauthorized] else []))
  {
    if Concerns(e, x) {
      assert responses + [] == responses;
      match e
      case TokenReady(_) => TokenReadyMoves(s, x, responses);
      case Responds(_, unauthorized) => ResponseMoves(s, x, unauthorized, responses);
      case Replays(_) => ReplayMoves(s, x, responses);
    } else {
      hide Inv;
      OthersStay(s, e, x);
      var run := s.executions[x];
      if FailedSince(s, run.key, 0) {
        StepKeepsFailures(s, e, run.key, 0);
      }
      if FailedSince(s, run.key, run.fetchesAt401) {
        StepKeepsFailures(s, e, run.key, run.fetchesAt401);
      }
      hide Step, Enabled;
      assert responses + [] == responses;
    }
  }

  lemma {:induction false} NotBegunNoResponse(events: seq<Event>, x: nat)
    requires Run(events).Some? && |Run(events).value.executions| <= x
    ensures Responses(events, x) == []
    decreases |events|
  {
    if events != [] {
      var before, e := events[..|events| - 1], events[|events| - 1];
      assert |Run(before).value.executions| <= |Run(events).value.executions|;
      NotBegunNoResponse(before, x);
    }
  }

  /**
   In every run: an execution that got a 401 and nothing since is replaying or about to, unless the fresh token it
   asked for failed; it ends at once on any other first response, and on whatever the replay is answered.
   */
  lemma {:induction false} FirstUnauthorizedIsReplayed(events: seq<Event>, x: nat)
    requires Run(events).Some? && x < |Run(events).value.executions|
    ensures IsAt(Run(events).value, Run(events).value.executions[x], Responses(events, x))
    decreases |events|
  {
    var before, e := events[..|events| - 1], events[|events| - 1];
    var s := Run(before).value;
    if x < |s.executions| {
      FirstUnauthorizedIsReplayed(before, x);
      RunKeeps(before);
      hide Inv, Step, Enabled, IsAt;
      StepMoves(s, e, x, Responses(before, x));
    } else {
      NotBegunNoResponse(before, x);
      assert e.Begins?;
    }
  }
}
