/**
 What comes of an evaluation (script-evaluator.ts, script-worker.ts): which of its possible ends it gets, and that
 no call the script still waits for is ever lost.
 */
module ScriptOutcomes {
  import opened Prelude
  import opened ScriptRpc

  // ----- Which ending -----

  /** What an event tells the host about the end: the script's last message, its deadline, or the worker's exit. */
  function SignalIn(s: System, e: Event): seq<Ending> {
    match e
    case HostTakes =>
      if s.toHost == [] then []
      else
        (match s.toHost[0]
         case Finished(true) => [Resolved]
         case Finished(false) => [ScriptFailed]
         case Rpc(_, _) => [])
    case Aborts => [Deadline]
    case WorkerExits => [EvaluationFailed]
    case _ => []
  }

  /** All that the host was told, in order; it may be told at the start that there is no worker to wait for. */
  function Signals(aborted: bool, constructs: bool, events: seq<Event>): seq<Ending>
    requires Run(Start(aborted, constructs), events).Some?
  {
    if events == [] then if aborted then [Deadline] else if constructs then [] else [EvaluationFailed]
    else
      var before := events[..|events| - 1];
      Signals(aborted, constructs, before)
      + SignalIn(Run(Start(aborted, constructs), before).value, events[|events| - 1])
  }

  lemma SignalSettles(s: System, e: Event)
    requires Enabled(s, e) && SettlesOnce(s.host)
    ensures var told := s.host.endings + SignalIn(s, e);
            Step(s, e).host.endings == if told == [] then [] else [told[0]]
  {
  }

  /** In every run the evaluation ends as the first signal says, and is open as long as there is none. */
  lemma {:induction false} FirstSignalDecides(aborted: bool, constructs: bool, events: seq<Event>)
    requires Run(Start(aborted, constructs), events).Some?
    ensures var signals := Signals(aborted, constructs, events);
            var host := Run(Start(aborted, constructs), events).value.host;
            host.endings == (if signals == [] then [] else [signals[0]]) && (host.settled <==> signals != [])
    decreases |events|
  {
    if events != [] {
      var before, e := events[..|events| - 1], events[|events| - 1];
      FirstSignalDecides(aborted, constructs, before);
      var s := Run(Start(aborted, constructs), before).value;
      var owner := RunKeeps(aborted, constructs, before);
      var after := RunKeeps(aborted, constructs, events);
      SignalSettles(s, e);
      hide Inv, Step, Enabled, SignalIn;
    }
  }

  // ----- No call is lost -----

  /** Every call without a result is waited for under an id that was issued. */
  ghost predicate AllAwaited(w: WorkerState) {
    && (forall id :: id in w.pending ==> id < w.nextRpcId)
    && (forall c :: 0 <= c < |w.calls| && w.calls[c].result.None? ==> IsAwaited(w, c))
  }

  ghost predicate IsAwaited(w: WorkerState, c: nat) {
    exists id :: id in w.pending && w.pending[id] == c
  }

  /** The ids waited for are exactly those on their way, each once. */
  ghost predicate NothingLost(s: System) {
    AllAwaited(s.worker) && Traffic(s) == multiset(s.worker.pending.Keys)
  }

  lemma CallIsAwaited(w: WorkerState, params: Params, serializable: bool)
    requires AllAwaited(w)
    ensures AllAwaited(WorkerCalls(w, params, serializable).0)
    ensures multiset(WorkerCalls(w, params, serializable).0.pending.Keys)
         == multiset(w.pending.Keys) + (if serializable then multiset{w.nextRpcId} else multiset{})
  {
    var t := WorkerCalls(w, params, serializable).0;
    if serializable {
      var id := w.nextRpcId;
      assert t.pending.Keys == w.pending.Keys + {id};
      assert t.pending[id] == |w.calls|;
    }
    forall c | 0 <= c < |t.calls| && t.calls[c].result.None? ensures IsAwaited(t, c) {
      if c < |w.calls| {
        var i :| i in w.pending && w.pending[i] == c;
        assert t.pending[i] == c;
      }
    }
  }

  lemma CallLosesNothing(s: System, params: Params, serializable: bool)
    requires NothingLost(s) && Enabled(s, ScriptCalls(params, serializable))
    ensures NothingLost(Step(s, ScriptCalls(params, serializable)))
  {
    CallTraffic(s, params, serializable);
    CallIsAwaited(s.worker, params, serializable);
    hide Traffic, AllAwaited, WorkerCalls;
  }

  lemma AnswerTravels(s: System, i: nat, body: nat)
    requires Enabled(s, BridgeAnswers(i, body)) && !s.host.settled
    ensures Traffic(Step(s, BridgeAnswers(i, body))) == Traffic(s)
  {
    hide RequestIds, HandlingIds;
    var h := s.host.handling;
    HandledIsOneLess(h, i);
    ReplyIdsAppend(s.toWorker, Reply(h[i].0, Answer(h[i].1, body)));
  }

  lemma TakenReply(s: System)
    requires s.toWorker != []
    ensures Traffic(s) == Traffic(s.(toWorker := s.toWorker[1..])) + multiset{s.toWorker[0].id}
  {
  }

  lemma ReplyIsTaken(w: WorkerState, reply: Reply, owner: map<nat, nat>)
    requires AllAwaited(w) && Owns(w, owner) && reply.id in w.pending
    ensures AllAwaited(WorkerReceives(w, reply))
    ensures multiset(w.pending.Keys) == multiset(WorkerReceives(w, reply).pending.Keys) + multiset{reply.id}
  {
    var t := WorkerReceives(w, reply);
    assert t.pending.Keys == w.pending.Keys - {reply.id};
    forall c | 0 <= c < |t.calls| && t.calls[c].result.None? ensures IsAwaited(t, c) {
      assert w.calls[c].result.None?;
      var i :| i in w.pending && w.pending[i] == c;
      assert i != reply.id;
      assert t.pending[i] == c;
    }
  }

  lemma ReplyLosesNothing(s: System, owner: map<nat, nat>)
    requires NothingLost(s) && Enabled(s, WorkerTakes) && Owns(s.worker, owner)
    ensures NothingLost(Step(s, WorkerTakes))
  {
    var t, reply := Step(s, WorkerTakes), s.toWorker[0];
    TakenReply(s);
    SameTraffic(t, s.(toWorker := s.toWorker[1..]));
    assert t.worker == WorkerReceives(s.worker, reply);
    hide Traffic, AllAwaited, Owns, WorkerReceives, Step;
    assert reply.id in multiset(s.worker.pending.Keys);
    ReplyIsTaken(s.worker, reply, owner);
    SameRest(Traffic(t), multiset(t.worker.pending.Keys), reply.id);
  }

  lemma SameRest(a: multiset<nat>, b: multiset<nat>, id: nat)
    requires a + multiset{id} == b + multiset{id}
    ensures a == b
  {
    assert a == a + multiset{id} - multiset{id};
    assert b == b + multiset{id} - multiset{id};
  }

  lemma SameTraffic(s: System, t: System)
    requires s.toHost == t.toHost && s.host == t.host && s.toWorker == t.toWorker
    ensures Traffic(s) == Traffic(t)
  {
  }

  lemma StepLosesNothing(s: System, e: Event, owner: map<nat, nat>)
    requires Inv(s, owner) && NothingLost(s) && Enabled(s, e) && !Step(s, e).host.settled
    ensures NothingLost(Step(s, e))
  {
    assert Owns(s.worker, owner);
    hide Inv;
    match e
    case ScriptCalls(params, serializable) => CallLosesNothing(s, params, serializable);
    case ScriptEnds(ok) => RequestIdsAppend(s.toHost, Finished(ok));
    case HostTakes => TakeTraffic(s);
    case BridgeAnswers(i, body) => AnswerTravels(s, i, body);
    case WorkerTakes => ReplyLosesNothing(s, owner);
    case _ =>
  }

  /**
   As long as the evaluation is open, every call the script waits for is on its way: requested, handled or answered,
   under an id of its own, and nothing else is.
   */
  lemma {:induction false} NoCallIsLost(aborted: bool, constructs: bool, events: seq<Event>)
    requires Run(Start(aborted, constructs), events).Some?
    requires !Run(Start(aborted, constructs), events).value.host.settled
    ensures NothingLost(Run(Start(aborted, constructs), events).value)
    decreases |events|
  {
    if events != [] {
      var before, e := events[..|events| - 1], events[|events| - 1];
      var s := Run(Start(aborted, constructs), before).value;
      if s.host.settled {
        SettledIsFinal(s, e);
      } else {
        NoCallIsLost(aborted, constructs, before);
        var owner := RunKeeps(aborted, constructs, before);
        hide Inv, NothingLost, Step, Enabled;
        StepLosesNothing(s, e, owner);
      }
    }
  }
}
