/**
 The RPC between a script worker (script-worker.ts) and its evaluation on the host
 (script-evaluator.ts). Worker and host run concurrently and exchange messages; the steps are the
 message and event handlers, and a run is any interleaving of them.
 */
module ScriptRpc {
  import opened Prelude

  /** The JSON text of a call's parameters. */
  type Params = nat

  /** A response: computed by the bridge for some parameters, or made up locally by the worker. */
  datatype Envelope = Answer(params: Params, body: nat) | NotSerializable

  /** A call the script made through the apiconfy tools. */
  datatype Call = Call(params: Params, serializable: bool, result: Option<Envelope>, resolutions: nat)

  datatype Request = Rpc(id: nat, params: Params) | Finished(ok: bool)

  datatype Reply = Reply(id: nat, envelope: Envelope)

  // ----- Worker steps (rpc, onmessage) -----

  datatype WorkerState = WorkerState(nextRpcId: nat, pending: map<nat, nat>, calls: seq<Call>)

  const FRESH_WORKER := WorkerState(1, map[], [])

  function Resolve(calls: seq<Call>, c: nat, envelope: Envelope): seq<Call>
    requires c < |calls|
  {
    calls[c := calls[c].(result := Some(envelope), resolutions := calls[c].resolutions + 1)]
  }

  /** rpc(): a call that cannot be serialized is resolved at once, any other is posted under a new id. */
  function WorkerCalls(w: WorkerState, params: Params, serializable: bool): (WorkerState, seq<Request>) {
    if !serializable then
      (w.(calls := w.calls + [Call(params, false, Some(NotSerializable), 1)]), [])
    else
      (w.(nextRpcId := w.nextRpcId + 1, pending := w.pending[w.nextRpcId := |w.calls|],
          calls := w.calls + [Call(params, true, None, 0)]),
       [Rpc(w.nextRpcId, params)])
  }

  /** onmessage with an rpc-result: a reply nobody waits for is ignored. */
  function WorkerReceives(w: WorkerState, reply: Reply): WorkerState {
    if reply.id !in w.pending then w
    else
      var c := w.pending[reply.id];
      w.(pending := w.pending - {reply.id},
         calls := if c < |w.calls| then Resolve(w.calls, c, reply.envelope) else w.calls)
  }

  class ScriptWorker {
    var nextRpcId: nat
    var pending: map<nat, nat>
    var calls: seq<Call>

    ghost function Abs(): WorkerState
      reads this
    {
      WorkerState(nextRpcId, pending, calls)
    }

    constructor ()
      ensures Abs() == FRESH_WORKER
    {
      nextRpcId, pending, calls := 1, map[], [];
    }

    method DoRpc(params: Params, serializable: bool) returns (posted: seq<Request>)
      modifies this
      ensures (Abs(), posted) == WorkerCalls(old(Abs()), params, serializable)
    {
      if !serializable {
        calls := calls + [Call(params, false, Some(NotSerializable), 1)];
        return [];
      }
      var id := nextRpcId;
      nextRpcId := nextRpcId + 1;
      pending := pending[id := |calls|];
      calls := calls + [Call(params, true, None, 0)];
      posted := [Rpc(id, params)];
    }

    method OnMessage(reply: Reply)
      modifies this
      ensures Abs() == WorkerReceives(old(Abs()), reply)
    {
      if reply.id in pending {
        var c := pending[reply.id];
        pending := pending - {reply.id};
        if c < |calls| {
          calls := calls[c := calls[c].(result := Some(reply.envelope), resolutions := calls[c].resolutions + 1)];
        }
      }
    }
  }

  // ----- Host steps (WorkerScriptEvaluator.evaluate) -----

  datatype Ending = Resolved | Deadline | ScriptFailed | EvaluationFailed

  /** started: the worker was constructed. handling: handleRpc frames awaiting the bridge. */
  datatype HostState = HostState(
    started: bool,
    settled: bool,
    endings: seq<Ending>,
    terminations: nat,
    handling: seq<(nat, Params)>)

  const FRESH_HOST := HostState(false, false, [], 0, [])

  function Finish(h: HostState, ending: Ending): HostState {
    if h.settled then h
    else h.(settled := true, terminations := h.terminations + 1, endings := h.endings + [ending])
  }

  /** The promise executor up to the first message: an aborted or unconstructible worker rejects at once. */
  function HostBegins(h: HostState, aborted: bool, constructs: bool): HostState {
    if aborted then h.(settled := true, endings := h.endings + [Deadline])
    else if !constructs then h.(settled := true, endings := h.endings + [EvaluationFailed])
    else h.(started := true)
  }

  function HostReceives(h: HostState, request: Request): HostState {
    match request
    case Rpc(id, params) => h.(handling := h.handling + [(id, params)])
    case Finished(ok) => Finish(h, if ok then Resolved else ScriptFailed)
  }

  /** handleRpc after the bridge: the reply is posted only while the evaluation is alive. */
  function HostReplies(h: HostState, i: nat, body: nat): (HostState, seq<Reply>)
    requires i < |h.handling|
  {
    var (id, params) := h.handling[i];
    (h.(handling := h.handling[..i] + h.handling[i + 1..]), if h.settled then [] else [Reply(id, Answer(params, body))])
  }

  class Evaluation {
    var started: bool
    var settled: bool
    var handling: seq<(nat, Params)>
    ghost var endings: seq<Ending>
    ghost var terminations: nat

    ghost function Abs(): HostState
      reads this
    {
      HostState(started, settled, endings, terminations, handling)
    }

    constructor (aborted: bool, constructs: bool)
      ensures Abs() == HostBegins(FRESH_HOST, aborted, constructs)
    {
      started, settled, handling := false, false, [];
      endings, terminations := [], 0;
      new;
      if aborted {
        settled, endings := true, [Deadline];
      } else if !constructs {
        settled, endings := true, [EvaluationFailed];
      } else {
        started := true;
      }
    }

    method DoFinish(ending: Ending)
      modifies this
      ensures Abs() == Finish(old(Abs()), ending)
    {
      if settled {
        return;
      }
      settled := true;
      terminations := terminations + 1;
      endings := endings + [ending];
    }

    method OnMessage(request: Request)
      modifies this
      ensures Abs() == HostReceives(old(Abs()), request)
    {
      match request
      case Rpc(id, params) =>
        handling := handling + [(id, params)];
      case Finished(ok) =>
        DoFinish(if ok then Resolved else ScriptFailed);
    }

    method OnBridgeAnswer(i: nat, body: nat) returns (posted: seq<Reply>)
      requires i < |handling|
      modifies this
      ensures (Abs(), posted) == HostReplies(old(Abs()), i, body)
    {
      var (id, params) := handling[i];
      handling := handling[..i] + handling[i + 1..];
      posted := [];
      if !settled {
        posted := [Reply(id, Answer(params, body))];
      }
    }
  }

  // ----- Interleavings -----

  datatype System = System(worker: WorkerState, host: HostState, toHost: seq<Request>, toWorker: seq<Reply>)

  datatype Event =
    | ScriptCalls(params: Params, serializable: bool)
    | ScriptEnds(ok: bool)
    | HostTakes
    | BridgeAnswers(index: nat, body: nat)
    | WorkerTakes
    | Aborts
    | WorkerExits

  predicate Enabled(s: System, e: Event) {
    && s.host.started
    && match e
       case ScriptCalls(_, _) => !s.host.settled
       case ScriptEnds(_) => !s.host.settled
       case HostTakes => s.toHost != []
       case BridgeAnswers(i, _) => i < |s.host.handling|
       case WorkerTakes => s.toWorker != [] && !s.host.settled
       case Aborts => true
       case WorkerExits => true
  }

  function Step(s: System, e: Event): System
    requires Enabled(s, e)
  {
    match e
    case ScriptCalls(params, serializable) =>
      var (w, posted) := WorkerCalls(s.worker, params, serializable);
      s.(worker := w, toHost := s.toHost + posted)
    case ScriptEnds(ok) => s.(toHost := s.toHost + [Finished(ok)])
    case HostTakes => s.(host := HostReceives(s.host, s.toHost[0]), toHost := s.toHost[1..])
    case BridgeAnswers(i, body) =>
      var (h, posted) := HostReplies(s.host, i, body);
      s.(host := h, toWorker := s.toWorker + posted)
    case WorkerTakes => s.(worker := WorkerReceives(s.worker, s.toWorker[0]), toWorker := s.toWorker[1..])
    case Aborts => s.(host := Finish(s.host, Deadline))
    case WorkerExits => s.(host := Finish(s.host, EvaluationFailed))
  }

  function Start(aborted: bool, constructs: bool): System {
    System(FRESH_WORKER, HostBegins(FRESH_HOST, aborted, constructs), [], [])
  }

  function Run(start: System, events: seq<Event>): Option<System> {
    if events == [] then Some(start)
    else
      var before := Run(start, events[..|events| - 1]);
      var e := events[|events| - 1];
      if before.None? || !Enabled(before.value, e) then None else Some(Step(before.value, e))
  }

  // ----- Invariants -----

  /** The id was issued, and to a call with these parameters. */
  predicate IssuedFor(w: WorkerState, id: nat, params: Params, owner: map<nat, nat>) {
    id < w.nextRpcId && id in owner && owner[id] < |w.calls| && w.calls[owner[id]].params == params
  }

  /** owner maps every id ever issued to the one call it was issued for. */
  ghost predicate Owns(w: WorkerState, owner: map<nat, nat>) {
    && (forall id :: id in owner ==> id < w.nextRpcId && owner[id] < |w.calls| && w.calls[owner[id]].serializable)
    && (forall a, b :: a in owner && b in owner && owner[a] == owner[b] ==> a == b)
    && (forall id :: id in w.pending ==>
        id in owner && owner[id] == w.pending[id] && w.calls[owner[id]].resolutions == 0)
  }

  /** Each call is resolved at most once, and with the envelope for its own parameters. */
  predicate ResolvedRight(call: Call) {
    && call.resolutions == (if call.result.Some? then 1 else 0)
    && (call.result.Some? ==> IsOwnEnvelope(call, call.result.value))
  }

  predicate IsOwnEnvelope(call: Call, envelope: Envelope) {
    if call.serializable then envelope.Answer? && envelope.params == call.params else envelope.NotSerializable?
  }

  ghost predicate CallsRight(w: WorkerState) {
    forall c :: 0 <= c < |w.calls| ==> ResolvedRight(w.calls[c])
  }

  /** Every message in transit carries the parameters of the call its id was issued for. */
  ghost predicate InTransitRight(s: System, owner: map<nat, nat>) {
    && (forall i :: 0 <= i < |s.toHost| && s.toHost[i].Rpc? ==>
        IssuedFor(s.worker, s.toHost[i].id, s.toHost[i].params, owner))
    && (forall i :: 0 <= i < |s.host.handling| ==>
        IssuedFor(s.worker, s.host.handling[i].0, s.host.handling[i].1, owner))
    && (forall i :: 0 <= i < |s.toWorker| ==>
          s.toWorker[i].envelope.Answer? && IssuedFor(s.worker, s.toWorker[i].id, s.toWorker[i].envelope.params, owner))
  }

  /** The evaluation settles at most once; a started worker is terminated exactly when it settles. */
  predicate SettlesOnce(h: HostState) {
    && |h.endings| == (if h.settled then 1 else 0)
    && h.terminations == (if h.started && h.settled then 1 else 0)
  }

  ghost predicate Inv(s: System, owner: map<nat, nat>) {
    Owns(s.worker, owner) && CallsRight(s.worker) && InTransitRight(s, owner) && SettlesOnce(s.host)
  }

  lemma CallOwns(w: WorkerState, owner: map<nat, nat>, params: Params)
    requires Owns(w, owner) && CallsRight(w)
    ensures w.nextRpcId !in owner
    ensures var t := WorkerCalls(w, params, true).0;
            Owns(t, owner[w.nextRpcId := |w.calls|]) && CallsRight(t)
  {
    var t := WorkerCalls(w, params, true).0;
    assert forall c :: 0 <= c < |w.calls| ==> t.calls[c] == w.calls[c];
  }

  lemma CallKeeps(s: System, owner: map<nat, nat>, params: Params) returns (next: map<nat, nat>)
    requires Inv(s, owner) && Enabled(s, ScriptCalls(params, true))
    ensures Inv(Step(s, ScriptCalls(params, true)), next)
    ensures s.worker.nextRpcId !in owner && next == owner[s.worker.nextRpcId := |s.worker.calls|]
  {
    var w, id := s.worker, s.worker.nextRpcId;
    next := owner[id := |w.calls|];
    CallOwns(w, owner, params);
    var quiet := s.(worker := WorkerCalls(w, params, true).0);
    assert IssuedFor(quiet.worker, id, params, next);
  }

  lemma ReplyKeeps(s: System, owner: map<nat, nat>)
    requires Inv(s, owner) && Enabled(s, WorkerTakes)
    ensures Inv(Step(s, WorkerTakes), owner)
  {
    var t := Step(s, WorkerTakes);
    var w, reply := s.worker, s.toWorker[0];
    assert forall c :: 0 <= c < |w.calls| ==>
        t.worker.calls[c].params == w.calls[c].params && t.worker.calls[c].serializable == w.calls[c].serializable;
    if reply.id in w.pending {
      var c := w.pending[reply.id];
      assert t.worker.calls == Resolve(w.calls, c, reply.envelope);
      assert forall d :: 0 <= d < |w.calls| && d != c ==> t.worker.calls[d] == w.calls[d];
      assert ResolvedRight(t.worker.calls[c]);
    }
    assert CallsRight(t.worker);
    assert Owns(t.worker, owner);
  }

  lemma HostKeeps(s: System, owner: map<nat, nat>, e: Event)
    requires Inv(s, owner) && Enabled(s, e) && !e.ScriptCalls? && !e.WorkerTakes?
    ensures Inv(Step(s, e), owner)
  {
    var t := Step(s, e);
    assert t.worker == s.worker;
    if e.BridgeAnswers? {
      assert forall i :: 0 <= i < |t.host.handling| ==> t.host.handling[i] in s.host.handling;
    }
  }

  /** Every step keeps the invariant, and never gives an issued id to another call. */
  lemma StepKeeps(s: System, owner: map<nat, nat>, e: Event) returns (next: map<nat, nat>)
    requires Inv(s, owner) && Enabled(s, e)
    ensures Inv(Step(s, e), next)
    ensures forall id :: id in owner ==> id in next && next[id] == owner[id]
  {
    next := owner;
    match e
    case ScriptCalls(params, serializable) =>
      if serializable {
        next := CallKeeps(s, owner, params);
      }
    case WorkerTakes => ReplyKeeps(s, owner);
    case _ => HostKeeps(s, owner, e);
  }

  /** Any interleaving: ids are unique, calls get their own answers at most once, the host settles once. */
  lemma {:induction false} RunKeeps(aborted: bool, constructs: bool, events: seq<Event>) returns (owner: map<nat, nat>)
    requires Run(Start(aborted, constructs), events).Some?
    ensures Inv(Run(Start(aborted, constructs), events).value, owner)
    decreases |events|
  {
    owner := map[];
    if events != [] {
      var before := events[..|events| - 1];
      owner := RunKeeps(aborted, constructs, before);
      owner := StepKeeps(Run(Start(aborted, constructs), before).value, owner, events[|events| - 1]);
    }
  }

  /** What the script sees: its resolved call carries the answer to its own parameters. */
  lemma ResolvedCallHasOwnAnswer(aborted: bool, constructs: bool, events: seq<Event>, c: nat)
    requires Run(Start(aborted, constructs), events).Some?
    requires c < |Run(Start(aborted, constructs), events).value.worker.calls|
    ensures var call := Run(Start(aborted, constructs), events).value.worker.calls[c];
            && call.resolutions <= 1
            && (call.result.Some? && call.serializable ==>
                  call.result.value.Answer? && call.result.value.params == call.params)
            && (call.result.Some? && !call.serializable ==> call.result.value == NotSerializable)
  {
    var owner := RunKeeps(aborted, constructs, events);
    var call := Run(Start(aborted, constructs), events).value.worker.calls[c];
    assert ResolvedRight(call);
  }

  /** Once settled nothing is posted to the worker, and the ending stands. */
  lemma SettledIsFinal(s: System, e: Event)
    requires Enabled(s, e) && s.host.settled
    ensures var t := Step(s, e);
            && t.host.settled && t.host.endings == s.host.endings && t.host.terminations == s.host.terminations
            && t.toWorker == s.toWorker && t.worker == s.worker
  {
  }

  // ----- Each id is in one place -----

  function RequestIds(requests: seq<Request>): multiset<nat> {
    if requests == [] then multiset{}
    else (if requests[0].Rpc? then multiset{requests[0].id} else multiset{}) + RequestIds(requests[1..])
  }

  function HandlingIds(handling: seq<(nat, Params)>): multiset<nat> {
    if handling == [] then multiset{} else multiset{handling[0].0} + HandlingIds(handling[1..])
  }

  function ReplyIds(replies: seq<Reply>): multiset<nat> {
    if replies == [] then multiset{} else multiset{replies[0].id} + ReplyIds(replies[1..])
  }

  /** Every id on its way: requested, being handled or answered. */
  function Traffic(s: System): multiset<nat> {
    RequestIds(s.toHost) + HandlingIds(s.host.handling) + ReplyIds(s.toWorker)
  }

  lemma {:induction false} RequestIdsAppend(requests: seq<Request>, x: Request)
    ensures RequestIds(requests + [x]) == RequestIds(requests) + (if x.Rpc? then multiset{x.id} else multiset{})
    decreases |requests|
  {
    if requests == [] {
      assert [x][1..] == [] && requests + [x] == [x];
    } else {
      assert (requests + [x])[1..] == requests[1..] + [x];
      RequestIdsAppend(requests[1..], x);
    }
  }

  lemma {:induction false} HandlingIdsConcat(a: seq<(nat, Params)>, b: seq<(nat, Params)>)
    ensures HandlingIds(a + b) == HandlingIds(a) + HandlingIds(b)
    decreases |a|
  {
    if a == [] {
      assert a + b == b;
    } else {
      assert (a + b)[1..] == a[1..] + b;
      HandlingIdsConcat(a[1..], b);
    }
  }

  lemma {:induction false} ReplyIdsAppend(replies: seq<Reply>, x: Reply)
    ensures ReplyIds(replies + [x]) == ReplyIds(replies) + multiset{x.id}
    decreases |replies|
  {
    if replies == [] {
      assert [x][1..] == [] && replies + [x] == [x];
    } else {
      assert (replies + [x])[1..] == replies[1..] + [x];
      ReplyIdsAppend(replies[1..], x);
    }
  }

  lemma OneHandling(x: (nat, Params))
    ensures HandlingIds([x]) == multiset{x.0}
  {
    assert [x][1..] == [];
  }

  lemma CallTraffic(s: System, params: Params, serializable: bool)
    requires Enabled(s, ScriptCalls(params, serializable))
    ensures Traffic(Step(s, ScriptCalls(params, serializable)))
         == Traffic(s) + (if serializable then multiset{s.worker.nextRpcId} else multiset{})
  {
    if serializable {
      RequestIdsAppend(s.toHost, Rpc(s.worker.nextRpcId, params));
    } else {
      assert s.toHost + [] == s.toHost;
    }
  }

  lemma TakeTraffic(s: System)
    requires Enabled(s, HostTakes)
    ensures Traffic(Step(s, HostTakes)) == Traffic(s)
  {
    hide ReplyIds;
    if s.toHost[0].Rpc? {
      var x := (s.toHost[0].id, s.toHost[0].params);
      HandlingIdsConcat(s.host.handling, [x]);
      OneHandling(x);
    }
  }

  lemma HandledIsOneLess(h: seq<(nat, Params)>, i: nat)
    requires i < |h|
    ensures HandlingIds(h) == HandlingIds(h[..i] + h[i + 1..]) + multiset{h[i].0}
  {
    hide HandlingIds;
    assert h == h[..i] + ([h[i]] + h[i + 1..]);
    HandlingIdsConcat(h[..i], [h[i]] + h[i + 1..]);
    HandlingIdsConcat([h[i]], h[i + 1..]);
    HandlingIdsConcat(h[..i], h[i + 1..]);
    OneHandling(h[i]);
  }

  lemma AnswerTraffic(s: System, i: nat, body: nat)
    requires Enabled(s, BridgeAnswers(i, body))
    ensures Traffic(Step(s, BridgeAnswers(i, body))) <= Traffic(s)
  {
    hide RequestIds, HandlingIds;
    var h := s.host.handling;
    HandledIsOneLess(h, i);
    ReplyIdsAppend(s.toWorker, Reply(h[i].0, Answer(h[i].1, body)));
    assert s.toWorker + [] == s.toWorker;
  }

  /** A step moves ids along: only a call brings a new one, a reply taken or dropped removes one. */
  lemma StepTraffic(s: System, e: Event)
    requires Enabled(s, e)
    ensures Traffic(Step(s, e))
         <= Traffic(s) + (if e.ScriptCalls? && e.serializable then multiset{s.worker.nextRpcId} else multiset{})
  {
    match e
    case ScriptCalls(params, serializable) => CallTraffic(s, params, serializable);
    case ScriptEnds(ok) => RequestIdsAppend(s.toHost, Finished(ok));
    case HostTakes => TakeTraffic(s);
    case BridgeAnswers(i, body) => AnswerTraffic(s, i, body);
    case _ =>
  }

  predicate OnePlaceEach(s: System) {
    && 1 <= s.worker.nextRpcId
    && forall id :: id in Traffic(s) ==> Traffic(s)[id] == 1 && id < s.worker.nextRpcId
  }

  /** In every reachable state each id travels at most once: no request is handled or answered twice. */
  lemma {:induction false} RunTraffic(aborted: bool, constructs: bool, events: seq<Event>)
    requires Run(Start(aborted, constructs), events).Some?
    ensures OnePlaceEach(Run(Start(aborted, constructs), events).value)
    decreases |events|
  {
    if events != [] {
      var before := events[..|events| - 1];
      RunTraffic(aborted, constructs, before);
      var s, e := Run(Start(aborted, constructs), before).value, events[|events| - 1];
      StepTraffic(s, e);
      var t := Step(s, e);
      assert s.worker.nextRpcId !in Traffic(s);
      forall id | id in Traffic(t) ensures Traffic(t)[id] == 1 && id < t.worker.nextRpcId {
      }
    }
  }
}
