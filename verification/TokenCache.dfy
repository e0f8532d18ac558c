/**
 The OAuth2 token cache (authenticator.ts) under concurrent REST executions (rest.component.ts).
 A cached entry is a token fetch, still in flight or done; the code between two awaits is one step.
 */
module TokenCache {
  import opened Prelude

  /** cacheKey(config): equal exactly for equal configurations. */
  type Key = nat

  datatype FetchStatus = InFlight | Succeeded | Failed

  /** evicted: its rejection handler removed it from the cache. */
  datatype Fetch = Fetch(key: Key, status: FetchStatus, caught: bool, evicted: bool)

  datatype Phase =
    | AwaitToken(fetch: nat)
    | AwaitResponse(fetch: nat)
    | Cancelling(fetch: nat)
    | AwaitFreshToken(fetch: nat)
    | AwaitReplay(fetch: nat)
    | Done

  /** One REST execution; fetchesAt401 is how many fetches had started when its 401 arrived. */
  datatype Execution = Execution(key: Key, phase: Phase, requests: nat, rejected: nat, fetchesAt401: nat)

  datatype State = State(
    tokens: map<Key, nat>,
    fetches: seq<Fetch>,
    executions: seq<Execution>,
    invalidations: seq<Key>,   // every call of invalidate
    dropped: seq<Key>)         // those that removed an entry

  const INIT := State(map[], [], [], [], [])

  // ----- Steps -----

  /** oauth2Token: the cached fetch, or a new one that is cached at once. */
  function TokenFor(s: State, key: Key): (State, nat) {
    if key in s.tokens then (s, s.tokens[key])
    else
      (s.(tokens := s.tokens[key := |s.fetches|], fetches := s.fetches + [Fetch(key, InFlight, false, false)]),
       |s.fetches|)
  }

  function Invalidate(s: State, key: Key): State {
    s.(tokens := s.tokens - {key}, invalidations := s.invalidations + [key],
       dropped := if key in s.tokens then s.dropped + [key] else s.dropped)
  }

  /** The rejection handler: delete the entry only if it is still this fetch. */
  function CatchRejection(s: State, f: nat): State
    requires f < |s.fetches|
  {
    var key := s.fetches[f].key;
    var current := key in s.tokens && s.tokens[key] == f;
    s.(tokens := if current then s.tokens - {key} else s.tokens,
       fetches := s.fetches[f := s.fetches[f].(caught := true, evicted := current)])
  }

  datatype Event =
    | Begins(key: Key)
    | TokenReady(x: nat)
    | Responds(x: nat, unauthorized: bool)
    | Replays(x: nat)
    | FetchSettles(f: nat, ok: bool)
    | RejectionCaught(f: nat)

  function PhaseFetch(phase: Phase): nat {
    if phase.Done? then 0 else phase.fetch
  }

  predicate Enabled(s: State, e: Event) {
    match e
    case Begins(_) => true
    case TokenReady(x) =>
      && x < |s.executions|
      && (s.executions[x].phase.AwaitToken? || s.executions[x].phase.AwaitFreshToken?)
      && PhaseFetch(s.executions[x].phase) < |s.fetches|
      && !s.fetches[PhaseFetch(s.executions[x].phase)].status.InFlight?
    case Responds(x, _) =>
      x < |s.executions| && (s.executions[x].phase.AwaitResponse? || s.executions[x].phase.AwaitReplay?)
    case Replays(x) => x < |s.executions| && s.executions[x].phase.Cancelling?
    case FetchSettles(f, _) => f < |s.fetches| && s.fetches[f].status.InFlight?
    case RejectionCaught(f) => f < |s.fetches| && s.fetches[f].status.Failed? && !s.fetches[f].caught
  }

  /** send() after its token settled: dispatch, or give up with the token's error. */
  function AfterToken(x: Execution, ok: bool): Execution
    requires x.phase.AwaitToken? || x.phase.AwaitFreshToken?
  {
    if !ok then x.(phase := Done)
    else if x.phase.AwaitToken? then x.(phase := AwaitResponse(x.phase.fetch), requests := x.requests + 1)
    else x.(phase := AwaitReplay(x.phase.fetch), requests := x.requests + 1)
  }

  function AfterResponse(x: Execution, unauthorized: bool, fetches: nat): Execution
    requires x.phase.AwaitResponse? || x.phase.AwaitReplay?
  {
    if unauthorized && x.phase.AwaitResponse?
    then x.(phase := Cancelling(x.phase.fetch), rejected := x.phase.fetch, fetchesAt401 := fetches)
    else x.(phase := Done)
  }

  function Step(s: State, e: Event): State
    requires Enabled(s, e)
  {
    match e
    case Begins(key) =>
      var (t, f) := TokenFor(s, key);
      t.(executions := t.executions + [Execution(key, AwaitToken(f), 0, 0, 0)])
    case TokenReady(x) =>
      var ok := s.fetches[PhaseFetch(s.executions[x].phase)].status.Succeeded?;
      s.(executions := s.executions[x := AfterToken(s.executions[x], ok)])
    case Responds(x, unauthorized) =>
      s.(executions := s.executions[x := AfterResponse(s.executions[x], unauthorized, |s.fetches|)])
    case Replays(x) =>
      // invalidate, then send() up to the await of its token: no await in between
      var (t, f) := TokenFor(Invalidate(s, s.executions[x].key), s.executions[x].key);
      t.(executions := t.executions[x := t.executions[x].(phase := AwaitFreshToken(f))])
    case FetchSettles(f, ok) =>
      s.(fetches := s.fetches[f := s.fetches[f].(status := if ok then Succeeded else Failed)])
    case RejectionCaught(f) => CatchRejection(s, f)
  }

  function Run(events: seq<Event>): Option<State> {
    if events == [] then Some(INIT)
    else
      var before := Run(events[..|events| - 1]);
      var e := events[|events| - 1];
      if before.None? || !Enabled(before.value, e) then None else Some(Step(before.value, e))
  }

  // ----- The class -----

  class AuthRuntime {
    var tokens: map<Key, nat>
    var fetches: seq<Fetch>

    constructor ()
      ensures tokens == map[] && fetches == []
    {
      tokens, fetches := map[], [];
    }

    method OAuth2Token(key: Key) returns (f: nat)
      modifies this
      ensures forall executions, invalidations, dropped ::
                TokenFor(State(old(tokens), old(fetches), executions, invalidations, dropped), key)
                == (State(tokens, fetches, executions, invalidations, dropped), f)
    {
      if key in tokens {
        return tokens[key];
      }
      f := |fetches|;
      fetches := fetches + [Fetch(key, InFlight, false, false)];
      tokens := tokens[key := f];
    }

    method DoInvalidate(key: Key)
      modifies this`tokens
      ensures forall executions, invalidations, dropped ::
                Invalidate(State(old(tokens), fetches, executions, invalidations, dropped), key)
                == State(tokens, fetches, executions, invalidations + [key],
                     if key in old(tokens) then dropped + [key] else dropped)
    {
      tokens := tokens - {key};
    }

    method OnRejection(f: nat)
      requires f < |fetches|
      modifies this
      ensures forall executions, invalidations, dropped ::
                CatchRejection(State(old(tokens), old(fetches), executions, invalidations, dropped), f)
                == State(tokens, fetches, executions, invalidations, dropped)
    {
      var key := fetches[f].key;
      var current := key in tokens && tokens[key] == f;
      if current {
        tokens := tokens - {key};
      }
      fetches := fetches[f := fetches[f].(caught := true, evicted := current)];
    }
  }

  // ----- Counting -----

  function Count(keys: seq<Key>, key: Key): nat {
    if keys == [] then 0 else Count(keys[..|keys| - 1], key) + (if keys[|keys| - 1] == key then 1 else 0)
  }

  function Started(fetches: seq<Fetch>, key: Key): nat {
    if fetches == [] then 0
    else Started(fetches[..|fetches| - 1], key) + (if fetches[|fetches| - 1].key == key then 1 else 0)
  }

  function Evicted(fetches: seq<Fetch>, key: Key): nat {
    if fetches == [] then 0
    else
      var last := fetches[|fetches| - 1];
      Evicted(fetches[..|fetches| - 1], key) + (if last.key == key && last.evicted then 1 else 0)
  }

  function FailedFetches(fetches: seq<Fetch>, key: Key): nat {
    if fetches == [] then 0
    else
      var last := fetches[|fetches| - 1];
      FailedFetches(fetches[..|fetches| - 1], key) + (if last.key == key && last.status.Failed? then 1 else 0)
  }

  lemma CountAppend(keys: seq<Key>, x: Key, key: Key)
    ensures Count(keys + [x], key) == Count(keys, key) + (if x == key then 1 else 0)
  {
    assert (keys + [x])[..|keys|] == keys;
  }

  lemma StartedAppend(fetches: seq<Fetch>, x: Fetch, key: Key)
    ensures Started(fetches + [x], key) == Started(fetches, key) + (if x.key == key then 1 else 0)
    ensures Evicted(fetches + [x], key) == Evicted(fetches, key) + (if x.key == key && x.evicted then 1 else 0)
  {
    assert (fetches + [x])[..|fetches|] == fetches;
  }

  /** Changing the status of one fetch does not change how many were started. */
  lemma {:induction false} StartedUpdate(fetches: seq<Fetch>, f: nat, x: Fetch, key: Key)
    requires f < |fetches| && x.key == fetches[f].key
    ensures Started(fetches[f := x], key) == Started(fetches, key)
    ensures Evicted(fetches[f := x], key)
         == Evicted(fetches, key) - (if fetches[f].key == key && fetches[f].evicted then 1 else 0)
            + (if x.key == key && x.evicted then 1 else 0)
    decreases |fetches|
  {
    var n := |fetches| - 1;
    if f < n {
      assert fetches[f := x][..n] == fetches[..n][f := x];
      StartedUpdate(fetches[..n], f, x, key);
    } else {
      assert fetches[f := x][..n] == fetches[..n];
    }
  }

  lemma {:induction false} EvictedAreFailed(fetches: seq<Fetch>, key: Key)
    requires forall i :: 0 <= i < |fetches| && fetches[i].evicted ==> fetches[i].status.Failed?
    ensures Evicted(fetches, key) <= FailedFetches(fetches, key)
    decreases |fetches|
  {
    if fetches != [] {
      EvictedAreFailed(fetches[..|fetches| - 1], key);
    }
  }

  // ----- Invariants of every run -----

  /** Every fetch started is the cached one, was dropped by an invalidation, or was evicted by its failure. */
  predicate Balanced(s: State, key: Key) {
    Started(s.fetches, key)
    == (if key in s.tokens then 1 else 0) + Count(s.dropped, key) + Evicted(s.fetches, key)
  }

  ghost predicate AllBalanced(s: State) {
    forall key :: Balanced(s, key) && Count(s.dropped, key) <= Count(s.invalidations, key)
  }

  /** The cached fetch is of its key, and the newest of that key. */
  ghost predicate CacheIsNewest(s: State) {
    && (forall key :: key in s.tokens ==> s.tokens[key] < |s.fetches| && s.fetches[s.tokens[key]].key == key)
    && (forall key, g :: key in s.tokens && 0 <= g < |s.fetches| && s.fetches[g].key == key ==> g <= s.tokens[key])
    && (forall key :: key in s.tokens ==> !s.fetches[s.tokens[key]].caught)
  }

  ghost predicate FetchesRight(s: State) {
    forall f :: 0 <= f < |s.fetches| ==>
      (s.fetches[f].caught ==> s.fetches[f].status.Failed?) && (s.fetches[f].evicted ==> s.fetches[f].caught)
  }

  /** At most two requests; a replay uses a fetch that started after the 401 it answers. */
  predicate ExecutionRight(s: State, x: Execution) {
    match x.phase
    case AwaitToken(f) => x.requests == 0 && f < |s.fetches| && s.fetches[f].key == x.key
    case AwaitResponse(f) => x.requests == 1 && f < |s.fetches| && s.fetches[f].key == x.key
    case Cancelling(f) => x.requests == 1 && f == x.rejected < x.fetchesAt401 <= |s.fetches|
    case AwaitFreshToken(f) =>
      x.requests == 1 && x.rejected < x.fetchesAt401 <= f < |s.fetches| && s.fetches[f].key == x.key
    case AwaitReplay(f) =>
      x.requests == 2 && x.rejected < x.fetchesAt401 <= f < |s.fetches| && s.fetches[f].key == x.key
    case Done => x.requests <= 2
  }

  ghost predicate ExecutionsRight(s: State) {
    forall x :: 0 <= x < |s.executions| ==> ExecutionRight(s, s.executions[x])
  }

  ghost predicate Inv(s: State) {
    AllBalanced(s) && CacheIsNewest(s) && FetchesRight(s) && ExecutionsRight(s)
  }

  /** Executions only look at fetch keys, which never change. */
  lemma ExecutionsSurvive(s: State, t: State)
    requires ExecutionsRight(s) && t.executions == s.executions && |s.fetches| <= |t.fetches|
    requires forall f :: 0 <= f < |s.fetches| ==> t.fetches[f].key == s.fetches[f].key
    ensures ExecutionsRight(t)
  {
    forall x | 0 <= x < |t.executions| ensures ExecutionRight(t, t.executions[x]) {
      assert ExecutionRight(s, s.executions[x]);
    }
  }

  lemma TokenForKeeps(s: State, key: Key)
    requires Inv(s)
    ensures var (t, f) := TokenFor(s, key);
            && Inv(t) && t.executions == s.executions && |s.fetches| <= |t.fetches|
            && f < |t.fetches| && t.fetches[f].key == key
            && (key !in s.tokens ==> f == |s.fetches|)
  {
    var (t, f) := TokenFor(s, key);
    if key !in s.tokens {
      forall k ensures Balanced(t, k) && Count(t.dropped, k) <= Count(t.invalidations, k) {
        assert Balanced(s, k);
        StartedAppend(s.fetches, Fetch(key, InFlight, false, false), k);
      }
      assert forall g :: 0 <= g < |s.fetches| ==> t.fetches[g] == s.fetches[g];
      ExecutionsSurvive(s, t);
    }
  }

  lemma InvalidateBalances(s: State, key: Key, k: Key)
    requires AllBalanced(s)
    ensures var t := Invalidate(s, key); Balanced(t, k) && Count(t.dropped, k) <= Count(t.invalidations, k)
  {
    assert Balanced(s, k) && Count(s.dropped, k) <= Count(s.invalidations, k);
    CountAppend(s.dropped, key, k);
    CountAppend(s.invalidations, key, k);
  }

  lemma InvalidateKeeps(s: State, key: Key)
    requires Inv(s)
    ensures Inv(Invalidate(s, key)) && key !in Invalidate(s, key).tokens
  {
    hide Started, Evicted, Count, ExecutionRight;
    var t := Invalidate(s, key);
    forall k ensures Balanced(t, k) && Count(t.dropped, k) <= Count(t.invalidations, k) {
      InvalidateBalances(s, key, k);
    }
    ExecutionsSurvive(s, t);
  }

  lemma CatchKeeps(s: State, f: nat)
    requires Inv(s) && Enabled(s, RejectionCaught(f))
    ensures Inv(CatchRejection(s, f))
  {
    var t := CatchRejection(s, f);
    forall k ensures Balanced(t, k) && Count(t.dropped, k) <= Count(t.invalidations, k) {
      assert Balanced(s, k) && Count(s.dropped, k) <= Count(s.invalidations, k);
      StartedUpdate(s.fetches, f, t.fetches[f], k);
    }
    assert forall g :: 0 <= g < |s.fetches| ==> t.fetches[g].key == s.fetches[g].key;
    assert forall g :: 0 <= g < |s.fetches| && g != f ==> t.fetches[g] == s.fetches[g];
    ExecutionsSurvive(s, t);
  }

  lemma SettleKeeps(s: State, f: nat, ok: bool)
    requires Inv(s) && Enabled(s, FetchSettles(f, ok))
    ensures Inv(Step(s, FetchSettles(f, ok)))
  {
    var t := Step(s, FetchSettles(f, ok));
    forall k ensures Balanced(t, k) && Count(t.dropped, k) <= Count(t.invalidations, k) {
      assert Balanced(s, k) && Count(s.dropped, k) <= Count(s.invalidations, k);
      StartedUpdate(s.fetches, f, t.fetches[f], k);
    }
    assert forall g :: 0 <= g < |s.fetches| ==> t.fetches[g].key == s.fetches[g].key;
    assert forall g :: 0 <= g < |s.fetches| && g != f ==> t.fetches[g] == s.fetches[g];
    ExecutionsSurvive(s, t);
  }

  lemma ExecutionKeeps(s: State, x: nat, after: Execution)
    requires Inv(s) && x < |s.executions| && ExecutionRight(s, after)
    ensures Inv(s.(executions := s.executions[x := after]))
  {
    var t := s.(executions := s.executions[x := after]);
    forall k ensures Balanced(t, k) && Count(t.dropped, k) <= Count(t.invalidations, k) {
      assert Balanced(s, k);
    }
    forall y | 0 <= y < |t.executions| ensures ExecutionRight(t, t.executions[y]) {
      if y != x {
        assert ExecutionRight(s, s.executions[y]);
      }
    }
  }

  lemma BeginKeeps(s: State, key: Key)
    requires Inv(s)
    ensures Inv(Step(s, Begins(key)))
  {
    TokenForKeeps(s, key);
    var (t, f) := TokenFor(s, key);
    var x := Execution(key, AwaitToken(f), 0, 0, 0);
    var u := t.(executions := t.executions + [x]);
    forall k ensures Balanced(u, k) && Count(u.dropped, k) <= Count(u.invalidations, k) {
      assert Balanced(t, k);
    }
    forall y | 0 <= y < |u.executions| ensures ExecutionRight(u, u.executions[y]) {
      if y < |t.executions| {
        assert ExecutionRight(t, t.executions[y]);
      }
    }
  }

  lemma ReplayKeeps(s: State, x: nat)
    requires Inv(s) && Enabled(s, Replays(x))
    ensures Inv(Step(s, Replays(x)))
  {
    var key := s.executions[x].key;
    var cleared := Invalidate(s, key);
    InvalidateKeeps(s, key);
    TokenForKeeps(cleared, key);
    var (t, f) := TokenFor(cleared, key);
    assert ExecutionRight(s, s.executions[x]);
    ExecutionKeeps(t, x, t.executions[x].(phase := AwaitFreshToken(f)));
  }

  lemma StepKeeps(s: State, e: Event)
    requires Inv(s) && Enabled(s, e)
    ensures Inv(Step(s, e))
  {
    match e
    case Begins(key) => BeginKeeps(s, key);
    case TokenReady(x) =>
      assert ExecutionRight(s, s.executions[x]);
      var ok := s.fetches[PhaseFetch(s.executions[x].phase)].status.Succeeded?;
      ExecutionKeeps(s, x, AfterToken(s.executions[x], ok));
    case Responds(x, unauthorized) =>
      assert ExecutionRight(s, s.executions[x]);
      ExecutionKeeps(s, x, AfterResponse(s.executions[x], unauthorized, |s.fetches|));
    case Replays(x) => ReplayKeeps(s, x);
    case FetchSettles(f, ok) => SettleKeeps(s, f, ok);
    case RejectionCaught(f) => CatchKeeps(s, f);
  }

  lemma {:induction false} RunKeeps(events: seq<Event>)
    requires Run(events).Some?
    ensures Inv(Run(events).value)
    decreases |events|
  {
    if events != [] {
      var before := events[..|events| - 1];
      RunKeeps(before);
      StepKeeps(Run(before).value, events[|events| - 1]);
    } else {
      forall key ensures Balanced(INIT, key) {
      }
    }
  }

  // ----- Main results -----

  /** Single flight: per key, at most one fetch plus one for each invalidation and each failed fetch. */
  lemma FetchesAreBounded(events: seq<Event>, key: Key)
    requires Run(events).Some?
    ensures var s := Run(events).value;
            Started(s.fetches, key) <= 1 + Count(s.invalidations, key) + FailedFetches(s.fetches, key)
  {
    RunKeeps(events);
    var s := Run(events).value;
    assert Balanced(s, key) && Count(s.dropped, key) <= Count(s.invalidations, key);
    EvictedAreFailed(s.fetches, key);
  }

  /** A late rejection removes its own entry or nothing: an entry of a newer fetch always survives it. */
  lemma StaleRejectionEvictsNothing(s: State, f: nat, key: Key)
    requires Inv(s) && Enabled(s, RejectionCaught(f)) && key in s.tokens
    ensures var t := Step(s, RejectionCaught(f));
            && (key in t.tokens <==> s.tokens[key] != f)
            && (key in t.tokens ==> t.tokens[key] == s.tokens[key])
            && (s.fetches[f].key == key && s.tokens[key] != f ==> f < s.tokens[key])
  {
  }

  /** Every execution sends at most two requests; a replay's token is from a fetch begun after its 401. */
  lemma ReplayUsesFreshToken(events: seq<Event>, x: nat)
    requires Run(events).Some? && x < |Run(events).value.executions|
    ensures var run := Run(events).value.executions[x];
            && run.requests <= 2
            && (run.phase.AwaitReplay? ==> run.rejected < run.fetchesAt401 <= run.phase.fetch)
  {
    RunKeeps(events);
    var s := Run(events).value;
    assert ExecutionRight(s, s.executions[x]);
  }

  /** fetchesAt401 is recorded when the 401 arrives, and the replay's fetch is the first one after its invalidation. */
  lemma ReplayStartsAFetch(s: State, x: nat)
    requires Inv(s) && Enabled(s, Replays(x))
    ensures var t := Step(s, Replays(x));
            && t.executions[x].phase == AwaitFreshToken(|s.fetches|)
            && |t.fetches| == |s.fetches| + 1
            && t.tokens == s.tokens[s.executions[x].key := |s.fetches|]
  {
    InvalidateKeeps(s, s.executions[x].key);
  }
}
