/**
 Draining the recorder before shutdown (queued-execution-recorder.ts, drain). Between two turns of its
 loop drain awaits the race of the running pump and a timer, while the recorder, the clock and the
 timer go on: a run is any interleaving of what happens there.
 */
module Drain {
  import opened Prelude
  import opened Recorder
  import opened PayloadSize

  const POLL_MS: nat := 25

  /** Promise.race([this.pumpPromise, delay(25)]): which of the two settled first, and how. */
  datatype Race = Racing | TimerFired | PumpEnded | PumpRejected

  /** Rejected: the rejection of an awaited pump leaves drain as an exception. */
  datatype Verdict = Drained | TimedOut | Rejected

  /** Where drain's async frame is: in the await it entered at time armed, or past its end. */
  datatype Phase = Awaiting(armed: int, race: Race) | Ended(verdict: Verdict)

  datatype System = System(recorder: State, now: int, deadline: int, phase: Phase)

  datatype Occurrence = Happens(event: Event) | Passes(ms: nat) | TimerFires | DrainResumes

  // ----- Steps -----

  predicate HasWork(s: State) {
    s.queue != [] || s.pumping
  }

  /** One turn of drain's loop, up to its next await or its end. */
  function Turn(sys: System): System {
    if !HasWork(sys.recorder) then sys.(phase := Ended(Drained))
    else if sys.deadline <= sys.now then sys.(phase := Ended(TimedOut))
    else sys.(phase := Awaiting(sys.now, Racing))
  }

  function Begin(s: State, now: int, timeoutMs: nat): System {
    Turn(System(s, now, now + timeoutMs, Awaiting(now, Racing)))
  }

  /** The event settles the promise of the pump that is running. */
  predicate EndsPump(frame: Frame, queue: seq<Entry>, e: Event) {
    e.PumpResumes? && frame.Returning? && (frame.escaped || queue == [])
  }

  /** The race decided by an event, unless it already was. */
  function Watch(race: Race, frame: Frame, queue: seq<Entry>, e: Event): Race {
    if !race.Racing? || !EndsPump(frame, queue, e) then race
    else if frame.escaped then PumpRejected
    else PumpEnded
  }

  predicate Possible(sys: System, o: Occurrence) {
    && sys.phase.Awaiting?
    && match o
       case Happens(e) => Enabled(sys.recorder, e)
       case Passes(_) => true
       case TimerFires => sys.phase.race.Racing? && sys.phase.armed + POLL_MS <= sys.now
       case DrainResumes => !sys.phase.race.Racing?
  }

  function Occur(limits: Limits, sys: System, o: Occurrence): System
    requires Possible(sys, o)
  {
    match o
    case Happens(e) =>
      sys.(recorder := Step(limits, sys.recorder, e),
           phase := Awaiting(sys.phase.armed, Watch(sys.phase.race, sys.recorder.frame, sys.recorder.queue, e)))
    case Passes(ms) => sys.(now := sys.now + ms)
    case TimerFires => sys.(phase := Awaiting(sys.phase.armed, TimerFired))
    case DrainResumes => if sys.phase.race.PumpRejected? then sys.(phase := Ended(Rejected)) else Turn(sys)
  }

  /** The system after the first n occurrences; None when one of them was not possible. */
  function After(limits: Limits, start: System, os: seq<Occurrence>, n: nat): Option<System>
    requires n <= |os|
  {
    if n == 0 then Some(start)
    else
      var before := After(limits, start, os, n - 1);
      if before.None? || !Possible(before.value, os[n - 1]) then None
      else Some(Occur(limits, before.value, os[n - 1]))
  }

  lemma {:induction false} AfterPrefix(limits: Limits, start: System, os: seq<Occurrence>, m: nat, n: nat)
    requires m <= n <= |os| && After(limits, start, os, n).Some?
    ensures After(limits, start, os, m).Some?
    ensures m < n ==> Possible(After(limits, start, os, m).value, os[m])
    decreases n
  {
    if m < n {
      AfterPrefix(limits, start, os, m, n - 1);
    }
  }

  // ----- The loop -----

  /** What the recorder does when an event happens. */
  method Deliver(recorder: QueuedExecutionRecorder, e: Event)
    requires Enabled(recorder.Abs(), e)
    modifies recorder
    ensures recorder.Abs() == Step(recorder.limits, old(recorder.Abs()), e)
  {
    match e
    case Record(entry, bytes) => recorder.RecordInvocation(entry, bytes);
    case WriteDone(result) => recorder.OnWriteDone(result);
    case WriteEscapes => recorder.OnWriteEscapes();
    case DelayDone => recorder.OnDelayDone();
    case PumpResumes => recorder.OnPumpResumes();
    case DirectDone(i, result) => recorder.OnDirectDone(i, result);
  }

  /** The await of the race: what happens until drain resumes, or until the run is over. */
  method Await(
    recorder: QueuedExecutionRecorder, start: int, deadline: int, os: seq<Occurrence>, from: nat, ghost begin: System)
    returns (race: Race, now: int, i: nat)
    requires from <= |os| && After(recorder.limits, begin, os, |os|).Some?
    requires After(recorder.limits, begin, os, from)
          == Some(System(recorder.Abs(), start, deadline, Awaiting(start, Racing)))
    modifies recorder
    ensures from <= i <= |os| && (i < |os| ==> os[i].DrainResumes?)
    ensures After(recorder.limits, begin, os, i)
         == Some(System(recorder.Abs(), now, deadline, Awaiting(start, race)))
  {
    hide Step, Enabled;
    race, now, i := Racing, start, from;
    while i < |os| && !os[i].DrainResumes?
      invariant from <= i <= |os|
      invariant After(recorder.limits, begin, os, i)
             == Some(System(recorder.Abs(), now, deadline, Awaiting(start, race)))
      decreases |os| - i
    {
      AfterPrefix(recorder.limits, begin, os, i, |os|);
      AfterPrefix(recorder.limits, begin, os, i + 1, |os|);
      match os[i] {
        case Happens(e) =>
          race := Watch(race, recorder.frame, recorder.queue, e);
          Deliver(recorder, e);
        case Passes(ms) => now := now + ms;
        case TimerFires => race := TimerFired;
      }
      i := i + 1;
    }
  }

  method Drain(recorder: QueuedExecutionRecorder, start: int, timeoutMs: nat, os: seq<Occurrence>)
    returns (phase: Phase, now: int)
    requires After(recorder.limits, Begin(recorder.Abs(), start, timeoutMs), os, |os|).Some?
    modifies recorder
    ensures After(recorder.limits, old(Begin(recorder.Abs(), start, timeoutMs)), os, |os|)
         == Some(System(recorder.Abs(), now, start + timeoutMs, phase))
  {
    ghost var begin := Begin(recorder.Abs(), start, timeoutMs);
    var deadline, i := start + timeoutMs, 0;
    now := start;
    while |recorder.queue| > 0 || recorder.pumpPromise
      invariant 0 <= i <= |os|
      invariant After(recorder.limits, begin, os, i)
             == Some(Turn(System(recorder.Abs(), now, deadline, Awaiting(now, Racing))))
      decreases |os| - i
    {
      if now >= deadline {
        NothingAfterTheEnd(recorder.limits, begin, os, i);
        return Ended(TimedOut), now;
      }
      var armed := now;
      var race;
      race, now, i := Await(recorder, armed, deadline, os, i, begin);
      if i == |os| {
        return Awaiting(armed, race), now;
      }
      AfterPrefix(recorder.limits, begin, os, i, |os|);
      AfterPrefix(recorder.limits, begin, os, i + 1, |os|);
      i := i + 1;
      if race.PumpRejected? {
        NothingAfterTheEnd(recorder.limits, begin, os, i);
        return Ended(Rejected), now;
      }
    }
    NothingAfterTheEnd(recorder.limits, begin, os, i);
    return Ended(Drained), now;
  }

  lemma NothingAfterTheEnd(limits: Limits, start: System, os: seq<Occurrence>, n: nat)
    requires n <= |os| && After(limits, start, os, |os|).Some?
    requires After(limits, start, os, n).Some? && After(limits, start, os, n).value.phase.Ended?
    ensures n == |os|
  {
    if n < |os| {
      AfterPrefix(limits, start, os, n, |os|);
    }
  }

  // ----- How drain ends -----

  predicate SomeLost(s: State) {
    exists i :: 0 <= i < |s.settled| && s.settled[i].outcome.Lost?
  }

  /** An exception that escaped a write was settled as lost, also while the pump has yet to see it. */
  predicate EscapesAreLost(s: State) {
    s.frame.Returning? && s.frame.escaped ==> SomeLost(s)
  }

  /** What is known of the drain in every state. */
  predicate PhaseRight(sys: System) {
    match sys.phase
    case Awaiting(armed, race) =>
      && armed < sys.deadline && armed <= sys.now
      && (race.Racing? ==> sys.recorder.pumping)
      && (race.PumpRejected? ==> SomeLost(sys.recorder))
    case Ended(Drained) => !HasWork(sys.recorder)
    case Ended(TimedOut) => sys.deadline <= sys.now && HasWork(sys.recorder)
    case Ended(Rejected) => SomeLost(sys.recorder)
  }

  predicate Good(limits: Limits, sys: System) {
    Inv(limits, sys.recorder) && EscapesAreLost(sys.recorder) && PhaseRight(sys)
  }

  lemma LostStaysLost(limits: Limits, s: State, e: Event)
    requires Enabled(s, e)
    ensures SomeLost(s) ==> SomeLost(Step(limits, s, e))
  {
    if SomeLost(s) {
      var i :| 0 <= i < |s.settled| && s.settled[i].outcome.Lost?;
      assert Step(limits, s, e).settled[i] == s.settled[i];
    }
  }

  lemma EscapeIsLost(limits: Limits, s: State, e: Event)
    requires Enabled(s, e) && EscapesAreLost(s)
    ensures EscapesAreLost(Step(limits, s, e))
  {
    var t := Step(limits, s, e);
    LostStaysLost(limits, s, e);
    if e.WriteEscapes? {
      assert t.settled[|s.settled|].outcome.Lost?;
    }
  }

  lemma OccurKeeps(limits: Limits, sys: System, o: Occurrence)
    requires Good(limits, sys) && Possible(sys, o)
    ensures Good(limits, Occur(limits, sys, o))
  {
    match o
    case Happens(e) =>
      StepKeeps(limits, sys.recorder, e);
      EscapeIsLost(limits, sys.recorder, e);
      LostStaysLost(limits, sys.recorder, e);
    case _ =>
  }

  lemma {:induction false} DrainKeeps(limits: Limits, start: System, os: seq<Occurrence>, n: nat)
    requires Good(limits, start) && n <= |os| && After(limits, start, os, n).Some?
    ensures Good(limits, After(limits, start, os, n).value)
    decreases n
  {
    if 0 < n {
      DrainKeeps(limits, start, os, n - 1);
      OccurKeeps(limits, After(limits, start, os, n - 1).value, os[n - 1]);
    }
  }

  /** In every reachable state of the recorder an exception that escaped is settled as lost. */
  lemma {:induction false} RunEscapesAreLost(limits: Limits, events: seq<Event>)
    requires Run(limits, events).Some?
    ensures EscapesAreLost(Run(limits, events).value)
    decreases |events|
  {
    if events != [] {
      var before := events[..|events| - 1];
      RunEscapesAreLost(limits, before);
      EscapeIsLost(limits, Run(limits, before).value, events[|events| - 1]);
    }
  }

  /**
   Begun in any reachable state of the recorder, drain returns with every entry ever queued settled in
   order, or at its deadline with work left, or it throws because an entry was lost to an exception that
   escaped its write.
   */
  lemma DrainEnds(
    limits: Limits, events: seq<Event>, s: State, now: int, timeoutMs: nat, os: seq<Occurrence>)
    requires Run(limits, events) == Some(s) && After(limits, Begin(s, now, timeoutMs), os, |os|).Some?
    ensures var sys := After(limits, Begin(s, now, timeoutMs), os, |os|).value;
            && (sys.phase == Ended(Drained) ==> sys.recorder.accepted == Entries(sys.recorder.settled))
            && (sys.phase == Ended(TimedOut) ==> now + timeoutMs <= sys.now && 0 < Work(sys.recorder))
            && (sys.phase == Ended(Rejected) ==> SomeLost(sys.recorder))
  {
    RunKeeps(limits, events);
    RunEscapesAreLost(limits, events);
    var begin := Begin(s, now, timeoutMs);
    DrainKeeps(limits, begin, os, |os|);
    DeadlineIsKept(limits, begin, os, |os|);
    var sys := After(limits, begin, os, |os|).value;
    PumpProgress(limits, sys.recorder, PumpResumes);
    if sys.phase == Ended(Drained) {
      IdleHasSettled(limits, sys.recorder);
    }
  }

  lemma {:induction false} DeadlineIsKept(limits: Limits, start: System, os: seq<Occurrence>, n: nat)
    requires n <= |os| && After(limits, start, os, n).Some?
    ensures After(limits, start, os, n).value.deadline == start.deadline
    decreases n
  {
    if 0 < n {
      DeadlineIsKept(limits, start, os, n - 1);
    }
  }

  // ----- When drain throws -----

  /** At occurrence i an escaping exception ends the pump drain is awaiting, before the timer fires. */
  predicate AwaitedPumpEscapes(limits: Limits, start: System, os: seq<Occurrence>, i: nat)
    requires i < |os|
  {
    var sys := After(limits, start, os, i);
    && sys.Some? && sys.value.phase.Awaiting? && sys.value.phase.race.Racing?
    && os[i] == Happens(PumpResumes)
    && sys.value.recorder.frame.Returning? && sys.value.recorder.frame.escaped
  }

  /** The race rejected, or already thrown as such. */
  predicate HasRejected(phase: Phase) {
    phase == Ended(Rejected) || (phase.Awaiting? && phase.race.PumpRejected?)
  }

  /** drain throws if and only if an escaping exception ends a pump while drain awaits it. */
  lemma {:induction false} DrainThrowsExactlyWhen(limits: Limits, start: System, os: seq<Occurrence>, n: nat)
    requires n <= |os| && After(limits, start, os, n).Some? && !HasRejected(start.phase)
    ensures HasRejected(After(limits, start, os, n).value.phase)
       <==> exists i :: 0 <= i < n && AwaitedPumpEscapes(limits, start, os, i)
    decreases n
  {
    if 0 < n {
      DrainThrowsExactlyWhen(limits, start, os, n - 1);
      AfterPrefix(limits, start, os, n - 1, n);
      assert HasRejected(After(limits, start, os, n).value.phase)
        <==> HasRejected(After(limits, start, os, n - 1).value.phase)
             || AwaitedPumpEscapes(limits, start, os, n - 1);
    }
  }

  /** A run in which it does: the one entry queued is being written when drain begins, and the write escapes. */
  lemma DrainMayThrow(limits: Limits, now: int, timeoutMs: nat)
    requires limits == DEFAULT_LIMITS && 0 < timeoutMs
    ensures exists events, os: seq<Occurrence> ::
              && Run(limits, events).Some?
              && var end := After(limits, Begin(Run(limits, events).value, now, timeoutMs), os, |os|);
                 end.Some? && end.value.phase == Ended(Rejected)
  {
    var s := Step(limits, INIT, Record(0, BYTE_ALLOWANCE_PER_ENTRY));
    var events := RunMore(limits, [], INIT, Record(0, BYTE_ALLOWANCE_PER_ENTRY));
    var os := [Happens(WriteEscapes), Happens(PumpResumes), DrainResumes];
    var begin := Begin(s, now, timeoutMs);
    assert s.frame == Writing(0, 0) && begin.phase == Awaiting(now, Racing);
    var one := Occur(limits, begin, os[0]);
    assert one.recorder.frame == Returning(true) && one.phase == Awaiting(now, Racing);
    var two := Occur(limits, one, os[1]);
    assert two.phase == Awaiting(now, PumpRejected);
    assert After(limits, begin, os, 0) == Some(begin) && After(limits, begin, os, 1) == Some(one);
    assert After(limits, begin, os, 2) == Some(two) && Possible(two, os[2]);
    assert After(limits, begin, os, 3) == Some(Occur(limits, two, os[2]));
  }

  // ----- When drain ends -----

  /** Timers fire and drain resumes as soon as they can: no time passes over either. */
  predicate Prompt(sys: System, o: Occurrence) {
    o.Passes? && sys.phase.Awaiting? ==> sys.phase.race.Racing? && sys.now + o.ms <= sys.phase.armed + POLL_MS
  }

  predicate InTime(sys: System) {
    match sys.phase
    case Awaiting(armed, race) => armed < sys.deadline && sys.now <= armed + POLL_MS
    case Ended(_) => true
  }

  /** With prompt timers drain has ended, in one way or another, within its timeout and one poll. */
  lemma {:induction false} DrainEndsInTime(
    limits: Limits, s: State, now: int, timeoutMs: nat, os: seq<Occurrence>, n: nat)
    requires n <= |os| && After(limits, Begin(s, now, timeoutMs), os, n).Some?
    requires forall i :: 0 <= i < n && After(limits, Begin(s, now, timeoutMs), os, i).Some? ==>
               Prompt(After(limits, Begin(s, now, timeoutMs), os, i).value, os[i])
    ensures var sys := After(limits, Begin(s, now, timeoutMs), os, n).value;
            sys.deadline == now + timeoutMs && InTime(sys) && sys.now <= now + timeoutMs + 25
    decreases n
  {
    if 0 < n {
      DrainEndsInTime(limits, s, now, timeoutMs, os, n - 1);
      AfterPrefix(limits, Begin(s, now, timeoutMs), os, n - 1, n);
    }
  }

  /** drain is never stuck: the timer can fire, time can pass until it can, or drain can resume. */
  lemma DrainIsNeverStuck(limits: Limits, sys: System)
    requires Good(limits, sys) && sys.phase.Awaiting?
    ensures || Possible(sys, DrainResumes)
            || (Possible(sys, Passes(POLL_MS)) && Possible(Occur(limits, sys, Passes(POLL_MS)), TimerFires))
    ensures Possible(sys, DrainResumes) && sys.deadline <= sys.now ==> Occur(limits, sys, DrainResumes).phase.Ended?
    ensures Possible(sys, DrainResumes) && !HasWork(sys.recorder) ==> Occur(limits, sys, DrainResumes).phase.Ended?
  {
  }
}
