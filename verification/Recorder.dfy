/**
 The queued execution recorder (queued-execution-recorder.ts). Between two awaits JavaScript runs
 to completion, so the recorder is a state machine whose steps are the stretches of code between
 awaits. The steps are functions on State; QueuedExecutionRecorder is the class with the source's
 fields, whose methods are proved to take exactly these steps; the theorems range over every run.
 */
module Recorder {
  import opened Prelude
  import opened PayloadSize

  /** The identity of an InvocationRecord object. */
  type Entry = nat

  /** RETRY_DELAYS_MS has three entries, so a write is attempted at most four times. */
  const MAX_RETRIES: nat := 3

  /** What estimateEntryBytes returns: an allowance per entry and the size of its payload. */
  type EntrySize = bytes: nat | BYTE_ALLOWANCE_PER_ENTRY <= bytes witness BYTE_ALLOWANCE_PER_ENTRY

  datatype WriteResult = Success | AuditError | OtherError

  datatype Outcome = Written | AuditOnly | Dropped | Lost

  datatype Settlement = Settlement(entry: Entry, outcome: Outcome, attempts: nat)

  /** Where the pump's async frame is suspended. */
  datatype Frame =
    | Idle
    | Writing(entry: Entry, attempt: nat)
    | Delaying(entry: Entry, attempt: nat)
    | Returning(escaped: bool)

  datatype Limits = Limits(maxQueueSize: nat, maxQueueBytes: nat)

  datatype State = State(
    queue: seq<Entry>,
    entryBytes: map<Entry, nat>,
    queuedBytes: int,
    pumping: bool,             // pumpPromise !== null
    frame: Frame,
    direct: seq<Entry>,        // writeOnce calls in flight
    accepted: seq<Entry>,      // everything ever queued
    settled: seq<Settlement>,  // outcomes of queued entries
    bypassed: seq<Entry>,      // everything ever written directly
    directSettled: seq<Settlement>)

  const INIT := State([], map[], 0, false, Idle, [], [], [], [], [])

  datatype Event =
    | Record(entry: Entry, bytes: EntrySize)
    | WriteDone(result: WriteResult)
    | WriteEscapes
    | DelayDone
    | PumpResumes
    | DirectDone(index: nat, result: WriteResult)

  // ----- Steps -----

  function BytesOf(m: map<Entry, nat>, entry: Entry): nat {
    if entry in m then m[entry] else 0
  }

  /** The pump from its loop test to its next await: shift and write, or leave through finally. */
  function PumpLoop(s: State): State {
    if s.queue == [] then s.(pumping := false, frame := Idle)
    else
      var entry := s.queue[0];
      s.(queue := s.queue[1..], queuedBytes := s.queuedBytes - BytesOf(s.entryBytes, entry), frame := Writing(entry, 0))
  }

  /** pumpPromise = this.pump(), for a non-empty queue. */
  function StartPump(s: State): State {
    PumpLoop(s.(pumping := true))
  }

  /** The finally block after an exception escaped: clear, and restart unless the queue is empty. */
  function PumpFinally(s: State): State {
    var cleared := s.(pumping := false, frame := Idle);
    if s.queue == [] then cleared else StartPump(cleared)
  }

  predicate IsFull(limits: Limits, s: State, bytes: nat) {
    limits.maxQueueSize <= |s.queue| || limits.maxQueueBytes < s.queuedBytes + bytes
  }

  function Enqueue(s: State, entry: Entry, bytes: nat): State {
    s.(entryBytes := s.entryBytes[entry := bytes], queuedBytes := s.queuedBytes + bytes,
       queue := s.queue + [entry], accepted := s.accepted + [entry])
  }

  function RecordStep(limits: Limits, s: State, entry: Entry, bytes: nat): State {
    if IsFull(limits, s, bytes) then s.(direct := s.direct + [entry], bypassed := s.bypassed + [entry])
    else
      var queued := Enqueue(s, entry, bytes);
      if queued.pumping then queued else StartPump(queued)
  }

  function Settle(s: State, outcome: Outcome, escaped: bool): State
    requires s.frame.Writing?
  {
    s.(settled := s.settled + [Settlement(s.frame.entry, outcome, s.frame.attempt + 1)], frame := Returning(escaped))
  }

  /** writeWithRetry after one attempt. */
  function WriteStep(s: State, result: WriteResult): State
    requires s.frame.Writing?
  {
    match result
    case Success => Settle(s, Written, false)
    case AuditError => Settle(s, AuditOnly, false)
    case OtherError =>
      if s.frame.attempt == MAX_RETRIES then Settle(s, Dropped, false)
      else s.(frame := Delaying(s.frame.entry, s.frame.attempt))
  }

  function Without<T>(s: seq<T>, i: nat): seq<T>
    requires i < |s|
  {
    s[..i] + s[i + 1..]
  }

  function DirectOutcome(result: WriteResult): Outcome {
    match result
    case Success => Written
    case AuditError => AuditOnly
    case OtherError => Dropped
  }

  predicate Enabled(s: State, e: Event) {
    match e
    case Record(_, _) => true
    case WriteDone(_) => s.frame.Writing?
    case WriteEscapes => s.frame.Writing?
    case DelayDone => s.frame.Delaying?
    case PumpResumes => s.frame.Returning?
    case DirectDone(i, _) => i < |s.direct|
  }

  function Step(limits: Limits, s: State, e: Event): State
    requires Enabled(s, e)
  {
    match e
    case Record(entry, bytes) => RecordStep(limits, s, entry, bytes)
    case WriteDone(result) => WriteStep(s, result)
    case WriteEscapes => Settle(s, Lost, true)
    case DelayDone => s.(frame := Writing(s.frame.entry, s.frame.attempt + 1))
    case PumpResumes => if s.frame.escaped then PumpFinally(s) else PumpLoop(s)
    case DirectDone(i, result) =>
      s.(direct := Without(s.direct, i),
         directSettled := s.directSettled + [Settlement(s.direct[i], DirectOutcome(result), 1)])
  }

  /** The state after a run; None when some event was not possible. */
  function Run(limits: Limits, events: seq<Event>): Option<State> {
    if events == [] then Some(INIT)
    else
      var before := Run(limits, events[..|events| - 1]);
      var e := events[|events| - 1];
      if before.None? || !Enabled(before.value, e) then None else Some(Step(limits, before.value, e))
  }

  // ----- The class -----

  class QueuedExecutionRecorder {
    const limits: Limits
    var queue: seq<Entry>
    var entryBytes: map<Entry, nat>
    var queuedBytes: int
    var pumpPromise: bool
    var frame: Frame
    var direct: seq<Entry>
    ghost var accepted: seq<Entry>
    ghost var settled: seq<Settlement>
    ghost var bypassed: seq<Entry>
    ghost var directSettled: seq<Settlement>

    ghost function Abs(): State
      reads this
    {
      State(queue, entryBytes, queuedBytes, pumpPromise, frame, direct, accepted, settled, bypassed, directSettled)
    }

    constructor (limits: Limits)
      ensures this.limits == limits && Abs() == INIT
    {
      this.limits := limits;
      queue, entryBytes, queuedBytes := [], map[], 0;
      pumpPromise, frame, direct := false, Idle, [];
      accepted, settled, bypassed, directSettled := [], [], [], [];
    }

    /** recordInvocation up to its first await; the pump it may start runs to its first await too. */
    method RecordInvocation(entry: Entry, bytes: EntrySize)
      modifies this
      ensures Abs() == Step(limits, old(Abs()), Record(entry, bytes))
    {
      if |queue| >= limits.maxQueueSize || queuedBytes + bytes > limits.maxQueueBytes {
        direct, bypassed := direct + [entry], bypassed + [entry];
        return;
      }
      entryBytes := entryBytes[entry := bytes];
      queuedBytes := queuedBytes + bytes;
      queue, accepted := queue + [entry], accepted + [entry];
      if !pumpPromise {
        pumpPromise := true;
        Pump();
      }
    }

    /** The pump from its loop test to its next await. */
    method Pump()
      modifies this
      ensures Abs() == PumpLoop(old(Abs()))
    {
      if |queue| > 0 {
        var entry := queue[0];
        queue := queue[1..];
        queuedBytes := queuedBytes - (if entry in entryBytes then entryBytes[entry] else 0);
        frame := Writing(entry, 0);
      } else {
        pumpPromise, frame := false, Idle;
      }
    }

    /** writeWithRetry after inner.recordInvocation settled. */
    method OnWriteDone(result: WriteResult)
      requires frame.Writing?
      modifies this
      ensures Abs() == Step(limits, old(Abs()), WriteDone(result))
    {
      var entry, attempt := frame.entry, frame.attempt;
      match result
      case Success =>
        settled := settled + [Settlement(entry, Written, attempt + 1)];
        frame := Returning(false);
      case AuditError =>
        settled := settled + [Settlement(entry, AuditOnly, attempt + 1)];
        frame := Returning(false);
      case OtherError =>
        if attempt == MAX_RETRIES {
          settled := settled + [Settlement(entry, Dropped, attempt + 1)];
          frame := Returning(false);
        } else {
          frame := Delaying(entry, attempt);
        }
    }

    /** An exception leaves writeWithRetry, as when the logger throws. */
    method OnWriteEscapes()
      requires frame.Writing?
      modifies this
      ensures Abs() == Step(limits, old(Abs()), WriteEscapes)
    {
      settled := settled + [Settlement(frame.entry, Lost, frame.attempt + 1)];
      frame := Returning(true);
    }

    method OnDelayDone()
      requires frame.Delaying?
      modifies this
      ensures Abs() == Step(limits, old(Abs()), DelayDone)
    {
      frame := Writing(frame.entry, frame.attempt + 1);
    }

    /** The pump resumes after awaiting writeWithRetry: next round, or the finally block. */
    method OnPumpResumes()
      requires frame.Returning?
      modifies this
      ensures Abs() == Step(limits, old(Abs()), PumpResumes)
    {
      if frame.escaped {
        pumpPromise, frame := false, Idle;
        if |queue| > 0 {
          pumpPromise := true;
          Pump();
        }
      } else {
        Pump();
      }
    }

    /** writeOnce after its single attempt. */
    method OnDirectDone(index: nat, result: WriteResult)
      requires index < |direct|
      modifies this
      ensures Abs() == Step(limits, old(Abs()), DirectDone(index, result))
    {
      directSettled := directSettled + [Settlement(direct[index], DirectOutcome(result), 1)];
      direct := direct[..index] + direct[index + 1..];
    }
  }

  // ----- Invariants of every run -----

  function InFlight(frame: Frame): seq<Entry> {
    match frame
    case Writing(entry, _) => [entry]
    case Delaying(entry, _) => [entry]
    case _ => []
  }

  function Entries(settlements: seq<Settlement>): (r: seq<Entry>)
    ensures |r| == |settlements|
    ensures forall i :: 0 <= i < |r| ==> r[i] == settlements[i].entry
  {
    seq(|settlements|, i requires 0 <= i < |settlements| => settlements[i].entry)
  }

  /** A non-empty queue has a running pump, and the pump has at most one entry in flight. */
  predicate PumpRuns(s: State) {
    (s.queue != [] ==> s.pumping) && (s.pumping <==> s.frame != Idle)
  }

  /** Everything ever queued has settled, is in flight or is queued, in the order it was queued. */
  predicate InOrder(s: State) {
    s.accepted == Entries(s.settled) + InFlight(s.frame) + s.queue
  }

  predicate SettledRight(x: Settlement) {
    1 <= x.attempts <= MAX_RETRIES + 1 && (x.outcome.Dropped? ==> x.attempts == MAX_RETRIES + 1)
  }

  /** At most four attempts, four before a drop; a delay is only ever followed by a further attempt. */
  predicate AttemptsBounded(s: State) {
    && (s.frame.Writing? ==> s.frame.attempt <= MAX_RETRIES)
    && (s.frame.Delaying? ==> s.frame.attempt < MAX_RETRIES)
    && (forall i :: 0 <= i < |s.settled| ==> SettledRight(s.settled[i]))
    && (forall i :: 0 <= i < |s.directSettled| ==> s.directSettled[i].attempts == 1)
  }

  /** Every direct write is in flight or has its outcome. */
  predicate DirectConserved(s: State) {
    multiset(s.bypassed) == multiset(s.direct) + multiset(Entries(s.directSettled))
  }

  predicate SizeBounded(limits: Limits, s: State) {
    |s.queue| <= limits.maxQueueSize
  }

  predicate Inv(limits: Limits, s: State) {
    PumpRuns(s) && InOrder(s) && AttemptsBounded(s) && DirectConserved(s) && SizeBounded(limits, s)
  }

  lemma EntriesAppend(a: seq<Settlement>, x: Settlement)
    ensures Entries(a + [x]) == Entries(a) + [x.entry]
  {
  }

  lemma PumpLoopKeeps(limits: Limits, s: State)
    requires s.pumping && InFlight(s.frame) == [] && InOrder(s) && AttemptsBounded(s) && DirectConserved(s)
    requires |s.queue| <= limits.maxQueueSize + 1 && (s.frame.Idle? || |s.queue| <= limits.maxQueueSize)
    ensures Inv(limits, PumpLoop(s))
  {
    if s.queue != [] {
      assert s.queue == [s.queue[0]] + s.queue[1..];
      assert Entries(s.settled) + [] + s.queue == Entries(s.settled) + [s.queue[0]] + s.queue[1..];
    }
  }

  lemma RecordKeeps(limits: Limits, s: State, entry: Entry, bytes: nat)
    requires Inv(limits, s)
    ensures Inv(limits, RecordStep(limits, s, entry, bytes))
  {
    if IsFull(limits, s, bytes) {
      var t := RecordStep(limits, s, entry, bytes);
      assert multiset(t.bypassed) == multiset(s.bypassed) + multiset{entry};
    } else {
      var t := Enqueue(s, entry, bytes);
      assert Entries(s.settled) + InFlight(s.frame) + (s.queue + [entry])
          == Entries(s.settled) + InFlight(s.frame) + s.queue + [entry];
      if !t.pumping {
        PumpLoopKeeps(limits, t.(pumping := true));
      }
    }
  }

  lemma SettleKeeps(limits: Limits, s: State, outcome: Outcome, escaped: bool)
    requires Inv(limits, s) && s.frame.Writing?
    requires outcome.Dropped? ==> s.frame.attempt == MAX_RETRIES
    ensures Inv(limits, Settle(s, outcome, escaped))
  {
    EntriesAppend(s.settled, Settlement(s.frame.entry, outcome, s.frame.attempt + 1));
    assert Entries(s.settled) + [s.frame.entry] + s.queue == (Entries(s.settled) + [s.frame.entry]) + [] + s.queue;
  }

  lemma WithoutIsOneLess<T>(s: seq<T>, i: nat)
    requires i < |s|
    ensures multiset(s) == multiset(Without(s, i)) + multiset{s[i]}
  {
    assert s == s[..i] + [s[i]] + s[i + 1..];
  }

  lemma DirectKeeps(limits: Limits, s: State, i: nat, result: WriteResult)
    requires Inv(limits, s) && i < |s.direct|
    ensures Inv(limits, Step(limits, s, DirectDone(i, result)))
  {
    WithoutIsOneLess(s.direct, i);
    EntriesAppend(s.directSettled, Settlement(s.direct[i], DirectOutcome(result), 1));
  }

  /** Every step keeps the invariant. */
  lemma StepKeeps(limits: Limits, s: State, e: Event)
    requires Inv(limits, s) && Enabled(s, e)
    ensures Inv(limits, Step(limits, s, e))
  {
    match e
    case Record(entry, bytes) => RecordKeeps(limits, s, entry, bytes);
    case WriteDone(result) =>
      match result {
        case Success => SettleKeeps(limits, s, Written, false);
        case AuditError => SettleKeeps(limits, s, AuditOnly, false);
        case OtherError =>
          if s.frame.attempt == MAX_RETRIES {
            SettleKeeps(limits, s, Dropped, false);
          }
      }
    case WriteEscapes => SettleKeeps(limits, s, Lost, true);
    case DelayDone =>
    case PumpResumes =>
      if s.frame.escaped {
        if s.queue != [] {
          PumpLoopKeeps(limits, s.(pumping := true, frame := Idle));
        }
      } else {
        PumpLoopKeeps(limits, s);
      }
    case DirectDone(i, result) => DirectKeeps(limits, s, i, result);
  }

  /** In every reachable state: a pump runs for a non-empty queue, order and attempts are as promised. */
  lemma {:induction false} RunKeeps(limits: Limits, events: seq<Event>)
    requires Run(limits, events).Some?
    ensures Inv(limits, Run(limits, events).value)
    decreases |events|
  {
    if events != [] {
      var before := events[..|events| - 1];
      RunKeeps(limits, before);
      StepKeeps(limits, Run(limits, before).value, events[|events| - 1]);
    }
  }

  // ----- Conservation -----

  /** The entries handed to recordInvocation during a run. */
  function Handed(events: seq<Event>): seq<Entry> {
    if events == [] then []
    else
      var e := events[|events| - 1];
      Handed(events[..|events| - 1]) + (if e.Record? then [e.entry] else [])
  }

  lemma StepHands(limits: Limits, s: State, e: Event)
    requires Enabled(s, e)
    ensures var t := Step(limits, s, e);
            multiset(t.accepted) + multiset(t.bypassed)
            == multiset(s.accepted) + multiset(s.bypassed) + (if e.Record? then multiset{e.entry} else multiset{})
  {
    var t := Step(limits, s, e);
    if e.Record? {
      assert t.accepted == s.accepted + [e.entry] || t.bypassed == s.bypassed + [e.entry];
    } else {
      assert t.accepted == s.accepted && t.bypassed == s.bypassed;
    }
  }

  lemma {:induction false} RunHands(limits: Limits, events: seq<Event>)
    requires Run(limits, events).Some?
    ensures var s := Run(limits, events).value;
            multiset(Handed(events)) == multiset(s.accepted) + multiset(s.bypassed)
    decreases |events|
  {
    if events != [] {
      var before := events[..|events| - 1];
      RunHands(limits, before);
      StepHands(limits, Run(limits, before).value, events[|events| - 1]);
    }
  }

  /** Each entry handed over is exactly one of queued, in flight, or settled, directly or by the pump. */
  lemma Conservation(limits: Limits, events: seq<Event>)
    requires Run(limits, events).Some?
    ensures var s := Run(limits, events).value;
            multiset(Handed(events))
            == multiset(s.queue) + multiset(InFlight(s.frame)) + multiset(Entries(s.settled))
               + multiset(s.direct) + multiset(Entries(s.directSettled))
  {
    RunHands(limits, events);
    RunKeeps(limits, events);
  }

  predicate NothingLost(s: State) {
    && (forall i :: 0 <= i < |s.settled| ==> !s.settled[i].outcome.Lost?)
    && (s.frame.Returning? ==> !s.frame.escaped)
  }

  lemma StepLosesNothing(limits: Limits, s: State, e: Event)
    requires NothingLost(s) && Enabled(s, e) && !e.WriteEscapes?
    ensures NothingLost(Step(limits, s, e))
  {
  }

  /** Only an exception that escapes the write can leave an entry without one of the three outcomes. */
  lemma {:induction false} OnlyEscapesLose(limits: Limits, events: seq<Event>)
    requires Run(limits, events).Some?
    requires forall i :: 0 <= i < |events| ==> !events[i].WriteEscapes?
    ensures NothingLost(Run(limits, events).value)
    decreases |events|
  {
    if events != [] {
      var before := events[..|events| - 1];
      assert forall i :: 0 <= i < |before| ==> before[i] == events[i];
      OnlyEscapesLose(limits, before);
      StepLosesNothing(limits, Run(limits, before).value, events[|events| - 1]);
    }
  }

  // ----- Byte accounting -----

  function SumBytes(queue: seq<Entry>, m: map<Entry, nat>): nat {
    if queue == [] then 0 else BytesOf(m, queue[0]) + SumBytes(queue[1..], m)
  }

  /** queuedBytes is the sum of the recorded sizes of the queued entries, within the budget. */
  predicate BytesExact(limits: Limits, s: State) {
    && (forall i :: 0 <= i < |s.queue| ==> s.queue[i] in s.entryBytes)
    && s.queuedBytes == SumBytes(s.queue, s.entryBytes)
    && s.queuedBytes <= limits.maxQueueBytes
  }

  /** An object that is still queued is only handed over again with the size it was queued with. */
  predicate SameSize(s: State, entry: Entry, bytes: nat) {
    entry in s.queue && entry in s.entryBytes ==> s.entryBytes[entry] == bytes
  }

  lemma {:induction false} SumAppend(queue: seq<Entry>, entry: Entry, m: map<Entry, nat>)
    ensures SumBytes(queue + [entry], m) == SumBytes(queue, m) + BytesOf(m, entry)
    decreases |queue|
  {
    if queue == [] {
      assert queue + [entry] == [entry];
      assert [entry][1..] == [];
    } else {
      assert (queue + [entry])[1..] == queue[1..] + [entry];
      SumAppend(queue[1..], entry, m);
    }
  }

  /** Re-recording the size of an entry changes the sum exactly when a queued entry changes size. */
  lemma {:induction false} SumUpdate(queue: seq<Entry>, m: map<Entry, nat>, entry: Entry, bytes: nat)
    requires forall i :: 0 <= i < |queue| ==> queue[i] in m
    ensures bytes >= BytesOf(m, entry) ==> SumBytes(queue, m[entry := bytes]) >= SumBytes(queue, m)
    ensures bytes <= BytesOf(m, entry) ==> SumBytes(queue, m[entry := bytes]) <= SumBytes(queue, m)
    ensures SumBytes(queue, m[entry := bytes]) == SumBytes(queue, m)
       <==> (entry in queue ==> BytesOf(m, entry) == bytes)
    decreases |queue|
  {
    if queue != [] {
      assert forall i :: 0 <= i < |queue[1..]| ==> queue[1..][i] == queue[i + 1];
      SumUpdate(queue[1..], m, entry, bytes);
      assert entry in queue <==> entry == queue[0] || entry in queue[1..];
    }
  }

  lemma PumpLoopBytes(limits: Limits, s: State)
    requires BytesExact(limits, s)
    ensures BytesExact(limits, PumpLoop(s))
  {
    if s.queue != [] {
      assert forall i :: 0 <= i < |s.queue[1..]| ==> s.queue[1..][i] == s.queue[i + 1];
    }
  }

  lemma EnqueueBytes(limits: Limits, s: State, entry: Entry, bytes: nat)
    requires BytesExact(limits, s) && s.queuedBytes + bytes <= limits.maxQueueBytes
    ensures BytesExact(limits, Enqueue(s, entry, bytes)) <==> SameSize(s, entry, bytes)
  {
    var t := Enqueue(s, entry, bytes);
    SumAppend(s.queue, entry, t.entryBytes);
    SumUpdate(s.queue, s.entryBytes, entry, bytes);
    assert forall i :: 0 <= i < |s.queue| ==> t.queue[i] == s.queue[i];
  }

  /** Handing an entry over keeps the accounting exact if and only if no queued object changed size. */
  lemma RecordBytesExactly(limits: Limits, s: State, entry: Entry, bytes: nat)
    requires Inv(limits, s) && BytesExact(limits, s) && !IsFull(limits, s, bytes)
    ensures BytesExact(limits, RecordStep(limits, s, entry, bytes)) <==> SameSize(s, entry, bytes)
  {
    EnqueueBytes(limits, s, entry, bytes);
    if !s.pumping {
      PumpLoopBytes(limits, Enqueue(s, entry, bytes).(pumping := true));
    }
  }

  /** An object that is still queued is queued again, with another size. */
  predicate Resizes(limits: Limits, s: State, e: Event) {
    e.Record? && !IsFull(limits, s, e.bytes) && !SameSize(s, e.entry, e.bytes)
  }

  /** A step keeps the byte count exact if and only if it does not queue a queued object with another size. */
  lemma StepBytes(limits: Limits, s: State, e: Event)
    requires Inv(limits, s) && BytesExact(limits, s) && Enabled(s, e)
    ensures BytesExact(limits, Step(limits, s, e)) <==> !Resizes(limits, s, e)
  {
    match e
    case Record(entry, bytes) =>
      if !IsFull(limits, s, bytes) {
        RecordBytesExactly(limits, s, entry, bytes);
      }
    case PumpResumes =>
      if s.frame.escaped {
        PumpLoopBytes(limits, s.(pumping := true, frame := Idle));
      } else {
        PumpLoopBytes(limits, s);
      }
    case _ =>
  }

  /** No event of the run queues a queued object again with another size. */
  predicate SizesStable(limits: Limits, events: seq<Event>) {
    events == []
    || (var before, e := events[..|events| - 1], events[|events| - 1];
        && SizesStable(limits, before)
        && (Run(limits, before).Some? ==> !Resizes(limits, Run(limits, before).value, e)))
  }

  /** The byte count is exact, and so both budgets respected, at every point of the run. */
  predicate ExactThroughout(limits: Limits, events: seq<Event>) {
    && (Run(limits, events).Some? ==> BytesExact(limits, Run(limits, events).value))
    && (events == [] || ExactThroughout(limits, events[..|events| - 1]))
  }

  /** The byte count is exact throughout a run if and only if no queued object is queued with another size. */
  lemma {:induction false} RunBytesExactly(limits: Limits, events: seq<Event>)
    requires Run(limits, events).Some?
    ensures ExactThroughout(limits, events) <==> SizesStable(limits, events)
    decreases |events|
  {
    if events != [] {
      var before := events[..|events| - 1];
      RunBytesExactly(limits, before);
      RunKeeps(limits, before);
      var s := Run(limits, before).value;
      if BytesExact(limits, s) {
        StepBytes(limits, s, events[|events| - 1]);
      }
    }
  }

  const DEFAULT_LIMITS := Limits(500, 32 * 1024 * 1024)

  /** Without that condition the count drifts: here an empty queue is left with a negative byte count. */
  lemma ResizedEntryDrifts()
    ensures exists events ::
              && Run(DEFAULT_LIMITS, events).Some?
              && Run(DEFAULT_LIMITS, events).value.queue == []
              && Run(DEFAULT_LIMITS, events).value.queuedBytes < 0
  {
    var limits := DEFAULT_LIMITS;
    var e0: seq<Event> := [];
    var s1 := Step(limits, INIT, Record(0, 256));
    var s2 := Step(limits, s1, Record(1, 256));
    var s3 := Step(limits, s2, Record(1, 300));
    var s4 := Step(limits, s3, WriteDone(Success));
    var s5 := Step(limits, s4, PumpResumes);
    var s6 := Step(limits, s5, WriteDone(Success));
    var s7 := Step(limits, s6, PumpResumes);
    assert s3.queue == [1, 1] && s3.queuedBytes == 556;
    assert s5.queue == [1] && s5.queuedBytes == 256;
    assert s7.queue == [] && s7.queuedBytes == -44;
    var e1 := RunMore(limits, e0, INIT, Record(0, 256));
    var e2 := RunMore(limits, e1, s1, Record(1, 256));
    var e3 := RunMore(limits, e2, s2, Record(1, 300));
    var e4 := RunMore(limits, e3, s3, WriteDone(Success));
    var e5 := RunMore(limits, e4, s4, PumpResumes);
    var e6 := RunMore(limits, e5, s5, WriteDone(Success));
    var e7 := RunMore(limits, e6, s6, PumpResumes);
  }

  lemma RunMore(limits: Limits, events: seq<Event>, s: State, e: Event) returns (more: seq<Event>)
    requires Run(limits, events) == Some(s) && Enabled(s, e)
    ensures Run(limits, more) == Some(Step(limits, s, e))
  {
    more := events + [e];
    assert more[..|more| - 1] == events;
  }

  // ----- Progress of the pump -----

  /** The pump events still needed to settle what is queued and in flight, at worst. */
  function Work(s: State): nat {
    8 * |s.queue|
    + match s.frame
      case Idle => 0
      case Writing(_, attempt) => if attempt <= MAX_RETRIES then 8 - 2 * attempt else 0
      case Delaying(_, attempt) => if attempt < MAX_RETRIES then 7 - 2 * attempt else 0
      case Returning(_) => 1
  }

  predicate IsPumpEvent(e: Event) {
    e.WriteDone? || e.WriteEscapes? || e.DelayDone? || e.PumpResumes?
  }

  /** A recorder without work has settled every entry ever queued, in the order it was queued. */
  lemma IdleHasSettled(limits: Limits, s: State)
    requires Inv(limits, s) && s.queue == [] && !s.pumping
    ensures s.accepted == Entries(s.settled)
  {
    assert Entries(s.settled) + [] + [] == Entries(s.settled);
  }

  /** While work is left some pump event is possible, and each one leaves strictly less work. */
  lemma PumpProgress(limits: Limits, s: State, e: Event)
    requires Inv(limits, s)
    ensures Work(s) == 0 <==> s.queue == [] && !s.pumping
    ensures 0 < Work(s) ==> Enabled(s, WriteDone(Success)) || Enabled(s, DelayDone) || Enabled(s, PumpResumes)
    ensures IsPumpEvent(e) && Enabled(s, e) ==> Work(Step(limits, s, e)) < Work(s)
    ensures e.DirectDone? && Enabled(s, e) ==> Work(Step(limits, s, e)) == Work(s)
  {
  }

  /** So with no new entries, any sequence of Work(s) pump events drains the recorder. */
  lemma {:induction false} PumpEventsDrain(limits: Limits, s: State, events: seq<Event>, states: seq<State>)
    requires Inv(limits, s) && |states| == |events| + 1 && states[0] == s
    requires forall i :: 0 <= i < |events| ==> IsPumpEvent(events[i])
    requires forall i :: 0 <= i < |events| ==>
               Enabled(states[i], events[i]) && states[i + 1] == Step(limits, states[i], events[i])
    ensures Work(states[|events|]) + |events| <= Work(s)
    ensures |events| == Work(s) ==>
              !states[|events|].pumping && states[|events|].accepted == Entries(states[|events|].settled)
    ensures Inv(limits, states[|events|])
    decreases |events|
  {
    if events != [] {
      var n := |events| - 1;
      var before := events[..n];
      assert forall i :: 0 <= i < n ==> before[i] == events[i];
      assert forall i :: 0 <= i <= n ==> states[..n + 1][i] == states[i];
      PumpEventsDrain(limits, s, before, states[..n + 1]);
      PumpProgress(limits, states[n], events[n]);
      StepKeeps(limits, states[n], events[n]);
    }
    PumpProgress(limits, states[|events|], PumpResumes);
    if Work(states[|events|]) == 0 {
      IdleHasSettled(limits, states[|events|]);
    }
  }
}
