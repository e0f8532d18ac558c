/**
 What becomes of each entry of the recorder (queued-execution-recorder.ts), read off the answers the
 writer gave in a run.
 */
module Outcomes {
  import opened Recorder

  /** How one write of the pump ended. */
  datatype Answer = Answered(result: WriteResult) | Escaped

  const FAILED_WRITE := Answered(OtherError)

  function AnswerIn(e: Event): seq<Answer> {
    match e
    case WriteDone(result) => [Answered(result)]
    case WriteEscapes => [Escaped]
    case _ => []
  }

  /** Every answer to a write of the pump, in order. */
  function Answers(events: seq<Event>): seq<Answer> {
    if events == [] then [] else Answers(events[..|events| - 1]) + AnswerIn(events[|events| - 1])
  }

  function Flat(groups: seq<seq<Answer>>): seq<Answer> {
    if groups == [] then [] else Flat(groups[..|groups| - 1]) + groups[|groups| - 1]
  }

  predicate AllFailed(answers: seq<Answer>) {
    forall i :: 0 <= i < |answers| ==> answers[i] == FAILED_WRITE
  }

  /** These answers to the writes of one entry settle it so: retried while they fail, at most four times in all. */
  predicate SettlesAs(answers: seq<Answer>, x: Settlement) {
    && 1 <= |answers| <= 4 && x.attempts == |answers|
    && AllFailed(answers[..|answers| - 1])
    && match answers[|answers| - 1]
       case Answered(Success) => x.outcome == Written
       case Answered(AuditError) => x.outcome == AuditOnly
       case Answered(OtherError) => x.outcome == Dropped && |answers| == 4
       case Escaped => x.outcome == Lost
  }

  /** These answers came to the writes of the entry in flight: all failed, and a further attempt is made or due. */
  predicate LeavesInFlight(answers: seq<Answer>, frame: Frame) {
    && AllFailed(answers)
    && match frame
       case Writing(_, attempt) => attempt == |answers| <= 3
       case Delaying(_, attempt) => attempt + 1 == |answers| <= 3
       case _ => answers == []
  }

  /** The answers fall into one group for each entry settled, and those so far for the entry in flight. */
  ghost predicate Explains(groups: seq<seq<Answer>>, pending: seq<Answer>, s: State) {
    && |groups| == |s.settled|
    && (forall k :: 0 <= k < |groups| ==> SettlesAs(groups[k], s.settled[k]))
    && LeavesInFlight(pending, s.frame)
  }

  lemma PumpLoopIsFresh(s: State)
    ensures PumpLoop(s).settled == s.settled
    ensures LeavesInFlight([], PumpLoop(s).frame)
  {
  }

  lemma RecordLeavesAnswers(limits: Limits, s: State, entry: Entry, bytes: nat)
    requires Inv(limits, s)
    ensures var t := RecordStep(limits, s, entry, bytes);
            t.settled == s.settled && (t.frame == s.frame || (s.frame.Idle? && LeavesInFlight([], t.frame)))
  {
  }

  /** An answer goes to the entry in flight: it is settled, or has failed once more. */
  lemma AnswerExplained(limits: Limits, s: State, e: Event, groups: seq<seq<Answer>>, pending: seq<Answer>)
    requires Inv(limits, s) && s.frame.Writing? && (e.WriteDone? || e.WriteEscapes?) && Explains(groups, pending, s)
    ensures var t := Step(limits, s, e);
            if t.frame.Delaying? then Explains(groups, pending + AnswerIn(e), t)
            else Explains(groups + [pending + AnswerIn(e)], [], t)
  {
    var t, group := Step(limits, s, e), pending + AnswerIn(e);
    assert group[..|group| - 1] == pending;
    if !t.frame.Delaying? {
      assert SettlesAs(group, t.settled[|s.settled|]);
      assert forall k :: 0 <= k < |groups| ==> t.settled[k] == s.settled[k];
    }
  }

  lemma {:induction false} FlatAppend(groups: seq<seq<Answer>>, group: seq<Answer>)
    ensures Flat(groups + [group]) == Flat(groups) + group
  {
    assert (groups + [group])[..|groups|] == groups;
  }

  /** A step that brings no answer explains as before: the entry in flight is the same, or a new one. */
  lemma QuietExplained(limits: Limits, s: State, e: Event, groups: seq<seq<Answer>>, pending: seq<Answer>)
    requires Inv(limits, s) && Enabled(s, e) && AnswerIn(e) == [] && Explains(groups, pending, s)
    ensures Explains(groups, pending, Step(limits, s, e))
  {
    hide Inv, AllFailed, SettlesAs;
    if e.PumpResumes? {
      PumpLoopIsFresh(s);
      PumpLoopIsFresh(s.(pumping := true, frame := Idle));
    } else if e.Record? {
      RecordLeavesAnswers(limits, s, e.entry, e.bytes);
    }
  }

  lemma FlatGroup(groups: seq<seq<Answer>>, pending: seq<Answer>, answer: seq<Answer>)
    ensures Flat(groups + [pending + answer]) + [] == Flat(groups) + pending + answer
    ensures Flat(groups) + (pending + answer) == Flat(groups) + pending + answer
  {
    FlatAppend(groups, pending + answer);
  }

  /**
   In every run: the answers of the writer, cut into groups, are what settled the entries one after the
   other, and what the entry in flight has been answered so far.
   */
  lemma {:induction false} AnswersDecide(limits: Limits, events: seq<Event>)
    returns (groups: seq<seq<Answer>>, pending: seq<Answer>)
    requires Run(limits, events).Some?
    ensures Flat(groups) + pending == Answers(events)
    ensures Explains(groups, pending, Run(limits, events).value)
    decreases |events|
  {
    groups, pending := [], [];
    if events != [] {
      var before, e := events[..|events| - 1], events[|events| - 1];
      groups, pending := AnswersDecide(limits, before);
      RunKeeps(limits, before);
      hide Inv, Explains, Step, Flat;
      var s := Run(limits, before).value;
      if AnswerIn(e) == [] {
        QuietExplained(limits, s, e, groups, pending);
      } else {
        AnswerExplained(limits, s, e, groups, pending);
        FlatGroup(groups, pending, AnswerIn(e));
        if Step(limits, s, e).frame.Delaying? {
          pending := pending + AnswerIn(e);
        } else {
          groups, pending := groups + [pending + AnswerIn(e)], [];
        }
      }
    } else {
      assert Explains([], [], INIT);
    }
  }

  /** The k-th entry settled is the k-th queued, and the one in flight is the next. */
  lemma WhoIsSettled(limits: Limits, events: seq<Event>, k: nat)
    requires Run(limits, events).Some?
    ensures var s := Run(limits, events).value;
            && (k < |s.settled| ==> k < |s.accepted| && s.settled[k].entry == s.accepted[k])
            && (s.frame.Writing? || s.frame.Delaying? ==>
                  |s.settled| < |s.accepted| && s.frame.entry == s.accepted[|s.settled|])
  {
    RunKeeps(limits, events);
  }

  // ----- Direct writes -----

  function DirectAnswers(events: seq<Event>): seq<WriteResult> {
    if events == [] then []
    else
      var e := events[|events| - 1];
      DirectAnswers(events[..|events| - 1]) + (if e.DirectDone? then [e.result] else [])
  }

  /** A direct write has one answer, and that decides. */
  predicate DirectSettlesAs(answer: WriteResult, x: Settlement) {
    && x.attempts == 1
    && match answer
       case Success => x.outcome == Written
       case AuditError => x.outcome == AuditOnly
       case OtherError => x.outcome == Dropped
  }

  /** Only the answer to a direct write settles one. */
  lemma DirectStep(limits: Limits, s: State, e: Event)
    requires Enabled(s, e)
    ensures var settled, after := s.directSettled, Step(limits, s, e).directSettled;
            if e.DirectDone?
            then
              && |after| == |settled| + 1 && after[..|settled|] == settled
              && DirectSettlesAs(e.result, after[|settled|])
            else after == settled
  {
  }

  /** In every run each direct write is settled by its one answer. */
  lemma {:induction false} DirectAnswersDecide(limits: Limits, events: seq<Event>)
    requires Run(limits, events).Some?
    ensures var settled, answers := Run(limits, events).value.directSettled, DirectAnswers(events);
            |settled| == |answers| && forall k :: 0 <= k < |settled| ==> DirectSettlesAs(answers[k], settled[k])
    decreases |events|
  {
    if events != [] {
      var before := events[..|events| - 1];
      DirectAnswersDecide(limits, before);
      DirectStep(limits, Run(limits, before).value, events[|events| - 1]);
      hide Step, Enabled, DirectSettlesAs;
      var settled := Run(limits, before).value.directSettled;
      assert forall k :: 0 <= k < |settled| ==> Run(limits, events).value.directSettled[k] == settled[k];
    }
  }

  // ----- The choice between the two -----

  /** An entry is written directly if and only if queueing it would break one of the two budgets. */
  lemma BypassedExactlyWhenFull(limits: Limits, s: State, entry: Entry, bytes: EntrySize)
    ensures var t := Step(limits, s, Record(entry, bytes));
            if limits.maxQueueSize < |s.queue| + 1 || limits.maxQueueBytes < s.queuedBytes + bytes
            then t.bypassed == s.bypassed + [entry] && t.direct == s.direct + [entry] && t.accepted == s.accepted
            else t.accepted == s.accepted + [entry] && t.bypassed == s.bypassed && t.pumping
  {
  }
}
