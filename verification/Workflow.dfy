/**
 The sequential workflow runner (workflow.service.ts) and the contribution a script step hands
 back (script-worker.ts). Bags of top-level variables are maps; a step is an arbitrary function of
 the bag it is given.
 */
module Workflow {
  import opened Prelude
  import opened Json

  type Bag = map<string, Value>

  /** What executor.invoke yields for one step; only plain objects are merged. */
  datatype StepResult = Data(delta: Bag) | NotAnObject | Threw(code: nat)

  datatype Step = Step(componentKnown: bool, continueOnFailure: bool)

  /** How a run ends: normally, with a step's error, or with a step whose component is gone. */
  datatype Ending = Finished(data: Bag) | Halted(code: nat) | MissingComponent

  /** The context after a step, and what was contributed so far. */
  datatype State = State(context: Bag, contributions: Bag)

  /** The behaviour of the executor: a result for each step and each context it may be given. */
  type Executor = (nat, Bag) -> StepResult

  // ----- Specification -----

  function Merge(s: State, result: StepResult): State {
    if result.Data? then State(s.context + result.delta, s.contributions + result.delta) else s
  }

  predicate Stops(step: Step, result: StepResult) {
    !step.componentKnown || (result.Threw? && !step.continueOnFailure)
  }

  /** The state after the first n steps, for a run that got that far. */
  function After(input: Bag, steps: seq<Step>, run: Executor, n: nat): State
    requires n <= |steps|
  {
    if n == 0 then State(input, map[])
    else
      var before := After(input, steps, run, n - 1);
      Merge(before, run(n - 1, before.context))
  }

  predicate Reaches(input: Bag, steps: seq<Step>, run: Executor, n: nat)
    requires n <= |steps|
  {
    n == 0
    || (&& Reaches(input, steps, run, n - 1)
        && !Stops(steps[n - 1], run(n - 1, After(input, steps, run, n - 1).context)))
  }

  // ----- The runner -----

  /** WorkflowService.execute after its lookups; stopped is the number of steps that completed. */
  method Execute(input: Bag, steps: seq<Step>, run: Executor) returns (ending: Ending, stopped: nat)
    ensures stopped <= |steps| && Reaches(input, steps, run, stopped)
    ensures ending.Finished? ==> stopped == |steps| && ending.data == After(input, steps, run, |steps|).contributions
    ensures !ending.Finished? ==>
              stopped < |steps| && Stops(steps[stopped], run(stopped, After(input, steps, run, stopped).context))
    ensures ending.MissingComponent? <==> stopped < |steps| && !steps[stopped].componentKnown
    ensures ending.Halted? ==> run(stopped, After(input, steps, run, stopped).context) == Threw(ending.code)
  {
    var context: Bag, contributions: Bag := input, map[];
    for i := 0 to |steps|
      invariant Reaches(input, steps, run, i)
      invariant After(input, steps, run, i) == State(context, contributions)
    {
      if !steps[i].componentKnown {
        return MissingComponent, i;
      }
      var result := run(i, context);
      match result
      case Data(delta) =>
        context := context + delta;
        contributions := contributions + delta;
      case NotAnObject =>
      case Threw(code) =>
        if !steps[i].continueOnFailure {
          return Halted(code), i;
        }
    }
    return Finished(contributions), |steps|;
  }

  /** Step i lets the run go on: its component exists, and it does not fail unless it is set to continue. */
  predicate GoesOn(input: Bag, steps: seq<Step>, run: Executor, i: nat)
    requires i < |steps|
  {
    steps[i].componentKnown
    && match run(i, After(input, steps, run, i).context)
       case Threw(_) => steps[i].continueOnFailure
       case _ => true
  }

  /** A run gets as far as n steps if and only if each of them lets it go on. */
  lemma {:induction false} ReachesExactlyWhen(input: Bag, steps: seq<Step>, run: Executor, n: nat)
    requires n <= |steps|
    ensures Reaches(input, steps, run, n) <==> forall i :: 0 <= i < n ==> GoesOn(input, steps, run, i)
    decreases n
  {
    if 0 < n {
      ReachesExactlyWhen(input, steps, run, n - 1);
      assert !Stops(steps[n - 1], run(n - 1, After(input, steps, run, n - 1).context))
          == GoesOn(input, steps, run, n - 1);
    }
  }

  /** So the first step that does not ends it, with its error if its component exists. */
  lemma FirstStopEnds(input: Bag, steps: seq<Step>, run: Executor, n: nat)
    requires n < |steps| && Reaches(input, steps, run, n)
    ensures Stops(steps[n], run(n, After(input, steps, run, n).context)) <==> !GoesOn(input, steps, run, n)
    ensures forall i :: 0 <= i < n ==> GoesOn(input, steps, run, i)
  {
    ReachesExactlyWhen(input, steps, run, n);
  }

  /** After any prefix of the steps the shared context is the input overridden by the contributions. */
  lemma {:induction false} ContextIsInputPlusContributions(input: Bag, steps: seq<Step>, run: Executor, n: nat)
    requires n <= |steps|
    ensures After(input, steps, run, n).context == input + After(input, steps, run, n).contributions
    decreases n
  {
    if 0 < n {
      ContextIsInputPlusContributions(input, steps, run, n - 1);
      var before := After(input, steps, run, n - 1);
      var result := run(n - 1, before.context);
      if result.Data? {
        assert (input + before.contributions) + result.delta == input + (before.contributions + result.delta);
      }
    }
  }

  function DropAt<T>(s: seq<T>, k: nat): seq<T>
    requires k < |s|
  {
    s[..k] + s[k + 1..]
  }

  /** The executor as the other steps see it once step k is gone. */
  ghost predicate RunsWithout(run: Executor, rest: Executor, k: nat) {
    forall i: nat, bag: Bag {:trigger rest(i, bag)} :: rest(i, bag) == run(if i < k then i else i + 1, bag)
  }

  lemma {:induction false} SameUpTo(input: Bag, steps: seq<Step>, run: Executor, rest: Executor, k: nat, n: nat)
    requires n <= k < |steps| && RunsWithout(run, rest, k)
    ensures After(input, DropAt(steps, k), rest, n) == After(input, steps, run, n)
    ensures Reaches(input, DropAt(steps, k), rest, n) <==> Reaches(input, steps, run, n)
    decreases n
  {
    if 0 < n {
      SameUpTo(input, steps, run, rest, k, n - 1);
      assert DropAt(steps, k)[n - 1] == steps[n - 1];
    }
  }

  /**
   A failed step that continues, and one without an object result, leave no trace: the rest of the
   run, where it stops included, is that of the workflow without the step.
   */
  lemma {:induction false} FailedStepLeavesNoTrace(
    input: Bag, steps: seq<Step>, run: Executor, rest: Executor, k: nat, n: nat)
    requires k < n <= |steps| && RunsWithout(run, rest, k)
    requires steps[k].componentKnown && !run(k, After(input, steps, run, k).context).Data?
    requires run(k, After(input, steps, run, k).context).Threw? ==> steps[k].continueOnFailure
    ensures After(input, DropAt(steps, k), rest, n - 1) == After(input, steps, run, n)
    ensures Reaches(input, DropAt(steps, k), rest, n - 1) <==> Reaches(input, steps, run, n)
    decreases n
  {
    if n == k + 1 {
      SameUpTo(input, steps, run, rest, k, k);
    } else {
      FailedStepLeavesNoTrace(input, steps, run, rest, k, n - 1);
      assert DropAt(steps, k)[n - 2] == steps[n - 1];
    }
  }

  /** Later writes win: a variable has the value of the last step that contributed it. */
  lemma {:induction false} LastContributionWins(
    input: Bag, steps: seq<Step>, run: Executor, m: nat, n: nat, key: string)
    requires m < n <= |steps|
    requires run(m, After(input, steps, run, m).context).Data?
    requires key in run(m, After(input, steps, run, m).context).delta
    requires forall i :: m < i < n && run(i, After(input, steps, run, i).context).Data? ==>
               key !in run(i, After(input, steps, run, i).context).delta
    ensures key in After(input, steps, run, n).contributions
    ensures After(input, steps, run, n).contributions[key] == run(m, After(input, steps, run, m).context).delta[key]
    decreases n
  {
    if m + 1 < n {
      LastContributionWins(input, steps, run, m, n - 1, key);
    }
  }

  // ----- The contribution of a script -----

  /** JSON.stringify of a value; None stands for "not serializable". */
  type Snapshot = Value -> Option<string>

  /** A set of JSON values: they have texts, and equal texts only when equal. */
  ghost predicate JsonWorld(world: iset<Value>, snapshot: Snapshot) {
    && (forall v :: v in world ==> snapshot(v).Some?)
    && (forall v, w :: v in world && w in world && snapshot(v) == snapshot(w) ==> v == w)
  }

  ghost predicate Within(bag: Bag, world: iset<Value>) {
    forall key :: key in bag ==> bag[key] in world
  }

  predicate Changed(before: Bag, bag: Bag, snapshot: Snapshot, key: string) {
    key in bag && (key !in before || snapshot(before[key]) != snapshot(bag[key]))
  }

  /** The diff loop of evaluate: the variables the script added or changed. */
  method Contribution(before: Bag, bag: Bag, snapshot: Snapshot) returns (delta: Bag)
    ensures forall key :: key in delta <==> Changed(before, bag, snapshot, key)
    ensures forall key :: key in delta ==> key in bag && delta[key] == bag[key]
  {
    delta := map[];
    var keys := bag.Keys;
    while keys != {}
      invariant keys <= bag.Keys
      invariant forall key :: key in delta <==> key in bag && key !in keys && Changed(before, bag, snapshot, key)
      invariant forall key :: key in delta ==> delta[key] == bag[key]
      decreases keys
    {
      var key :| key in keys;
      keys := keys - {key};
      if key !in before || snapshot(before[key]) != snapshot(bag[key]) {
        delta := delta[key := bag[key]];
      }
    }
  }

  function Delta(before: Bag, bag: Bag, snapshot: Snapshot): Bag {
    map key | key in bag && Changed(before, bag, snapshot, key) :: bag[key]
  }

  /** Merging the contribution into the starting bag gives the final bag on every key left in it. */
  lemma DeltaReproducesBag(before: Bag, bag: Bag, snapshot: Snapshot, world: iset<Value>)
    requires JsonWorld(world, snapshot) && Within(before, world) && Within(bag, world)
    ensures var merged := before + Delta(before, bag, snapshot);
            && merged.Keys == before.Keys + bag.Keys
            && (forall key :: key in bag ==> merged[key] == bag[key])
            && (forall key :: key in before && key !in bag ==> merged[key] == before[key])
    ensures before.Keys <= bag.Keys ==> before + Delta(before, bag, snapshot) == bag
  {
    assert forall key :: key in bag && !Changed(before, bag, snapshot, key) ==>
        before[key] in world && bag[key] in world;
  }

  // ----- Chains of scripts -----

  /** Given a bag of values in the world, the script leaves such a bag. */
  ghost predicate StaysWithin(script: Bag -> Bag, world: iset<Value>) {
    forall bag: Bag {:trigger script(bag)} :: Within(bag, world) ==> Within(script(bag), world)
  }

  /** A step that runs the script on a copy of the context and hands back its contribution. */
  ghost predicate RunsScript(run: Executor, i: nat, script: Bag -> Bag, snapshot: Snapshot, world: iset<Value>) {
    forall bag: Bag {:trigger run(i, bag)} :: Within(bag, world) ==>
        run(i, bag) == Data(Delta(bag, script(bag), snapshot))
  }

  /** The scripts one after the other on one bag, where a variable that a script deletes stays. */
  function OnOneBag(input: Bag, scripts: seq<Bag -> Bag>, n: nat): Bag
    requires n <= |scripts|
  {
    if n == 0 then input
    else
      var bag := OnOneBag(input, scripts, n - 1);
      bag + scripts[n - 1](bag)
  }

  /** A workflow of scripts gives the context that running them in turn on one bag would give. */
  lemma {:induction false} ScriptsRefineOneBag(
    input: Bag, steps: seq<Step>, scripts: seq<Bag -> Bag>, run: Executor, snapshot: Snapshot, world: iset<Value>,
    n: nat)
    requires n <= |scripts| == |steps| && JsonWorld(world, snapshot) && Within(input, world)
    requires forall i :: 0 <= i < n ==>
               StaysWithin(scripts[i], world) && RunsScript(run, i, scripts[i], snapshot, world)
    ensures After(input, steps, run, n).context == OnOneBag(input, scripts, n)
    ensures Within(OnOneBag(input, scripts, n), world)
    decreases n
  {
    if 0 < n {
      ScriptsRefineOneBag(input, steps, scripts, run, snapshot, world, n - 1);
    }
  }

  /** The scripts one after the other on one bag, deletions included. */
  function InTurn(input: Bag, scripts: seq<Bag -> Bag>, n: nat): Bag
    requires n <= |scripts|
  {
    if n == 0 then input else scripts[n - 1](InTurn(input, scripts, n - 1))
  }

  predicate KeepsKeys(before: Bag, bag: Bag) {
    forall key :: key in before ==> key in bag
  }

  /** A script's contribution reproduces its final bag if and only if the script deletes no variable. */
  lemma OnlyDeletionsDiffer(before: Bag, bag: Bag, snapshot: Snapshot, world: iset<Value>)
    requires JsonWorld(world, snapshot) && Within(before, world) && Within(bag, world)
    ensures before + Delta(before, bag, snapshot) == bag <==> KeepsKeys(before, bag)
  {
    DeltaReproducesBag(before, bag, snapshot, world);
    var merged := before + Delta(before, bag, snapshot);
    if merged == bag {
      assert forall key :: key in before ==> key in merged;
    }
  }

  /** So scripts that delete nothing on the way are run faithfully. */
  lemma {:induction false} NothingDeletedIsFaithful(input: Bag, scripts: seq<Bag -> Bag>, n: nat)
    requires n <= |scripts|
    requires forall i :: 0 <= i < n ==> KeepsKeys(InTurn(input, scripts, i), InTurn(input, scripts, i + 1))
    ensures OnOneBag(input, scripts, n) == InTurn(input, scripts, n)
    decreases n
  {
    if 0 < n {
      NothingDeletedIsFaithful(input, scripts, n - 1);
    }
  }
}
