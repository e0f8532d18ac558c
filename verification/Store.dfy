/**
 The document store behind the registry (couchbase-adapter.ts): three keyed collections, where the
 key of a component or workflow document is the encoding of its natural key, and id lookups are
 scans. KV is a map and a scan sees every write; runs are sequential.
 */
module Store {
  import opened Prelude

  datatype Component = Component(id: string, service: string, action: string, version: int, body: nat)

  datatype Workflow = Workflow(id: string, name: string, version: int, body: nat)

  datatype Step = Step(id: string, workflowId: string, componentId: string, order: nat)

  datatype Error = NotFound | Conflict

  // ----- Keys -----

  /** encodeURIComponent: injective, and its output never holds a colon. */
  ghost predicate IsEncoding(enc: string -> string) {
    (forall s :: ':' !in enc(s)) && (forall s, t :: enc(s) == enc(t) ==> s == t)
  }

  function ComponentKey(enc: string -> string, service: string, action: string): string {
    "component::" + enc(service) + "::" + enc(action)
  }

  function WorkflowKey(enc: string -> string, name: string): string {
    "wf::" + enc(name)
  }

  function StepKey(enc: string -> string, id: string): string {
    "step::" + enc(id)
  }

  lemma ColonSplits(a: string, b: string, c: string, d: string)
    requires ':' !in a && ':' !in c && a + [':'] + b == c + [':'] + d
    ensures a == c && b == d
  {
    var x, y := a + [':'] + b, c + [':'] + d;
    assert forall i :: 0 <= i < |a| ==> x[i] == a[i] && x[i] != ':';
    assert forall i :: 0 <= i < |c| ==> y[i] == c[i] && y[i] != ':';
    assert x[|a|] == ':' && y[|c|] == ':';
    assert |a| == |c|;
    assert a == x[..|a|] && c == y[..|c|];
    assert b == x[|a| + 1..] && d == y[|c| + 1..];
  }

  lemma SamePrefix(prefix: string, a: string, b: string)
    requires prefix + a == prefix + b
    ensures a == b
  {
    assert a == (prefix + a)[|prefix|..];
    assert b == (prefix + b)[|prefix|..];
  }

  /** No two natural keys share a document key. */
  lemma ComponentKeyIsInjective(enc: string -> string, s1: string, a1: string, s2: string, a2: string)
    requires IsEncoding(enc)
    ensures ComponentKey(enc, s1, a1) == ComponentKey(enc, s2, a2) <==> s1 == s2 && a1 == a2
  {
    if ComponentKey(enc, s1, a1) == ComponentKey(enc, s2, a2) {
      var r1, r2 := enc(s1) + [':'] + ([':'] + enc(a1)), enc(s2) + [':'] + ([':'] + enc(a2));
      assert ComponentKey(enc, s1, a1) == "component::" + r1;
      assert ComponentKey(enc, s2, a2) == "component::" + r2;
      SamePrefix("component::", r1, r2);
      ColonSplits(enc(s1), [':'] + enc(a1), enc(s2), [':'] + enc(a2));
      SamePrefix([':'], enc(a1), enc(a2));
    }
  }

  lemma WorkflowKeyIsInjective(enc: string -> string, n1: string, n2: string)
    requires IsEncoding(enc)
    ensures WorkflowKey(enc, n1) == WorkflowKey(enc, n2) <==> n1 == n2
  {
    if WorkflowKey(enc, n1) == WorkflowKey(enc, n2) {
      SamePrefix("wf::", enc(n1), enc(n2));
    }
  }

  lemma StepKeyIsInjective(enc: string -> string, i1: string, i2: string)
    requires IsEncoding(enc)
    ensures StepKey(enc, i1) == StepKey(enc, i2) <==> i1 == i2
  {
    if StepKey(enc, i1) == StepKey(enc, i2) {
      SamePrefix("step::", enc(i1), enc(i2));
    }
  }

  // ----- Invariants -----

  ghost predicate ComponentsKeyed(enc: string -> string, components: map<string, Component>) {
    forall k :: k in components ==> k == ComponentKey(enc, components[k].service, components[k].action)
  }

  ghost predicate WorkflowsKeyed(enc: string -> string, workflows: map<string, Workflow>) {
    forall k :: k in workflows ==> k == WorkflowKey(enc, workflows[k].name)
  }

  ghost predicate StepsKeyed(enc: string -> string, steps: map<string, Step>) {
    forall k :: k in steps ==> k == StepKey(enc, steps[k].id)
  }

  predicate HasComponentId(components: map<string, Component>, id: string) {
    exists k :: k in components && components[k].id == id
  }

  /** Every step refers to a component that exists. */
  predicate StepsLinked(components: map<string, Component>, steps: map<string, Step>) {
    forall k :: k in steps ==> HasComponentId(components, steps[k].componentId)
  }

  /** A scan for a natural key agrees with the keyed lookup, and finds at most one document. */
  lemma KeyedLookupIsScan(enc: string -> string, components: map<string, Component>, service: string, action: string)
    requires IsEncoding(enc) && ComponentsKeyed(enc, components)
    ensures var key := ComponentKey(enc, service, action);
            forall k :: (k in components && components[k].service == service && components[k].action == action)
                   <==> (k in components && k == key)
  {
    forall k | k in components
      ensures components[k].service == service && components[k].action == action
          <==> k == ComponentKey(enc, service, action)
    {
      ComponentKeyIsInjective(enc, components[k].service, components[k].action, service, action);
    }
  }

  lemma KeyedWorkflowIsScan(enc: string -> string, workflows: map<string, Workflow>, name: string)
    requires IsEncoding(enc) && WorkflowsKeyed(enc, workflows)
    ensures forall k ::
              (k in workflows && workflows[k].name == name) <==> (k in workflows && k == WorkflowKey(enc, name))
  {
    forall k | k in workflows ensures workflows[k].name == name <==> k == WorkflowKey(enc, name) {
      WorkflowKeyIsInjective(enc, workflows[k].name, name);
    }
  }

  /** SELECT RAW s.id of the steps of one workflow. */
  function StepIds(steps: map<string, Step>, workflowId: string): set<string> {
    set k | k in steps && steps[k].workflowId == workflowId :: steps[k].id
  }

  /** now holds the steps of before but those with a removed id. */
  ghost predicate IsLeft(before: map<string, Step>, now: map<string, Step>, removed: set<string>) {
    && (forall k :: k in now <==> k in before && before[k].id !in removed)
    && (forall k :: k in now ==> now[k] == before[k])
  }

  lemma LeftAreOthers(enc: string -> string, before: map<string, Step>, now: map<string, Step>, workflowId: string)
    requires StepsKeyed(enc, before) && IsLeft(before, now, StepIds(before, workflowId))
    ensures now == StepsOfOthers(before, workflowId)
  {
  }

  lemma RemoveOne(
    enc: string -> string, before: map<string, Step>, now: map<string, Step>, removed: set<string>, id: string)
    requires IsEncoding(enc) && StepsKeyed(enc, before) && IsLeft(before, now, removed)
    ensures IsLeft(before, now - {StepKey(enc, id)}, removed + {id})
  {
    forall k | k in before ensures k == StepKey(enc, id) <==> before[k].id == id {
      StepKeyIsInjective(enc, before[k].id, id);
    }
  }

  lemma LinksSurviveGrowth(before: map<string, Component>, after: map<string, Component>, steps: map<string, Step>)
    requires StepsLinked(before, steps)
    requires forall k :: k in before ==> k in after && after[k] == before[k]
    ensures StepsLinked(after, steps)
  {
    forall s | s in steps ensures HasComponentId(after, steps[s].componentId) {
      var k :| k in before && before[k].id == steps[s].componentId;
      assert k in after && after[k].id == steps[s].componentId;
    }
  }

  lemma LinksSurviveUpdate(
    before: map<string, Component>, after: map<string, Component>, steps: map<string, Step>, key: string)
    requires StepsLinked(before, steps) && key in before && key in after && after[key].id == before[key].id
    requires forall k :: k in before ==> k in after && (k != key ==> after[k] == before[k])
    ensures StepsLinked(after, steps)
  {
    forall s | s in steps ensures HasComponentId(after, steps[s].componentId) {
      var k :| k in before && before[k].id == steps[s].componentId;
      assert k in after && after[k].id == steps[s].componentId;
    }
  }

  lemma LinksSurviveRemoval(
    before: map<string, Component>, after: map<string, Component>, steps: map<string, Step>, key: string)
    requires StepsLinked(before, steps) && key in before && after == before - {key}
    requires forall s :: s in steps ==> steps[s].componentId != before[key].id
    ensures StepsLinked(after, steps)
  {
    forall s | s in steps ensures HasComponentId(after, steps[s].componentId) {
      var k :| k in before && before[k].id == steps[s].componentId;
      assert k in after && after[k].id == steps[s].componentId;
    }
  }

  // ----- Runs -----

  datatype Db = Db(components: map<string, Component>, workflows: map<string, Workflow>, steps: map<string, Step>)

  ghost predicate Inv(enc: string -> string, s: Db) {
    && ComponentsKeyed(enc, s.components) && WorkflowsKeyed(enc, s.workflows) && StepsKeyed(enc, s.steps)
    && StepsLinked(s.components, s.steps)
  }

  datatype Op =
    | SaveComponent(component: Component)
    | UpdateComponent(id: string, version: Option<int>, body: Option<nat>)
    | DeleteComponent(id: string)
    | SaveWorkflow(workflow: Workflow)
    | UpdateWorkflow(id: string, version: Option<int>, body: Option<nat>)
    | DeleteWorkflow(id: string)
    | SaveStep(step: Step)
    | DeleteSteps(workflowId: string)

  function NextVersion(version: Option<int>): int {
    (if version.Some? then version.value else 0) + 1
  }

  /** Body and version change; the natural key and the id stay. */
  function ChangedComponent(c: Component, version: Option<int>, body: Option<nat>): Component {
    c.(version := NextVersion(version), body := if body.Some? then body.value else c.body)
  }

  function ChangedWorkflow(w: Workflow, version: Option<int>, body: Option<nat>): Workflow {
    w.(version := NextVersion(version), body := if body.Some? then body.value else w.body)
  }

  predicate HasWorkflowId(workflows: map<string, Workflow>, id: string) {
    exists k :: k in workflows && workflows[k].id == id
  }

  predicate IsReferenced(steps: map<string, Step>, componentId: string) {
    exists k :: k in steps && steps[k].componentId == componentId
  }

  function StepsOfOthers(steps: map<string, Step>, workflowId: string): map<string, Step> {
    map k | k in steps && steps[k].workflowId != workflowId :: steps[k]
  }

  /** The operation is carried out, and not refused with an error. */
  predicate Succeeds(enc: string -> string, s: Db, op: Op) {
    match op
    case SaveComponent(c) => ComponentKey(enc, c.service, c.action) !in s.components
    case UpdateComponent(id, _, _) => HasComponentId(s.components, id)
    case DeleteComponent(id) => HasComponentId(s.components, id) && !IsReferenced(s.steps, id)
    case SaveWorkflow(w) => WorkflowKey(enc, w.name) !in s.workflows
    case UpdateWorkflow(id, _, _) => HasWorkflowId(s.workflows, id)
    case DeleteWorkflow(id) => HasWorkflowId(s.workflows, id)
    case SaveStep(step) => HasComponentId(s.components, step.componentId) && StepKey(enc, step.id) !in s.steps
    case DeleteSteps(_) => true
  }

  /** What an operation that succeeds does; a scan by id may return any document with that id. */
  ghost predicate Effect(enc: string -> string, s: Db, op: Op, t: Db) {
    match op
    case SaveComponent(c) => t == s.(components := s.components[ComponentKey(enc, c.service, c.action) := c])
    case UpdateComponent(id, version, body) =>
      exists k :: && k in s.components && s.components[k].id == id
                  && t == s.(components := s.components[k := ChangedComponent(s.components[k], version, body)])
    case DeleteComponent(id) =>
      exists k :: k in s.components && s.components[k].id == id && t == s.(components := s.components - {k})
    case SaveWorkflow(w) => t == s.(workflows := s.workflows[WorkflowKey(enc, w.name) := w])
    case UpdateWorkflow(id, version, body) =>
      exists k :: && k in s.workflows && s.workflows[k].id == id
                  && t == s.(workflows := s.workflows[k := ChangedWorkflow(s.workflows[k], version, body)])
    case DeleteWorkflow(id) =>
      exists k :: && k in s.workflows && s.workflows[k].id == id
                  && t == s.(workflows := s.workflows - {k}, steps := StepsOfOthers(s.steps, id))
    case SaveStep(step) => t == s.(steps := s.steps[StepKey(enc, step.id) := step])
    case DeleteSteps(workflowId) => t == s.(steps := StepsOfOthers(s.steps, workflowId))
  }

  ghost predicate Transition(enc: string -> string, s: Db, op: Op, t: Db) {
    if Succeeds(enc, s, op) then Effect(enc, s, op, t) else t == s
  }

  lemma ComponentUpdateKeeps(enc: string -> string, s: Db, k: string, version: Option<int>, body: Option<nat>)
    requires Inv(enc, s) && k in s.components
    ensures Inv(enc, s.(components := s.components[k := ChangedComponent(s.components[k], version, body)]))
  {
    var components := s.components[k := ChangedComponent(s.components[k], version, body)];
    LinksSurviveUpdate(s.components, components, s.steps, k);
  }

  lemma ComponentRemovalKeeps(enc: string -> string, s: Db, k: string)
    requires Inv(enc, s) && k in s.components && !IsReferenced(s.steps, s.components[k].id)
    ensures Inv(enc, s.(components := s.components - {k}))
  {
    LinksSurviveRemoval(s.components, s.components - {k}, s.steps, k);
  }

  lemma ComponentOpKeeps(enc: string -> string, s: Db, op: Op, t: Db)
    requires op.SaveComponent? || op.UpdateComponent? || op.DeleteComponent?
    requires Inv(enc, s) && Transition(enc, s, op, t)
    ensures Inv(enc, t)
  {
    if Succeeds(enc, s, op) {
      match op
      case SaveComponent(_) =>
        LinksSurviveGrowth(s.components, t.components, s.steps);
      case UpdateComponent(id, version, body) =>
        var k :| && k in s.components && s.components[k].id == id
                 && t == s.(components := s.components[k := ChangedComponent(s.components[k], version, body)]);
        ComponentUpdateKeeps(enc, s, k, version, body);
      case DeleteComponent(id) =>
        var k :| k in s.components && s.components[k].id == id && t == s.(components := s.components - {k});
        ComponentRemovalKeeps(enc, s, k);
    }
  }

  lemma TransitionKeeps(enc: string -> string, s: Db, op: Op, t: Db)
    requires Inv(enc, s) && Transition(enc, s, op, t)
    ensures Inv(enc, t)
  {
    if op.SaveComponent? || op.UpdateComponent? || op.DeleteComponent? {
      ComponentOpKeeps(enc, s, op, t);
    }
  }

  const EMPTY_DB := Db(map[], map[], map[])

  /** states are what a sequential run of the operations goes through. */
  ghost predicate IsRun(enc: string -> string, ops: seq<Op>, states: seq<Db>) {
    && |states| == |ops| + 1
    && states[0] == EMPTY_DB
    && forall i :: 0 <= i < |ops| ==> Transition(enc, states[i], ops[i], states[i + 1])
  }

  /** At every point of every run: documents sit under their own keys and every step's component exists. */
  lemma {:induction false} RunKeeps(enc: string -> string, ops: seq<Op>, states: seq<Db>, n: nat)
    requires IsRun(enc, ops, states) && n <= |ops|
    ensures Inv(enc, states[n])
    decreases n
  {
    if 0 < n {
      RunKeeps(enc, ops, states, n - 1);
      TransitionKeeps(enc, states[n - 1], ops[n - 1], states[n]);
    }
  }

  /** At every point of every run, a keyed lookup is the one match of a full scan for the natural key. */
  lemma LookupIsScanInRuns(
    enc: string -> string, ops: seq<Op>, states: seq<Db>, n: nat, service: string, action: string)
    requires IsEncoding(enc) && IsRun(enc, ops, states) && n <= |ops|
    ensures var components, key := states[n].components, ComponentKey(enc, service, action);
            forall k :: (k in components && components[k].service == service && components[k].action == action)
                   <==> (k in components && k == key)
  {
    RunKeeps(enc, ops, states, n);
    KeyedLookupIsScan(enc, states[n].components, service, action);
  }

  /** The same for workflows and their names. */
  lemma WorkflowLookupIsScanInRuns(enc: string -> string, ops: seq<Op>, states: seq<Db>, n: nat, name: string)
    requires IsEncoding(enc) && IsRun(enc, ops, states) && n <= |ops|
    ensures var workflows := states[n].workflows;
            forall k ::
              (k in workflows && workflows[k].name == name) <==> (k in workflows && k == WorkflowKey(enc, name))
  {
    RunKeeps(enc, ops, states, n);
    KeyedWorkflowIsScan(enc, states[n].workflows, name);
  }

  predicate NoStepsOf(steps: map<string, Step>, workflowId: string) {
    forall k :: k in steps ==> steps[k].workflowId != workflowId
  }

  /** Once a workflow is deleted, none of its steps is ever seen again until a step is saved for it anew. */
  lemma {:induction false} DeletedStepsStayAway(
    enc: string -> string, ops: seq<Op>, states: seq<Db>, deleted: nat, n: nat, id: string)
    requires IsRun(enc, ops, states) && deleted < n <= |ops|
    requires ops[deleted] == DeleteWorkflow(id) && Succeeds(enc, states[deleted], ops[deleted])
    requires forall i :: deleted < i < n && ops[i].SaveStep? ==> ops[i].step.workflowId != id
    ensures NoStepsOf(states[n].steps, id)
    decreases n
  {
    assert Transition(enc, states[n - 1], ops[n - 1], states[n]);
    if deleted + 1 < n {
      DeletedStepsStayAway(enc, ops, states, deleted, n - 1, id);
    }
  }

  // ----- Steps and their workflows -----

  /** Every step belongs to a workflow that exists. */
  predicate StepsOwned(s: Db) {
    forall k :: k in s.steps ==> HasWorkflowId(s.workflows, s.steps[k].workflowId)
  }

  /** A step is saved whose workflow does not exist: saveWorkflowStep looks at its component only. */
  predicate SavesOrphan(enc: string -> string, s: Db, op: Op) {
    op.SaveStep? && Succeeds(enc, s, op) && !HasWorkflowId(s.workflows, op.step.workflowId)
  }

  lemma OwnersSurvive(before: map<string, Workflow>, after: map<string, Workflow>, id: string)
    requires HasWorkflowId(before, id)
    requires forall k :: k in before && before[k].id == id ==> k in after && after[k].id == id
    ensures HasWorkflowId(after, id)
  {
    var k :| k in before && before[k].id == id;
    assert k in after && after[k].id == id;
  }

  lemma WorkflowDeletionKeepsOwners(enc: string -> string, s: Db, id: string, t: Db)
    requires StepsOwned(s) && Effect(enc, s, DeleteWorkflow(id), t)
    ensures StepsOwned(t)
  {
    forall j | j in t.steps ensures HasWorkflowId(t.workflows, t.steps[j].workflowId) {
      OwnersSurvive(s.workflows, t.workflows, t.steps[j].workflowId);
    }
  }

  lemma WorkflowUpdateKeepsOwners(enc: string -> string, s: Db, op: Op, t: Db)
    requires op.SaveWorkflow? || op.UpdateWorkflow?
    requires StepsOwned(s) && Succeeds(enc, s, op) && Effect(enc, s, op, t)
    ensures StepsOwned(t)
  {
    forall j | j in t.steps ensures HasWorkflowId(t.workflows, t.steps[j].workflowId) {
      OwnersSurvive(s.workflows, t.workflows, t.steps[j].workflowId);
    }
  }

  lemma StepSaveKeepsOwners(enc: string -> string, s: Db, step: Step, t: Db)
    requires StepsOwned(s) && Succeeds(enc, s, SaveStep(step)) && Effect(enc, s, SaveStep(step), t)
    ensures StepsOwned(t) <==> HasWorkflowId(s.workflows, step.workflowId)
  {
    assert t.steps[StepKey(enc, step.id)] == step;
  }

  /** An operation breaks the rule that steps belong to a workflow exactly when it saves an orphan. */
  lemma OwnedExactlyUnlessOrphan(enc: string -> string, s: Db, op: Op, t: Db)
    requires StepsOwned(s) && Transition(enc, s, op, t)
    ensures StepsOwned(t) <==> !SavesOrphan(enc, s, op)
  {
    if Succeeds(enc, s, op) {
      match op
      case DeleteWorkflow(id) => WorkflowDeletionKeepsOwners(enc, s, id, t);
      case SaveWorkflow(_) => WorkflowUpdateKeepsOwners(enc, s, op, t);
      case UpdateWorkflow(_, _, _) => WorkflowUpdateKeepsOwners(enc, s, op, t);
      case SaveStep(step) => StepSaveKeepsOwners(enc, s, step, t);
      case _ =>
    }
  }

  /** Steps belong to workflows throughout a run if and only if the run never saves an orphan. */
  lemma {:induction false} RunOwnedExactlyUnlessOrphan(enc: string -> string, ops: seq<Op>, states: seq<Db>, n: nat)
    requires IsRun(enc, ops, states) && n <= |ops|
    ensures (forall m :: 0 <= m <= n ==> StepsOwned(states[m]))
       <==> (forall i :: 0 <= i < n ==> !SavesOrphan(enc, states[i], ops[i]))
    decreases n
  {
    if 0 < n {
      RunOwnedExactlyUnlessOrphan(enc, ops, states, n - 1);
      assert Transition(enc, states[n - 1], ops[n - 1], states[n]);
      if StepsOwned(states[n - 1]) {
        OwnedExactlyUnlessOrphan(enc, states[n - 1], ops[n - 1], states[n]);
      }
    }
  }

  /** The store does not require a step's workflow: here a run leaves a step of a workflow that does not exist. */
  lemma StepsMayLackTheirWorkflow(enc: string -> string, c: Component, step: Step)
    requires step.componentId == c.id
    ensures exists ops: seq<Op>, states: seq<Db> :: && IsRun(enc, ops, states)
                                  && !NoStepsOf(states[|ops|].steps, step.workflowId)
                                  && !HasWorkflowId(states[|ops|].workflows, step.workflowId)
  {
    var s1 := EMPTY_DB.(components := map[ComponentKey(enc, c.service, c.action) := c]);
    var s2 := s1.(steps := map[StepKey(enc, step.id) := step]);
    assert s1.components[ComponentKey(enc, c.service, c.action)].id == step.componentId;
    var ops := [Op.SaveComponent(c), SaveStep(step)];
    var states := [EMPTY_DB, s1, s2];
    assert Transition(enc, EMPTY_DB, ops[0], s1) && Transition(enc, s1, ops[1], s2);
    assert IsRun(enc, ops, states);
    assert s2.steps[StepKey(enc, step.id)].workflowId == step.workflowId;
  }

  // ----- Which operations are refused, and what they leave alone -----

  /** Natural keys and ids decide: no second document for a natural key or step id, and no dangling reference. */
  lemma SucceedsExactlyWhen(enc: string -> string, s: Db, op: Op)
    requires IsEncoding(enc) && Inv(enc, s)
    ensures Succeeds(enc, s, op) <==>
              match op
              case SaveComponent(c) =>
                forall k :: k in s.components ==>
                  !(s.components[k].service == c.service && s.components[k].action == c.action)
              case UpdateComponent(id, _, _) => exists k :: k in s.components && s.components[k].id == id
              case DeleteComponent(id) =>
                && (exists k :: k in s.components && s.components[k].id == id)
                && forall k :: k in s.steps ==> s.steps[k].componentId != id
              case SaveWorkflow(w) => forall k :: k in s.workflows ==> s.workflows[k].name != w.name
              case UpdateWorkflow(id, _, _) => exists k :: k in s.workflows && s.workflows[k].id == id
              case DeleteWorkflow(id) => exists k :: k in s.workflows && s.workflows[k].id == id
              case SaveStep(step) =>
                && (exists k :: k in s.components && s.components[k].id == step.componentId)
                && forall k :: k in s.steps ==> s.steps[k].id != step.id
              case DeleteSteps(_) => true
  {
    match op
    case SaveComponent(c) => KeyedLookupIsScan(enc, s.components, c.service, c.action);
    case SaveWorkflow(w) => KeyedWorkflowIsScan(enc, s.workflows, w.name);
    case SaveStep(step) =>
      forall k | k in s.steps ensures s.steps[k].id == step.id <==> k == StepKey(enc, step.id) {
        StepKeyIsInjective(enc, s.steps[k].id, step.id);
      }
    case _ =>
  }

  /** An update counts from the version the caller sends, or from nothing, and changes no id and no natural key. */
  lemma UpdateMeaning(c: Component, w: Workflow, version: Option<int>, body: Option<nat>)
    ensures ChangedComponent(c, version, body)
         == Component(c.id, c.service, c.action,
              match version case Some(v) => v + 1 case None => 1,
              match body case Some(b) => b case None => c.body)
    ensures ChangedWorkflow(w, version, body)
         == Workflow(w.id, w.name,
              match version case Some(v) => v + 1 case None => 1,
              match body case Some(b) => b case None => w.body)
  {
  }

  /** A component stays as it is as long as no update or deletion asks for its id. */
  lemma {:induction false} ComponentStays(
    enc: string -> string, ops: seq<Op>, states: seq<Db>, m: nat, n: nat, key: string)
    requires IsRun(enc, ops, states) && m <= n <= |ops| && key in states[m].components
    requires forall i :: m <= i < n && (ops[i].UpdateComponent? || ops[i].DeleteComponent?) ==>
               ops[i].id != states[m].components[key].id
    ensures key in states[n].components && states[n].components[key] == states[m].components[key]
    decreases n
  {
    if m < n {
      ComponentStays(enc, ops, states, m, n - 1, key);
      assert Transition(enc, states[n - 1], ops[n - 1], states[n]);
    }
  }

  /** So does a workflow. */
  lemma {:induction false} WorkflowStays(
    enc: string -> string, ops: seq<Op>, states: seq<Db>, m: nat, n: nat, key: string)
    requires IsRun(enc, ops, states) && m <= n <= |ops| && key in states[m].workflows
    requires forall i :: m <= i < n && (ops[i].UpdateWorkflow? || ops[i].DeleteWorkflow?) ==>
               ops[i].id != states[m].workflows[key].id
    ensures key in states[n].workflows && states[n].workflows[key] == states[m].workflows[key]
    decreases n
  {
    if m < n {
      WorkflowStays(enc, ops, states, m, n - 1, key);
      assert Transition(enc, states[n - 1], ops[n - 1], states[n]);
    }
  }

  /** The operation deletes the steps of this workflow. */
  predicate DropsStepsOf(enc: string -> string, s: Db, op: Op, workflowId: string) {
    op == DeleteSteps(workflowId) || (op == DeleteWorkflow(workflowId) && Succeeds(enc, s, op))
  }

  /** A step stays as it is as long as the steps of its workflow are not deleted. */
  lemma {:induction false} StepStays(
    enc: string -> string, ops: seq<Op>, states: seq<Db>, m: nat, n: nat, key: string)
    requires IsRun(enc, ops, states) && m <= n <= |ops| && key in states[m].steps
    requires forall i :: m <= i < n ==> !DropsStepsOf(enc, states[i], ops[i], states[m].steps[key].workflowId)
    ensures key in states[n].steps && states[n].steps[key] == states[m].steps[key]
    decreases n
  {
    if m < n {
      StepStays(enc, ops, states, m, n - 1, key);
      assert Transition(enc, states[n - 1], ops[n - 1], states[n]);
      assert !DropsStepsOf(enc, states[n - 1], ops[n - 1], states[m].steps[key].workflowId);
    }
  }

  // ----- The adapter -----

  class DocumentStore {
    const enc: string -> string
    var components: map<string, Component>
    var workflows: map<string, Workflow>
    var steps: map<string, Step>

    ghost function Contents(): Db
      reads this
    {
      Db(components, workflows, steps)
    }

    ghost predicate Valid()
      reads this
    {
      IsEncoding(enc) && Inv(enc, Contents())
    }

    constructor (enc: string -> string)
      requires IsEncoding(enc)
      ensures this.enc == enc && Contents() == EMPTY_DB && Valid()
    {
      this.enc := enc;
      components, workflows, steps := map[], map[], map[];
    }

    /** insert fails on a key that is taken. */
    method SaveComponent(c: Component) returns (r: Result<Component, Error>)
      requires Valid()
      modifies this`components
      ensures Valid() && Transition(enc, old(Contents()), Op.SaveComponent(c), Contents())
      ensures r == if Succeeds(enc, old(Contents()), Op.SaveComponent(c)) then Ok(c) else Err(Conflict)
    {
      ghost var before := Contents();
      var key := ComponentKey(enc, c.service, c.action);
      if key in components {
        return Err(Conflict);
      }
      components := components[key := c];
      TransitionKeeps(enc, before, Op.SaveComponent(c), Contents());
      return Ok(c);
    }

    method FindComponent(service: string, action: string) returns (r: Option<Component>)
      requires Valid()
      ensures r.Some?
         <==> exists k :: k in components && components[k].service == service && components[k].action == action
      ensures r.Some? ==> r.value in components.Values && r.value.service == service && r.value.action == action
    {
      var key := ComponentKey(enc, service, action);
      KeyedLookupIsScan(enc, components, service, action);
      r := if key in components then Some(components[key]) else None;
    }

    /** A scan by id; with several matches LIMIT 1 returns any of them. */
    method RequireComponentKey(id: string) returns (r: Result<string, Error>)
      requires Valid()
      ensures r.Ok? <==> HasComponentId(components, id)
      ensures r.Ok? ==> r.value in components && components[r.value].id == id
    {
      if k :| k in components && components[k].id == id {
        return Ok(ComponentKey(enc, components[k].service, components[k].action));
      }
      return Err(NotFound);
    }

    method RequireWorkflowKey(id: string) returns (r: Result<string, Error>)
      requires Valid()
      ensures r.Ok? <==> HasWorkflowId(workflows, id)
      ensures r.Ok? ==> r.value in workflows && workflows[r.value].id == id
    {
      if k :| k in workflows && workflows[k].id == id {
        return Ok(WorkflowKey(enc, workflows[k].name));
      }
      return Err(NotFound);
    }

    method UpdateComponent(id: string, version: Option<int>, body: Option<nat>) returns (r: Result<Component, Error>)
      requires Valid()
      modifies this`components
      ensures Valid() && Transition(enc, old(Contents()), Op.UpdateComponent(id, version, body), Contents())
      ensures r.Ok? <==> Succeeds(enc, old(Contents()), Op.UpdateComponent(id, version, body))
      ensures r.Ok? ==> r.value in components.Values && r.value.id == id && r.value.version == NextVersion(version)
    {
      ghost var before := Contents();
      var key := RequireComponentKey(id);
      if key.Err? {
        return Err(key.error);
      }
      var updated := ChangedComponent(components[key.value], version, body);
      components := components[key.value := updated];
      assert components[key.value] == updated;
      TransitionKeeps(enc, before, Op.UpdateComponent(id, version, body), Contents());
      return Ok(updated);
    }

    /** A component that some step refers to is not deleted. */
    method DeleteComponent(id: string) returns (r: Result<(), Error>)
      requires Valid()
      modifies this`components
      ensures Valid() && Transition(enc, old(Contents()), Op.DeleteComponent(id), Contents())
      ensures r.Ok? <==> Succeeds(enc, old(Contents()), Op.DeleteComponent(id))
      ensures r == Err(NotFound) <==> !HasComponentId(old(components), id)
    {
      ghost var before := Contents();
      var key := RequireComponentKey(id);
      if key.Err? {
        return Err(NotFound);
      }
      if k :| k in steps && steps[k].componentId == id {
        return Err(Conflict);
      }
      components := components - {key.value};
      TransitionKeeps(enc, before, Op.DeleteComponent(id), Contents());
      return Ok(());
    }

    method SaveWorkflow(w: Workflow) returns (r: Result<Workflow, Error>)
      requires Valid()
      modifies this`workflows
      ensures Valid() && Transition(enc, old(Contents()), Op.SaveWorkflow(w), Contents())
      ensures r == if Succeeds(enc, old(Contents()), Op.SaveWorkflow(w)) then Ok(w) else Err(Conflict)
    {
      var key := WorkflowKey(enc, w.name);
      if key in workflows {
        return Err(Conflict);
      }
      workflows := workflows[key := w];
      return Ok(w);
    }

    method FindWorkflowByName(name: string) returns (r: Option<Workflow>)
      requires Valid()
      ensures r.Some? <==> exists k :: k in workflows && workflows[k].name == name
      ensures r.Some? ==> r.value in workflows.Values && r.value.name == name
    {
      KeyedWorkflowIsScan(enc, workflows, name);
      var key := WorkflowKey(enc, name);
      r := if key in workflows then Some(workflows[key]) else None;
    }

    method UpdateWorkflow(id: string, version: Option<int>, body: Option<nat>) returns (r: Result<Workflow, Error>)
      requires Valid()
      modifies this`workflows
      ensures Valid() && Transition(enc, old(Contents()), Op.UpdateWorkflow(id, version, body), Contents())
      ensures r.Ok? <==> Succeeds(enc, old(Contents()), Op.UpdateWorkflow(id, version, body))
      ensures r.Ok? ==> r.value in workflows.Values && r.value.id == id && r.value.version == NextVersion(version)
    {
      var key := RequireWorkflowKey(id);
      if key.Err? {
        return Err(key.error);
      }
      var updated := ChangedWorkflow(workflows[key.value], version, body);
      workflows := workflows[key.value := updated];
      assert workflows[key.value] == updated;
      return Ok(updated);
    }

    method SaveWorkflowStep(s: Step) returns (r: Result<Step, Error>)
      requires Valid()
      modifies this`steps
      ensures Valid() && Transition(enc, old(Contents()), Op.SaveStep(s), Contents())
      ensures r == if Succeeds(enc, old(Contents()), Op.SaveStep(s)) then Ok(s) else Err(Conflict)
    {
      if k :| k in components && components[k].id == s.componentId {
        var key := StepKey(enc, s.id);
        if key in steps {
          return Err(Conflict);
        }
        assert HasComponentId(components, s.componentId);
        steps := steps[key := s];
        return Ok(s);
      }
      return Err(Conflict);
    }

    /** The loop over the ids a scan returned, one remove per step document. */
    method DeleteWorkflowSteps(workflowId: string)
      requires Valid()
      modifies this`steps
      ensures Valid() && Transition(enc, old(Contents()), Op.DeleteSteps(workflowId), Contents())
    {
      ghost var start, before := Contents(), steps;
      assert StepsKeyed(enc, before);
      var ids := StepIds(steps, workflowId);
      ghost var removed: set<string> := {};
      while ids != {}
        invariant removed + ids == StepIds(before, workflowId) && IsLeft(before, steps, removed)
        decreases ids
      {
        var id :| id in ids;
        RemoveOne(enc, before, steps, removed, id);
        steps := steps - {StepKey(enc, id)};
        ids, removed := ids - {id}, removed + {id};
      }
      assert removed + {} == removed;
      LeftAreOthers(enc, before, steps, workflowId);
      TransitionKeeps(enc, start, Op.DeleteSteps(workflowId), Contents());
    }

    method DeleteWorkflow(id: string) returns (r: Result<(), Error>)
      requires Valid()
      modifies this`steps, this`workflows
      ensures Valid() && Transition(enc, old(Contents()), Op.DeleteWorkflow(id), Contents())
      ensures r == if Succeeds(enc, old(Contents()), Op.DeleteWorkflow(id)) then Ok(()) else Err(NotFound)
    {
      ghost var before := Contents();
      var key := RequireWorkflowKey(id);
      if key.Err? {
        return Err(NotFound);
      }
      DeleteWorkflowSteps(id);
      workflows := workflows - {key.value};
      TransitionKeeps(enc, before, Op.DeleteWorkflow(id), Contents());
      return Ok(());
    }
  }
}
