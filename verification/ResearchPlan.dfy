/**
 * Research plans: the validator, its three-colour cycle search, and what an accepted plan
 * guarantees to whoever executes it (progress, completion, wave order).
 */
module ResearchPlan {
  import opened Common
  import opened Graphs
  import opened Envelope
  import Strings

  datatype PlanStep = PlanStep(
    stepId: string, kind: string, wave: int, objective: string, roleId: string,
    capabilityIds: seq<string>, dependsOn: seq<string>, contextBudget: int, timeoutMs: int)

  datatype Plan = Plan(
    schemaVersion: string, planId: string, runId: string, requestId: string, steps: seq<PlanStep>,
    maxParallelSpecialists: int, maxRepairPasses: int, deadlineMs: int)

  /** The refusals of the validator; i is a step position, j a position in that step's dependencies. */
  datatype Fault =
    | BadEnvelope | IncompleteHeader | BadParallelism | BadRepairPasses
    | BadStep(i: nat, reason: StepReason)
    | BadStepCounts
    | UnknownDependency(i: nat, j: nat) | LateDependency(i: nat, j: nat)
    | Cyclic

  datatype StepReason =
    | InvalidStep | InvalidWave | WaveOverflow | SynthesisCapability | UnsupportedKind | BadCapability | DuplicateStep

  // ---------------------------------------------------------------- the dependency graph

  type StepMap = map<string, PlanStep>

  /** A missing step reads as the zero PlanStep, which depends on nothing. */
  function DependenciesOf(steps: StepMap, id: string): seq<string> {
    if id in steps then steps[id].dependsOn else []
  }

  ghost function DependencyEdges(steps: StepMap): Edges<string> {
    set id, j | id in steps && 0 <= j < |steps[id].dependsOn| :: (id, steps[id].dependsOn[j])
  }

  ghost function Nodes(steps: StepMap): set<string> {
    steps.Keys + set e | e in DependencyEdges(steps) :: e.1
  }

  ghost predicate Finished(dependencies: seq<string>, order: seq<string>) {
    forall j :: 0 <= j < |dependencies| ==> dependencies[j] in order
  }

  lemma FinishedSnoc(dependencies: seq<string>, j: nat, before: seq<string>, order: seq<string>)
    requires j < |dependencies| && Finished(dependencies[..j], before) && before <= order && dependencies[j] in order
    ensures Finished(dependencies[..j + 1], order)
  {
  }

  lemma DependencyEdge(steps: StepMap, id: string, d: string)
    ensures (id, d) in DependencyEdges(steps) <==> id in steps && d in steps[id].dependsOn
  {
    if id in steps && d in steps[id].dependsOn {
      var j :| 0 <= j < |steps[id].dependsOn| && steps[id].dependsOn[j] == d;
      assert (id, steps[id].dependsOn[j]) in DependencyEdges(steps);
    }
  }

  // ---------------------------------------------------------------- cycle search

  datatype Colour = Unseen | Visiting | Done

  /** The `state` map shared by the recursive visits of one search. */
  class CycleSearch {
    const steps: StepMap
    ghost const edges: Edges<string>
    ghost const nodes: set<string>
    var state: map<string, Colour>
    ghost var order: seq<string>  // finished nodes, in the order in which they finished

    constructor (steps: StepMap)
      ensures this.steps == steps && edges == DependencyEdges(steps) && steps.Keys <= nodes
      ensures Valid([]) && order == []
    {
      this.steps := steps;
      edges := DependencyEdges(steps);
      nodes := Nodes(steps);
      state := map[];
      order := [];
      new;
      forall id, d ensures (id, d) in edges <==> id in steps && d in steps[id].dependsOn { DependencyEdge(steps, id, d); }
    }

    function ColourOf(id: string): Colour
      reads this
    {
      if id in state then state[id] else Unseen
    }

    /** The ghost graph is the one that `steps` describes. */
    ghost predicate Faithful() {
      && (forall id, d :: (id, d) in edges <==> id in steps && d in steps[id].dependsOn)
      && (forall id, d :: (id, d) in edges ==> d in nodes)
    }

    /** `path` is the chain of visits in progress, outermost first. */
    ghost predicate Coloured(path: seq<string>)
      reads this
    {
      && state.Keys <= nodes
      && (forall id :: id in state ==> state[id] != Unseen)
      && (forall id :: ColourOf(id) == Visiting <==> id in path)
      && (forall id :: ColourOf(id) == Done <==> id in order)
    }

    ghost predicate Valid(path: seq<string>)
      reads this
    {
      Faithful() && Coloured(path) && Distinct(path) && IsPath(edges, path) && IsTopological(edges, order)
    }

    lemma DependencyIsEdge(id: string, j: nat)
      requires Faithful() && j < |DependenciesOf(steps, id)|
      ensures (id, DependenciesOf(steps, id)[j]) in edges && DependenciesOf(steps, id)[j] in nodes
    {
    }

    /** When all its dependencies are finished, every edge out of a step leads to a finished one. */
    lemma FinishedIsTarget(id: string, order: seq<string>)
      requires Faithful() && Finished(DependenciesOf(steps, id)[..|DependenciesOf(steps, id)|], order)
      ensures forall d :: (id, d) in edges ==> d in order
    {
      var dependencies := DependenciesOf(steps, id);
      forall d | (id, d) in edges ensures d in order {
        var j :| 0 <= j < |dependencies| && dependencies[j] == d;
        assert dependencies[..|dependencies|][j] in order;
      }
    }

    method Visit(id: string, ghost path: seq<string>) returns (cycle: bool)
      requires Valid(path) && id in nodes
      requires path != [] ==> (path[|path| - 1], id) in edges
      modifies this
      ensures state.Keys >= old(state.Keys)
      ensures cycle ==> HasCycle(edges)
      ensures !cycle ==> Valid(path) && ColourOf(id) == Done && old(order) <= order
      decreases nodes - state.Keys
    {
      if ColourOf(id) == Visiting {
        ghost var k := FirstIndex(path, id);
        ClosingEdgeMakesCycle(edges, path, k, id);
        return true;
      }
      if ColourOf(id) == Done {
        return false;
      }
      assert id !in state;
      Enter(id, path);
      var dependencies := DependenciesOf(steps, id);
      for j := 0 to |dependencies|
        invariant Valid(path + [id])
        invariant state.Keys >= old(state.Keys) + {id}
        invariant old(order) <= order && Finished(dependencies[..j], order)
      {
        DependencyIsEdge(id, j);
        ghost var before := order;
        var found := Visit(dependencies[j], path + [id]);
        if found {
          return true;
        }
        FinishedSnoc(dependencies, j, before, order);
      }
      FinishedIsTarget(id, order);
      Leave(id, path);
      return false;
    }

    /** state[id] = visiting */
    method Enter(id: string, ghost path: seq<string>)
      requires Valid(path) && id in nodes && id !in state
      requires path != [] ==> (path[|path| - 1], id) in edges
      modifies this
      ensures Valid(path + [id])
      ensures state == old(state)[id := Visiting] && order == old(order)
    {
      DistinctSnoc(path, id);
      PathSnoc(edges, path, id);
      state := state[id := Visiting];
    }

    /** state[id] = done */
    method Leave(id: string, ghost path: seq<string>)
      requires Valid(path + [id])
      requires forall d :: (id, d) in edges ==> d in order
      modifies this
      ensures Valid(path)
      ensures state == old(state)[id := Done] && order == old(order) + [id]
    {
      DistinctSnoc(path, id);
      PathSnoc(edges, path, id);
      TopologicalSnoc(edges, order, id);
      assert forall x :: x in path + [id] <==> x in path || x == id;
      state := state[id := Done];
      order := order + [id];
    }
  }

  lemma ClosingEdgeMakesCycle(edges: Edges<string>, path: seq<string>, k: nat, id: string)
    requires IsPath(edges, path) && k < |path| && path[k] == id
    requires (path[|path| - 1], id) in edges
    ensures HasCycle(edges)
  {
    var cycle := path[k..] + [id];
    forall i | 0 <= i < |cycle| - 1 ensures (cycle[i], cycle[i + 1]) in edges {
      if i + k + 1 < |path| {
        assert (path[i + k], path[i + k + 1]) in edges;
      }
    }
    assert IsCycle(edges, cycle);
  }

  /**
   * The search answers the graph question and nothing else: `id :| id in todo` stands for Go's
   * unspecified map iteration order, so every order gives this answer.
   */
  method HasPlanCycle(steps: StepMap) returns (cycle: bool)
    ensures cycle <==> HasCycle(DependencyEdges(steps))
  {
    var search := new CycleSearch(steps);
    var todo := steps.Keys;
    while todo != {}
      invariant search.Valid([])
      invariant todo <= steps.Keys
      invariant forall id :: id in steps && id !in todo ==> id in search.order
      decreases |todo|
    {
      var id :| id in todo;
      todo := todo - {id};
      if search.ColourOf(id) == Unseen {
        var found := search.Visit(id, []);
        if found {
          return true;
        }
      }
    }
    TopologicalOrderExcludesCycles(search.edges, search.order);
    return false;
  }

  // ---------------------------------------------------------------- what the validator accepts

  function EffectiveWave(wave: int): int {
    if wave == 0 then 1 else wave
  }

  predicate HeaderOk(plan: Plan) {
    plan.requestId != "" && plan.steps != [] && plan.deadlineMs > 0
  }

  predicate ShapeOk(plan: Plan, step: PlanStep) {
    && step.stepId != "" && step.objective != "" && step.roleId != ""
    && step.contextBudget > 0 && 0 < step.timeoutMs <= plan.deadlineMs
  }

  predicate WaveOk(step: PlanStep) {
    1 <= EffectiveWave(step.wave) <= 4
  }

  predicate KindOk(step: PlanStep) {
    || (step.kind == "context" && WaveOk(step))
    || step.kind == "review"
    || (step.kind == "synthesis" && step.capabilityIds == [])
  }

  ghost predicate CapabilitiesOk(step: PlanStep) {
    Distinct(step.capabilityIds) && forall c :: c in step.capabilityIds ==> !Strings.Blank(c)
  }

  ghost predicate StepOk(plan: Plan, step: PlanStep) {
    ShapeOk(plan, step) && KindOk(step) && CapabilitiesOk(step)
  }

  function Ids(steps: seq<PlanStep>): (ids: seq<string>)
    ensures |ids| == |steps| && forall i :: 0 <= i < |steps| ==> ids[i] == steps[i].stepId
  {
    seq(|steps|, i requires 0 <= i < |steps| => steps[i].stepId)
  }

  /** The context steps of one wave, in plan order. */
  function WaveMembers(steps: seq<PlanStep>, wave: int): (members: seq<string>)
    ensures forall id :: id in members <==>
      exists i :: 0 <= i < |steps| && steps[i].stepId == id && steps[i].kind == "context" && EffectiveWave(steps[i].wave) == wave
  {
    if steps == [] then []
    else
      var n := |steps| - 1;
      WaveMembers(steps[..n], wave) +
      if steps[n].kind == "context" && EffectiveWave(steps[n].wave) == wave then [steps[n].stepId] else []
  }

  function CountKind(steps: seq<PlanStep>, kind: string): nat {
    if steps == [] then 0
    else CountKind(steps[..|steps| - 1], kind) + if steps[|steps| - 1].kind == kind then 1 else 0
  }

  ghost predicate WavesFit(plan: Plan, steps: seq<PlanStep>) {
    forall wave :: |WaveMembers(steps, wave)| <= plan.maxParallelSpecialists
  }

  ghost predicate PrefixOk(plan: Plan, n: nat)
    requires n <= |plan.steps|
  {
    && (forall k :: 0 <= k < n ==> StepOk(plan, plan.steps[k]))
    && Distinct(Ids(plan.steps[..n]))
    && WavesFit(plan, plan.steps[..n])
  }

  /** The `steps` map of the validator: id to step. */
  function StepMapOf(steps: seq<PlanStep>): (m: StepMap)
    ensures forall id :: id in m <==> id in Ids(steps)
    ensures forall id :: id in m ==> m[id] in steps && m[id].stepId == id
    ensures Distinct(Ids(steps)) ==> forall i :: 0 <= i < |steps| ==> m[steps[i].stepId] == steps[i]
  {
    if steps == [] then map[]
    else
      var n := |steps| - 1;
      assert steps == steps[..n] + [steps[n]] && Ids(steps) == Ids(steps[..n]) + [steps[n].stepId];
      DistinctSnoc(Ids(steps[..n]), steps[n].stepId);
      StepMapOf(steps[..n])[steps[n].stepId := steps[n]]
  }

  ghost predicate KnownDependency(plan: Plan, i: nat, j: nat)
    requires i < |plan.steps| && j < |plan.steps[i].dependsOn|
  {
    plan.steps[i].dependsOn[j] in StepMapOf(plan.steps)
  }

  ghost predicate EarlierWave(plan: Plan, i: nat, j: nat)
    requires i < |plan.steps| && j < |plan.steps[i].dependsOn| && KnownDependency(plan, i, j)
  {
    var step, dependency := plan.steps[i], StepMapOf(plan.steps)[plan.steps[i].dependsOn[j]];
    step.kind == "context" && dependency.kind == "context" ==> EffectiveWave(dependency.wave) < EffectiveWave(step.wave)
  }

  ghost predicate DependencyOk(plan: Plan, i: nat, j: nat)
    requires i < |plan.steps| && j < |plan.steps[i].dependsOn|
  {
    KnownDependency(plan, i, j) && EarlierWave(plan, i, j)
  }

  /** All dependencies of steps before i, and the first j of step i, are in order. */
  ghost predicate DependenciesOk(plan: Plan, i: nat, j: nat) {
    forall a, b :: 0 <= a < |plan.steps| && 0 <= b < |plan.steps[a].dependsOn| && (a < i || (a == i && b < j)) ==>
      DependencyOk(plan, a, b)
  }

  ghost predicate PreambleOk(plan: Plan) {
    && EnvelopeOk(plan.schemaVersion, plan.planId, plan.runId) && HeaderOk(plan)
    && 1 <= plan.maxParallelSpecialists <= 4 && 0 <= plan.maxRepairPasses <= 1
  }

  ghost predicate CountsOk(plan: Plan) {
    CountKind(plan.steps, "context") <= 8 && CountKind(plan.steps, "synthesis") == 1
  }

  /** The declarative meaning of a nil error. */
  ghost predicate Accepted(plan: Plan) {
    && PreambleOk(plan)
    && PrefixOk(plan, |plan.steps|)
    && CountsOk(plan)
    && DependenciesOk(plan, |plan.steps|, 0)
    && !HasCycle(DependencyEdges(StepMapOf(plan.steps)))
  }

  /** The meaning of each refusal: this check failed and every check before it passed. */
  ghost predicate FaultHolds(plan: Plan, fault: Fault) {
    var envelope := EnvelopeOk(plan.schemaVersion, plan.planId, plan.runId);
    || (fault == BadEnvelope && !envelope)
    || (fault == IncompleteHeader && envelope && !HeaderOk(plan))
    || (fault == BadParallelism && envelope && HeaderOk(plan) && !(1 <= plan.maxParallelSpecialists <= 4))
    || (fault == BadRepairPasses && envelope && HeaderOk(plan) && 1 <= plan.maxParallelSpecialists <= 4
        && !(0 <= plan.maxRepairPasses <= 1))
    || (fault.BadStep? && ReachedStep(plan, fault.i) && StepFaultHolds(plan, fault.i, fault.reason))
    || (fault == BadStepCounts && ReachedCounts(plan) && !CountsOk(plan))
    || (fault.UnknownDependency? && ReachedDependency(plan, fault.i, fault.j) && !KnownDependency(plan, fault.i, fault.j))
    || (fault.LateDependency? && ReachedDependency(plan, fault.i, fault.j)
        && KnownDependency(plan, fault.i, fault.j) && !EarlierWave(plan, fault.i, fault.j))
    || (fault == Cyclic && ReachedCounts(plan) && CountsOk(plan) && DependenciesOk(plan, |plan.steps|, 0)
        && HasCycle(DependencyEdges(StepMapOf(plan.steps))))
  }

  /** Within a step the checks run in the order of StepReason. */
  ghost predicate StepFaultHolds(plan: Plan, i: nat, reason: StepReason)
    requires i < |plan.steps|
  {
    var step := plan.steps[i];
    if !ShapeOk(plan, step) then reason == InvalidStep
    else if !KindOk(step) then
      reason == if step.kind == "context" then InvalidWave else if step.kind == "synthesis" then SynthesisCapability else UnsupportedKind
    else if !WavesFit(plan, plan.steps[..i + 1]) then reason == WaveOverflow
    else if !CapabilitiesOk(step) then reason == BadCapability
    else reason == DuplicateStep && step.stepId in Ids(plan.steps[..i])
  }

  ghost predicate ReachedStep(plan: Plan, i: nat) {
    PreambleOk(plan) && i < |plan.steps| && PrefixOk(plan, i)
  }

  ghost predicate ReachedCounts(plan: Plan) {
    PreambleOk(plan) && PrefixOk(plan, |plan.steps|)
  }

  ghost predicate ReachedDependency(plan: Plan, i: nat, j: nat) {
    && ReachedCounts(plan) && CountsOk(plan)
    && i < |plan.steps| && j < |plan.steps[i].dependsOn| && DependenciesOk(plan, i, j)
  }

  lemma DependenciesStep(plan: Plan, i: nat, j: nat)
    requires i < |plan.steps| && j < |plan.steps[i].dependsOn|
    requires DependenciesOk(plan, i, j) && DependencyOk(plan, i, j)
    ensures DependenciesOk(plan, i, j + 1)
  {
    forall a: nat, b: nat | a < |plan.steps| && b < |plan.steps[a].dependsOn| && (a < i || (a == i && b < j + 1))
      ensures DependencyOk(plan, a, b)
    {
    }
  }

  lemma CountsStep(steps: seq<PlanStep>, i: nat)
    requires i < |steps|
    ensures Ids(steps[..i + 1]) == Ids(steps[..i]) + [steps[i].stepId]
    ensures forall w :: (WaveMembers(steps[..i + 1], w) ==
        WaveMembers(steps[..i], w) + if steps[i].kind == "context" && EffectiveWave(steps[i].wave) == w then [steps[i].stepId] else [])
    ensures CountKind(steps[..i + 1], "context") == CountKind(steps[..i], "context") + if steps[i].kind == "context" then 1 else 0
    ensures CountKind(steps[..i + 1], "synthesis") == CountKind(steps[..i], "synthesis") + if steps[i].kind == "synthesis" then 1 else 0
  {
    assert steps[..i + 1][..i] == steps[..i] && steps[..i + 1][i] == steps[i];
  }

  /** When the prefix that includes step i is still in order. */
  lemma PrefixStep(plan: Plan, i: nat)
    requires i < |plan.steps| && PrefixOk(plan, i)
    ensures var step, after := plan.steps[i], plan.steps[..i + 1];
      && (step.kind != "context" ==> WavesFit(plan, after))
      && (WavesFit(plan, after) <== |WaveMembers(after, EffectiveWave(step.wave))| <= plan.maxParallelSpecialists)
      && (PrefixOk(plan, i + 1) <==> StepOk(plan, step) && step.stepId !in Ids(plan.steps[..i]) && WavesFit(plan, after))
  {
    var step, before, after := plan.steps[i], plan.steps[..i], plan.steps[..i + 1];
    CountsStep(plan.steps, i);
    DistinctSnoc(Ids(before), step.stepId);
    if step.kind != "context" || |WaveMembers(after, EffectiveWave(step.wave))| <= plan.maxParallelSpecialists {
      forall w ensures |WaveMembers(after, w)| <= plan.maxParallelSpecialists {
        assert |WaveMembers(before, w)| <= plan.maxParallelSpecialists;
      }
    }
  }

  /** A prefix that is in order stays in order when shortened. */
  lemma {:induction false} PrefixShrinks(plan: Plan, n: nat, m: nat)
    requires m <= n <= |plan.steps| && PrefixOk(plan, n)
    ensures PrefixOk(plan, m)
    decreases n - m
  {
    if m < n {
      var before, after := plan.steps[..n - 1], plan.steps[..n];
      assert after[..n - 1] == before;
      assert Ids(after) == Ids(before) + [after[n - 1].stepId];
      DistinctSnoc(Ids(before), after[n - 1].stepId);
      forall w ensures |WaveMembers(before, w)| <= plan.maxParallelSpecialists {
        assert |WaveMembers(after, w)| <= plan.maxParallelSpecialists;
      }
      PrefixShrinks(plan, n - 1, m);
    }
  }

  /** Each refusal is justified: a plan with that fault is not an acceptable plan. */
  lemma FaultExcludesAcceptance(plan: Plan, fault: Fault)
    requires FaultHolds(plan, fault)
    ensures !Accepted(plan)
  {
    match fault
    case BadStep(i, reason) =>
      FaultyStepEndsPrefix(plan, i, reason, |plan.steps|);
    case UnknownDependency(i, j) => FaultyDependencyEndsScan(plan, i, j, |plan.steps|, 0);
    case LateDependency(i, j) => FaultyDependencyEndsScan(plan, i, j, |plan.steps|, 0);
    case _ =>
  }

  /** The step checks are reached in order: a faulty step is the first step not in order. */
  lemma FaultyStepEndsPrefix(plan: Plan, i: nat, reason: StepReason, n: nat)
    requires ReachedStep(plan, i) && StepFaultHolds(plan, i, reason) && n <= |plan.steps|
    ensures PrefixOk(plan, n) ==> n <= i
  {
    PrefixStep(plan, i);
    if PrefixOk(plan, n) && i < n { PrefixShrinks(plan, n, i + 1); }
  }

  /** A faulty dependency is the first one not in order. */
  lemma FaultyDependencyEndsScan(plan: Plan, i: nat, j: nat, a: nat, b: nat)
    requires ReachedDependency(plan, i, j) && !DependencyOk(plan, i, j)
    ensures DependenciesOk(plan, a, b) ==> a < i || (a == i && b <= j)
  {
  }

  /** The refusal is a function of the plan: no two different faults hold of one plan. */
  lemma FaultUnique(plan: Plan, f: Fault, g: Fault)
    requires FaultHolds(plan, f) && FaultHolds(plan, g)
    ensures f == g
  {
    FaultReach(plan, f);
    FaultReach(plan, g);
    FaultNotLater(plan, f, g);
    FaultNotLater(plan, g, f);
    if f.BadStep? && g.BadStep? {
      assert f.i == g.i;
    }
  }

  /** How far the validator got before a refusal, for comparing two refusals. */
  ghost function Phase(fault: Fault): nat {
    match fault
    case BadEnvelope => 0
    case IncompleteHeader => 1
    case BadParallelism => 2
    case BadRepairPasses => 3
    case BadStep(_, _) => 4
    case BadStepCounts => 5
    case UnknownDependency(_, _) => 6
    case LateDependency(_, _) => 6
    case Cyclic => 7
  }

  /** The checks before the one that f names have passed. */
  ghost predicate Passed(plan: Plan, f: Fault) {
    && (Phase(f) > 0 ==> EnvelopeOk(plan.schemaVersion, plan.planId, plan.runId))
    && (Phase(f) > 1 ==> HeaderOk(plan))
    && (Phase(f) > 2 ==> 1 <= plan.maxParallelSpecialists <= 4)
    && (Phase(f) > 3 ==> 0 <= plan.maxRepairPasses <= 1)
    && (f.BadStep? ==> f.i <= |plan.steps| && PrefixOk(plan, f.i))
    && (Phase(f) > 4 ==> PrefixOk(plan, |plan.steps|))
    && (Phase(f) > 5 ==> CountsOk(plan))
    && (Phase(f) == 6 ==> DependenciesOk(plan, f.i, f.j))
    && (Phase(f) == 7 ==> DependenciesOk(plan, |plan.steps|, 0))
  }

  lemma FaultReach(plan: Plan, f: Fault)
    requires FaultHolds(plan, f)
    ensures Passed(plan, f)
  {
  }

  lemma FaultNotLater(plan: Plan, f: Fault, g: Fault)
    requires Passed(plan, f) && FaultHolds(plan, g)
    ensures Phase(f) <= Phase(g)
    ensures f.BadStep? && g.BadStep? ==> f.i <= g.i
    ensures Phase(f) == Phase(g) == 6 ==> f.i < g.i || (f.i == g.i && f.j <= g.j)
  {
    if g.BadStep? {
      FaultyStepEndsPrefix(plan, g.i, g.reason, if f.BadStep? then f.i else |plan.steps|);
    } else if Phase(g) == 6 {
      FaultyDependencyEndsScan(plan, g.i, g.j, if Phase(f) == 6 then f.i else |plan.steps|, if Phase(f) == 6 then f.j else 0);
    }
  }

  method CheckCapabilities(step: PlanStep) returns (ok: bool)
    ensures ok <==> CapabilitiesOk(step)
  {
    var seen: set<string> := {};
    for k := 0 to |step.capabilityIds|
      invariant seen == set c | c in step.capabilityIds[..k]
      invariant Distinct(step.capabilityIds[..k])
      invariant forall c :: c in seen ==> !Strings.Blank(c)
    {
      var c := step.capabilityIds[k];
      if Strings.Blank(c) || c in seen {
        return false;
      }
      assert step.capabilityIds[..k + 1] == step.capabilityIds[..k] + [c];
      DistinctSnoc(step.capabilityIds[..k], c);
      seen := seen + {c};
    }
    assert step.capabilityIds[..|step.capabilityIds|] == step.capabilityIds;
    return true;
  }

  method ValidateResearchPlan(plan: Plan) returns (fault: Option<Fault>)
    ensures fault.None? <==> Accepted(plan)
    ensures fault.Some? ==> FaultHolds(plan, fault.value)
  {
    if !EnvelopeOk(plan.schemaVersion, plan.planId, plan.runId) { return Some(BadEnvelope); }
    if plan.requestId == "" || |plan.steps| == 0 || plan.deadlineMs <= 0 { return Some(IncompleteHeader); }
    if plan.maxParallelSpecialists < 1 || plan.maxParallelSpecialists > 4 { return Some(BadParallelism); }
    if plan.maxRepairPasses < 0 || plan.maxRepairPasses > 1 { return Some(BadRepairPasses); }
    fault := ValidateSteps(plan);
    if fault.Some? { FaultExcludesAcceptance(plan, fault.value); return; }
    fault := ValidateDependencies(plan);
    if fault.Some? { FaultExcludesAcceptance(plan, fault.value); return; }
    var cycle := HasPlanCycle(StepMapOf(plan.steps));
    if cycle { return Some(Cyclic); }
  }

  /** One round of the first loop; `running` is contextPerWave at this step's wave, `seen` the ids so far. */
  method CheckStep(plan: Plan, i: nat, seen: set<string>, running: nat) returns (reason: Option<StepReason>)
    requires i < |plan.steps| && PrefixOk(plan, i)
    requires forall id :: id in seen <==> id in Ids(plan.steps[..i])
    requires running == |WaveMembers(plan.steps[..i], EffectiveWave(plan.steps[i].wave))|
    ensures reason.None? ==> PrefixOk(plan, i + 1)
    ensures reason.Some? ==> StepFaultHolds(plan, i, reason.value)
  {
    var step := plan.steps[i];
    CountsStep(plan.steps, i);
    PrefixStep(plan, i);
    if step.stepId == "" || step.objective == "" || step.roleId == "" || step.contextBudget <= 0
       || step.timeoutMs <= 0 || step.timeoutMs > plan.deadlineMs {
      return Some(InvalidStep);
    }
    if step.kind == "context" {
      var wave := EffectiveWave(step.wave);
      if wave < 1 || wave > 4 { return Some(InvalidWave); }
      if running + 1 > plan.maxParallelSpecialists {
        assert |WaveMembers(plan.steps[..i + 1], wave)| == running + 1;
        return Some(WaveOverflow);
      }
    } else if step.kind == "review" {
    } else if step.kind == "synthesis" {
      if |step.capabilityIds| > 0 { return Some(SynthesisCapability); }
    } else {
      return Some(UnsupportedKind);
    }
    var capable := CheckCapabilities(step);
    if !capable { return Some(BadCapability); }
    if step.stepId in seen { return Some(DuplicateStep); }
    return None;
  }

  /** contextPerWave counts the wave members seen so far; a missing wave counts zero. */
  ghost predicate Tallies(contextPerWave: map<int, nat>, steps: seq<PlanStep>) {
    forall w :: (if w in contextPerWave then contextPerWave[w] else 0) == |WaveMembers(steps, w)|
  }

  lemma TallyStep(contextPerWave: map<int, nat>, steps: seq<PlanStep>, i: nat)
    requires i < |steps| && Tallies(contextPerWave, steps[..i])
    ensures var wave := EffectiveWave(steps[i].wave);
      var running := if wave in contextPerWave then contextPerWave[wave] else 0;
      Tallies(if steps[i].kind == "context" then contextPerWave[wave := running + 1] else contextPerWave, steps[..i + 1])
  {
    CountsStep(steps, i);
  }

  /** The first loop: the first step not in order, or the final counts. */
  method ScanSteps(plan: Plan) returns (fault: Option<Fault>, contextSteps: nat, synthesisSteps: nat)
    requires plan.maxParallelSpecialists >= 1
    ensures fault.None? ==> PrefixOk(plan, |plan.steps|)
    ensures fault.None? ==> contextSteps == CountKind(plan.steps, "context") && synthesisSteps == CountKind(plan.steps, "synthesis")
    ensures fault.Some? ==> var f := fault.value;
      f.BadStep? && f.i < |plan.steps| && PrefixOk(plan, f.i) && StepFaultHolds(plan, f.i, f.reason)
  {
    var seen: set<string> := {};
    var contextPerWave: map<int, nat> := map[];
    contextSteps, synthesisSteps := 0, 0;
    for i := 0 to |plan.steps|
      invariant PrefixOk(plan, i)
      invariant forall id :: id in seen <==> id in Ids(plan.steps[..i])
      invariant Tallies(contextPerWave, plan.steps[..i])
      invariant contextSteps == CountKind(plan.steps[..i], "context")
      invariant synthesisSteps == CountKind(plan.steps[..i], "synthesis")
    {
      var step := plan.steps[i];
      var wave := EffectiveWave(step.wave);
      var running := if wave in contextPerWave then contextPerWave[wave] else 0;
      var reason := CheckStep(plan, i, seen, running);
      if reason.Some? { return Some(BadStep(i, reason.value)), contextSteps, synthesisSteps; }
      CountsStep(plan.steps, i);
      TallyStep(contextPerWave, plan.steps, i);
      if step.kind == "context" {
        contextSteps := contextSteps + 1;
        contextPerWave := contextPerWave[wave := running + 1];
      } else if step.kind == "synthesis" {
        synthesisSteps := synthesisSteps + 1;
      }
      seen := seen + {step.stepId};
    }
    assert plan.steps[..|plan.steps|] == plan.steps;
    return None, contextSteps, synthesisSteps;
  }

  /** The first loop and the count check. */
  method ValidateSteps(plan: Plan) returns (fault: Option<Fault>)
    requires PreambleOk(plan)
    ensures fault.None? ==> PrefixOk(plan, |plan.steps|) && CountsOk(plan)
    ensures fault.Some? ==> FaultHolds(plan, fault.value)
  {
    var contextSteps, synthesisSteps;
    fault, contextSteps, synthesisSteps := ScanSteps(plan);
    if fault.None? && (contextSteps > 8 || synthesisSteps != 1) { return Some(BadStepCounts); }
  }

  /** The dependency loops. */
  method ValidateDependencies(plan: Plan) returns (fault: Option<Fault>)
    requires PreambleOk(plan) && PrefixOk(plan, |plan.steps|) && CountsOk(plan)
    ensures fault.None? ==> DependenciesOk(plan, |plan.steps|, 0)
    ensures fault.Some? ==> FaultHolds(plan, fault.value)
  {
    var steps := StepMapOf(plan.steps);
    for i := 0 to |plan.steps|
      invariant DependenciesOk(plan, i, 0)
    {
      var step := plan.steps[i];
      for j := 0 to |step.dependsOn|
        invariant DependenciesOk(plan, i, j)
      {
        var dependency := step.dependsOn[j];
        if dependency !in steps { return Some(UnknownDependency(i, j)); }
        if step.kind == "context" && steps[dependency].kind == "context"
           && EffectiveWave(steps[dependency].wave) >= EffectiveWave(step.wave) {
          return Some(LateDependency(i, j));
        }
        DependenciesStep(plan, i, j);
      }
    }
    return None;
  }

  /** Neither the order nor the repetition of dependencies inside a step matters to the search. */
  lemma CycleIgnoresDependencyOrder(steps: StepMap, reordered: StepMap)
    requires steps.Keys == reordered.Keys
    requires forall id, d :: id in steps ==> (d in steps[id].dependsOn <==> d in reordered[id].dependsOn)
    ensures HasCycle(DependencyEdges(steps)) <==> HasCycle(DependencyEdges(reordered))
  {
    forall e ensures e in DependencyEdges(steps) <==> e in DependencyEdges(reordered) {
      DependencyEdge(steps, e.0, e.1);
      DependencyEdge(reordered, e.0, e.1);
    }
    assert DependencyEdges(steps) == DependencyEdges(reordered);
  }

}
