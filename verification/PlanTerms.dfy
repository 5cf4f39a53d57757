/** What an accepted plan is, in terms of the fields of its steps alone. */
module PlanTerms {
  import opened Graphs
  import opened Envelope
  import opened ResearchPlan
  import opened PlanExecution
  import Strings

  // ---------------------------------------------------------------- the terms

  ghost predicate HeaderMeets(plan: Plan) {
    && plan.schemaVersion == "signalforge/v1" && Strings.Written(plan.planId) && Strings.Written(plan.runId)
    && plan.requestId != "" && plan.steps != [] && plan.deadlineMs > 0
    && 1 <= plan.maxParallelSpecialists <= 4 && 0 <= plan.maxRepairPasses <= 1
  }

  /** A context step's wave is at most 4, where 0 stands for a wave left out; a synthesis step has no capabilities. */
  ghost predicate StepMeets(plan: Plan, step: PlanStep) {
    && step.stepId != "" && step.objective != "" && step.roleId != ""
    && step.contextBudget > 0 && 0 < step.timeoutMs <= plan.deadlineMs
    && step.kind in {"context", "review", "synthesis"}
    && (step.kind == "context" ==> 0 <= step.wave <= 4)
    && (step.kind == "synthesis" ==> step.capabilityIds == [])
    && (forall c :: c in step.capabilityIds ==> Strings.Written(c))
    && forall i, j :: 0 <= i < j < |step.capabilityIds| ==> step.capabilityIds[i] != step.capabilityIds[j]
  }

  /** At most eight context steps and one synthesis; the first wave, written or left out, and the others are no wider than allowed. */
  ghost predicate CountsMeet(plan: Plan) {
    var n, width := |plan.steps|, plan.maxParallelSpecialists;
    && |set i | 0 <= i < n && plan.steps[i].kind == "context"| <= 8
    && |set i | 0 <= i < n && plan.steps[i].kind == "synthesis"| == 1
    && |set i | 0 <= i < n && plan.steps[i].kind == "context" && plan.steps[i].wave in {0, 1}| <= width
    && |set i | 0 <= i < n && plan.steps[i].kind == "context" && plan.steps[i].wave == 2| <= width
    && |set i | 0 <= i < n && plan.steps[i].kind == "context" && plan.steps[i].wave == 3| <= width
    && |set i | 0 <= i < n && plan.steps[i].kind == "context" && plan.steps[i].wave == 4| <= width
  }

  /** Step b comes in a later wave than step a; 0 is the first wave like 1. */
  predicate InLaterWave(a: PlanStep, b: PlanStep) {
    if a.wave in {0, 1} then b.wave !in {0, 1} && b.wave > 0 else a.wave < b.wave
  }

  /** Some step has this id, and if both are context steps it comes in an earlier wave. */
  ghost predicate DependencyMeets(plan: Plan, step: PlanStep, d: string) {
    exists j :: 0 <= j < |plan.steps| && plan.steps[j].stepId == d
      && (step.kind == "context" && plan.steps[j].kind == "context" ==> InLaterWave(plan.steps[j], step))
  }

  ghost predicate DependenciesMeet(plan: Plan) {
    forall i, d :: 0 <= i < |plan.steps| && d in plan.steps[i].dependsOn ==> DependencyMeets(plan, plan.steps[i], d)
  }

  /** Some step with the first id depends on the second. */
  ghost predicate DependsOn(plan: Plan, a: string, b: string) {
    exists i :: 0 <= i < |plan.steps| && plan.steps[i].stepId == a && b in plan.steps[i].dependsOn
  }

  /** A closed chain of steps, each depending on the next. */
  ghost predicate IsCircle(plan: Plan, p: seq<string>) {
    && |p| >= 2 && p[0] == p[|p| - 1]
    && forall k :: 0 <= k < |p| - 1 ==> DependsOn(plan, p[k], p[k + 1])
  }

  ghost predicate Meets(plan: Plan) {
    && HeaderMeets(plan) && CountsMeet(plan)
    && (forall i :: 0 <= i < |plan.steps| ==> StepMeets(plan, plan.steps[i]))
    && (forall i, j :: 0 <= i < j < |plan.steps| ==> plan.steps[i].stepId != plan.steps[j].stepId)
    && DependenciesMeet(plan)
    && forall p: seq<string> :: !IsCircle(plan, p)
  }

  // ---------------------------------------------------------------- counting

  function Positions(steps: seq<PlanStep>, p: PlanStep -> bool): (s: set<int>)
    ensures forall i :: i in s <==> 0 <= i < |steps| && p(steps[i])
  {
    set i | 0 <= i < |steps| && p(steps[i])
  }

  lemma PositionsSnoc(steps: seq<PlanStep>, p: PlanStep -> bool)
    requires steps != []
    ensures var n := |steps| - 1; |Positions(steps, p)| == |Positions(steps[..n], p)| + if p(steps[n]) then 1 else 0
  {
    var n := |steps| - 1;
    var before, after := Positions(steps[..n], p), Positions(steps, p);
    if p(steps[n]) {
      assert after == before + {n};
    } else {
      assert after == before;
    }
  }

  lemma {:induction false} CountIsPositions(steps: seq<PlanStep>, kind: string)
    ensures CountKind(steps, kind) == |Positions(steps, (s: PlanStep) => s.kind == kind)|
  {
    if steps != [] {
      CountIsPositions(steps[..|steps| - 1], kind);
      PositionsSnoc(steps, (s: PlanStep) => s.kind == kind);
    }
  }

  lemma {:induction false} WaveIsPositions(steps: seq<PlanStep>, wave: int)
    ensures |WaveMembers(steps, wave)| == |Positions(steps, (s: PlanStep) => s.kind == "context" && EffectiveWave(s.wave) == wave)|
  {
    if steps != [] {
      WaveIsPositions(steps[..|steps| - 1], wave);
      PositionsSnoc(steps, (s: PlanStep) => s.kind == "context" && EffectiveWave(s.wave) == wave);
    }
  }

  lemma SamePositions(steps: seq<PlanStep>, p: PlanStep -> bool, s: set<int>)
    requires forall i :: i in s <==> 0 <= i < |steps| && p(steps[i])
    ensures |s| == |Positions(steps, p)|
  {
    assert s == Positions(steps, p);
  }

  lemma KindCount(steps: seq<PlanStep>, kind: string)
    ensures CountKind(steps, kind) == |set i | 0 <= i < |steps| && steps[i].kind == kind|
  {
    CountIsPositions(steps, kind);
    SamePositions(steps, (s: PlanStep) => s.kind == kind, set i | 0 <= i < |steps| && steps[i].kind == kind);
  }

  lemma FirstWaveWidth(steps: seq<PlanStep>)
    ensures |WaveMembers(steps, 1)| == |set i | 0 <= i < |steps| && steps[i].kind == "context" && steps[i].wave in {0, 1}|
  {
    WaveIsPositions(steps, 1);
    SamePositions(steps, (s: PlanStep) => s.kind == "context" && EffectiveWave(s.wave) == 1,
                  set i | 0 <= i < |steps| && steps[i].kind == "context" && steps[i].wave in {0, 1});
  }

  lemma LaterWaveWidth(steps: seq<PlanStep>, wave: int)
    requires wave > 1
    ensures |WaveMembers(steps, wave)| == |set i | 0 <= i < |steps| && steps[i].kind == "context" && steps[i].wave == wave|
  {
    WaveIsPositions(steps, wave);
    SamePositions(steps, (s: PlanStep) => s.kind == "context" && EffectiveWave(s.wave) == wave,
                  set i | 0 <= i < |steps| && steps[i].kind == "context" && steps[i].wave == wave);
  }

  lemma HasMember(s: seq<string>)
    requires s != []
    ensures exists x :: x in s
  {
    assert s[0] in s;
  }

  lemma NoOtherWave(plan: Plan, wave: int)
    requires forall i :: 0 <= i < |plan.steps| ==> StepMeets(plan, plan.steps[i])
    requires wave < 1 || wave > 4
    ensures WaveMembers(plan.steps, wave) == []
  {
    var members := WaveMembers(plan.steps, wave);
    forall i | 0 <= i < |plan.steps| ensures plan.steps[i].kind == "context" ==> EffectiveWave(plan.steps[i].wave) != wave {
      assert StepMeets(plan, plan.steps[i]);
    }
    if members != [] { HasMember(members); }
  }

  // ---------------------------------------------------------------- acceptance is meeting the terms

  lemma BlankIsUnwritten(s: string)
    ensures Strings.Blank(s) <==> !Strings.Written(s)
  {
  }

  lemma HeaderTerms(plan: Plan)
    ensures PreambleOk(plan) <==> HeaderMeets(plan)
  {
    BlankIsUnwritten(plan.planId);
    BlankIsUnwritten(plan.runId);
  }

  lemma CapabilityTerms(step: PlanStep)
    ensures CapabilitiesOk(step) <==> (
      && (forall c :: c in step.capabilityIds ==> Strings.Written(c))
      && forall i, j :: 0 <= i < j < |step.capabilityIds| ==> step.capabilityIds[i] != step.capabilityIds[j])
  {
    forall c ensures Strings.Blank(c) <==> !Strings.Written(c) { BlankIsUnwritten(c); }
  }

  lemma StepTerms(plan: Plan, step: PlanStep)
    ensures StepOk(plan, step) <==> StepMeets(plan, step)
  {
    CapabilityTerms(step);
  }

  lemma WidthTerms(plan: Plan)
    requires forall i :: 0 <= i < |plan.steps| ==> StepMeets(plan, plan.steps[i])
    requires plan.maxParallelSpecialists >= 0
    ensures WavesFit(plan, plan.steps) && CountsOk(plan) <==> CountsMeet(plan)
  {
    KindCount(plan.steps, "context");
    KindCount(plan.steps, "synthesis");
    FirstWaveWidth(plan.steps);
    LaterWaveWidth(plan.steps, 2);
    LaterWaveWidth(plan.steps, 3);
    LaterWaveWidth(plan.steps, 4);
    FourWaves(plan);
  }

  /** The waves fit when the four that can have members do. */
  lemma FourWaves(plan: Plan)
    requires forall i :: 0 <= i < |plan.steps| ==> StepMeets(plan, plan.steps[i])
    requires plan.maxParallelSpecialists >= 0
    ensures WavesFit(plan, plan.steps) <==> (
      && |WaveMembers(plan.steps, 1)| <= plan.maxParallelSpecialists && |WaveMembers(plan.steps, 2)| <= plan.maxParallelSpecialists
      && |WaveMembers(plan.steps, 3)| <= plan.maxParallelSpecialists && |WaveMembers(plan.steps, 4)| <= plan.maxParallelSpecialists)
  {
    forall wave | wave < 1 || wave > 4 ensures |WaveMembers(plan.steps, wave)| <= plan.maxParallelSpecialists { NoOtherWave(plan, wave); }
  }

  /** The map holds exactly the steps, each under its id. */
  ghost predicate MapsSteps(m: StepMap, steps: seq<PlanStep>) {
    && (forall i :: 0 <= i < |steps| ==> steps[i].stepId in m && m[steps[i].stepId] == steps[i])
    && forall id :: id in m ==> m[id].stepId == id && m[id] in steps
  }

  lemma {:induction false} StepMapIsMap(steps: seq<PlanStep>)
    requires Distinct(Ids(steps))
    ensures MapsSteps(StepMapOf(steps), steps)
  {
    var ids := Ids(steps);
    forall i | 0 <= i < |steps| ensures steps[i].stepId in ids { assert ids[i] in ids; }
  }

  lemma WaveOrder(a: PlanStep, b: PlanStep)
    requires 0 <= a.wave && 0 <= b.wave
    ensures InLaterWave(a, b) <==> EffectiveWave(a.wave) < EffectiveWave(b.wave)
  {
  }

  lemma DependencyTerms(plan: Plan, i: nat, j: nat)
    requires i < |plan.steps| && j < |plan.steps[i].dependsOn| && Distinct(Ids(plan.steps))
    requires forall k :: 0 <= k < |plan.steps| ==> StepMeets(plan, plan.steps[k])
    ensures DependencyOk(plan, i, j) <==> DependencyMeets(plan, plan.steps[i], plan.steps[i].dependsOn[j])
  {
    var d, m := plan.steps[i].dependsOn[j], StepMapOf(plan.steps);
    StepMapIsMap(plan.steps);
    if d in m {
      KnownTerms(plan, m, i, d);
    } else {
      UnknownTerms(plan, m, i, d);
    }
  }

  lemma UnknownTerms(plan: Plan, m: StepMap, i: nat, d: string)
    requires i < |plan.steps| && MapsSteps(m, plan.steps) && d !in m
    ensures !DependencyMeets(plan, plan.steps[i], d)
  {
  }

  lemma KnownTerms(plan: Plan, m: StepMap, i: nat, d: string)
    requires i < |plan.steps| && MapsSteps(m, plan.steps) && d in m
    requires forall k :: 0 <= k < |plan.steps| ==> StepMeets(plan, plan.steps[k])
    ensures var step, dependency := plan.steps[i], m[d];
      DependencyMeets(plan, step, d)
      <==> (step.kind == "context" && dependency.kind == "context" ==> EffectiveWave(dependency.wave) < EffectiveWave(step.wave))
  {
    var step, dependency := plan.steps[i], m[d];
    var k :| 0 <= k < |plan.steps| && plan.steps[k] == dependency;
    assert StepMeets(plan, step) && StepMeets(plan, plan.steps[k]);
    if step.kind == "context" && dependency.kind == "context" { WaveOrder(dependency, step); }
    assert forall l :: 0 <= l < |plan.steps| && plan.steps[l].stepId == d ==> plan.steps[l] == dependency;
  }

  lemma CircleTerms(plan: Plan, p: seq<string>)
    requires Distinct(Ids(plan.steps))
    ensures IsCircle(plan, p) <==> IsCycle(DependencyEdges(StepMapOf(plan.steps)), p)
  {
    var edges := DependencyEdges(StepMapOf(plan.steps));
    forall k | 0 <= k < |p| - 1 ensures (p[k], p[k + 1]) in edges <==> DependsOn(plan, p[k], p[k + 1]) {
      EdgeTerms(plan, p[k], p[k + 1]);
    }
  }

  lemma EdgeTerms(plan: Plan, a: string, b: string)
    requires Distinct(Ids(plan.steps))
    ensures (a, b) in DependencyEdges(StepMapOf(plan.steps))
      <==> DependsOn(plan, a, b)
  {
    var m := StepMapOf(plan.steps);
    DependencyEdge(m, a, b);
    StepMapIsMap(plan.steps);
    MappedDepends(plan, m, a, b);
  }

  lemma MappedDepends(plan: Plan, m: StepMap, a: string, b: string)
    requires MapsSteps(m, plan.steps)
    ensures a in m && b in m[a].dependsOn <==> DependsOn(plan, a, b)
  {
    if a in m {
      var k :| 0 <= k < |plan.steps| && plan.steps[k] == m[a];
    }
  }

  lemma DistinctTerms(plan: Plan)
    ensures Distinct(Ids(plan.steps)) <==> forall i, j :: 0 <= i < j < |plan.steps| ==> plan.steps[i].stepId != plan.steps[j].stepId
  {
    var ids := Ids(plan.steps);
    assert forall i :: 0 <= i < |ids| ==> ids[i] == plan.steps[i].stepId;
    if Distinct(ids) {
      forall i, j | 0 <= i < j < |plan.steps| ensures plan.steps[i].stepId != plan.steps[j].stepId { assert ids[i] != ids[j]; }
    }
  }

  lemma AllStepsTerms(plan: Plan)
    ensures (forall k :: 0 <= k < |plan.steps| ==> StepOk(plan, plan.steps[k])) <==> forall i :: 0 <= i < |plan.steps| ==> StepMeets(plan, plan.steps[i])
  {
    forall k | 0 <= k < |plan.steps| ensures StepOk(plan, plan.steps[k]) <==> StepMeets(plan, plan.steps[k]) { StepTerms(plan, plan.steps[k]); }
  }

  lemma AllDependenciesTerms(plan: Plan)
    requires Distinct(Ids(plan.steps)) && forall k :: 0 <= k < |plan.steps| ==> StepMeets(plan, plan.steps[k])
    ensures DependenciesOk(plan, |plan.steps|, 0) <==> DependenciesMeet(plan)
  {
    forall i, j | 0 <= i < |plan.steps| && 0 <= j < |plan.steps[i].dependsOn|
      ensures DependencyOk(plan, i, j) <==> DependencyMeets(plan, plan.steps[i], plan.steps[i].dependsOn[j])
    {
      DependencyTerms(plan, i, j);
    }
    if DependenciesOk(plan, |plan.steps|, 0) {
      forall i, d | 0 <= i < |plan.steps| && d in plan.steps[i].dependsOn ensures DependencyMeets(plan, plan.steps[i], d) {
        var j :| 0 <= j < |plan.steps[i].dependsOn| && plan.steps[i].dependsOn[j] == d;
        assert DependencyOk(plan, i, j);
      }
    }
  }

  lemma AcyclicTerms(plan: Plan)
    requires Distinct(Ids(plan.steps))
    ensures HasCycle(DependencyEdges(StepMapOf(plan.steps))) <==> exists p: seq<string> :: IsCircle(plan, p)
  {
    forall p: seq<string> ensures IsCircle(plan, p) <==> IsCycle(DependencyEdges(StepMapOf(plan.steps)), p) { CircleTerms(plan, p); }
  }

  /** The validator accepts exactly the plans that meet the terms. */
  lemma AcceptedIffMeets(plan: Plan)
    ensures Accepted(plan) <==> Meets(plan)
  {
    HeaderTerms(plan);
    AllStepsTerms(plan);
    DistinctTerms(plan);
    assert plan.steps[..|plan.steps|] == plan.steps;
    if HeaderMeets(plan) && forall i :: 0 <= i < |plan.steps| ==> StepMeets(plan, plan.steps[i]) {
      WidthTerms(plan);
      if Distinct(Ids(plan.steps)) {
        AllDependenciesTerms(plan);
        AcyclicTerms(plan);
      }
    }
  }

  // ---------------------------------------------------------------- a wave left out

  /** The same step, save that a context step of the first wave may leave its wave out or write it. */
  predicate SameStep(a: PlanStep, b: PlanStep) {
    a == b || (a.kind == "context" && a.wave in {0, 1} && b.wave in {0, 1} && a.(wave := 0) == b.(wave := 0))
  }

  ghost predicate SameSteps(p: seq<PlanStep>, q: seq<PlanStep>) {
    |p| == |q| && forall i :: 0 <= i < |p| ==> SameStep(p[i], q[i])
  }

  lemma SameCounts(p: Plan, q: Plan)
    requires q == p.(steps := q.steps) && SameSteps(p.steps, q.steps)
    ensures CountsMeet(p) <==> CountsMeet(q)
  {
    var n := |p.steps|;
    assert forall i :: 0 <= i < n ==> SameStep(p.steps[i], q.steps[i]);
    assert (set i | 0 <= i < n && p.steps[i].kind == "context") == set i | 0 <= i < n && q.steps[i].kind == "context";
    assert (set i | 0 <= i < n && p.steps[i].kind == "synthesis") == set i | 0 <= i < n && q.steps[i].kind == "synthesis";
    assert (set i | 0 <= i < n && p.steps[i].kind == "context" && p.steps[i].wave in {0, 1})
        == set i | 0 <= i < n && q.steps[i].kind == "context" && q.steps[i].wave in {0, 1};
    SameLaterWave(p.steps, q.steps, 2);
    SameLaterWave(p.steps, q.steps, 3);
    SameLaterWave(p.steps, q.steps, 4);
  }

  lemma SameLaterWave(p: seq<PlanStep>, q: seq<PlanStep>, wave: int)
    requires SameSteps(p, q) && wave > 1
    ensures (set i | 0 <= i < |p| && p[i].kind == "context" && p[i].wave == wave)
         == set i | 0 <= i < |q| && q[i].kind == "context" && q[i].wave == wave
  {
    assert forall i :: 0 <= i < |p| ==> SameStep(p[i], q[i]);
  }

  lemma SameDependency(p: Plan, q: Plan, i: nat, d: string)
    requires SameSteps(p.steps, q.steps) && i < |p.steps| && DependencyMeets(p, p.steps[i], d)
    ensures DependencyMeets(q, q.steps[i], d)
  {
    var j :| 0 <= j < |p.steps| && p.steps[j].stepId == d
      && (p.steps[i].kind == "context" && p.steps[j].kind == "context" ==> InLaterWave(p.steps[j], p.steps[i]));
    assert SameStep(p.steps[i], q.steps[i]) && SameStep(p.steps[j], q.steps[j]);
    assert q.steps[j].stepId == d;
  }

  lemma SameEdge(p: Plan, q: Plan, a: string, b: string)
    requires SameSteps(p.steps, q.steps) && DependsOn(q, a, b)
    ensures DependsOn(p, a, b)
  {
    var i :| 0 <= i < |q.steps| && q.steps[i].stepId == a && b in q.steps[i].dependsOn;
    assert SameStep(p.steps[i], q.steps[i]);
  }

  lemma SameCircle(p: Plan, q: Plan, c: seq<string>)
    requires SameSteps(p.steps, q.steps) && IsCircle(q, c)
    ensures IsCircle(p, c)
  {
    forall k | 0 <= k < |c| - 1 ensures DependsOn(p, c[k], c[k + 1]) { SameEdge(p, q, c[k], c[k + 1]); }
  }

  lemma SameStepMeets(p: Plan, q: Plan)
    requires q == p.(steps := q.steps) && SameSteps(p.steps, q.steps)
    requires forall i :: 0 <= i < |p.steps| ==> StepMeets(p, p.steps[i])
    ensures forall i :: 0 <= i < |q.steps| ==> StepMeets(q, q.steps[i])
  {
    forall i | 0 <= i < |q.steps| ensures StepMeets(q, q.steps[i]) {
      assert StepMeets(p, p.steps[i]) && SameStep(p.steps[i], q.steps[i]);
    }
  }

  lemma SamePlanMeets(p: Plan, q: Plan)
    requires q == p.(steps := q.steps) && SameSteps(p.steps, q.steps) && Meets(p)
    ensures Meets(q)
  {
    SameCounts(p, q);
    SameStepMeets(p, q);
    forall i, j | 0 <= i < j < |q.steps| ensures q.steps[i].stepId != q.steps[j].stepId {
      assert SameStep(p.steps[i], q.steps[i]) && SameStep(p.steps[j], q.steps[j]);
    }
    forall i, d | 0 <= i < |q.steps| && d in q.steps[i].dependsOn ensures DependencyMeets(q, q.steps[i], d) {
      assert SameStep(p.steps[i], q.steps[i]);
      SameDependency(p, q, i, d);
    }
    forall c: seq<string> ensures !IsCircle(q, c) { if IsCircle(q, c) { SameCircle(p, q, c); } }
  }

  /** Leaving the wave of a context step out is the same as writing wave 1. */
  lemma MissingWaveIsFirst(p: Plan, q: Plan)
    requires q == p.(steps := q.steps) && SameSteps(p.steps, q.steps)
    ensures Accepted(p) <==> Accepted(q)
  {
    assert forall i :: 0 <= i < |p.steps| ==> SameStep(p.steps[i], q.steps[i]) && SameStep(q.steps[i], p.steps[i]);
    if Meets(p) { SamePlanMeets(p, q); }
    if Meets(q) { SamePlanMeets(q, p); }
    AcceptedIffMeets(p);
    AcceptedIffMeets(q);
  }

  /** A plan whose context step leaves its wave out is accepted. */
  lemma MissingWaveAccepted() returns (plan: Plan)
    ensures Accepted(plan) && |plan.steps| == 3 && plan.steps[1].kind == "context" && plan.steps[1].wave == 0
  {
    var written := ReviewFirst();
    plan := written.(steps := written.steps[1 := written.steps[1].(wave := 0)]);
    ReviewFirstAccepted();
    assert SameStep(written.steps[1], plan.steps[1]);
    MissingWaveIsFirst(written, plan);
  }

  /** Wave by wave: the first list holds the context steps of wave 1 and those without a wave, the others one wave each. */
  lemma ScheduleTerms(plan: Plan, w: nat, id: string)
    requires Accepted(plan) && w < 4
    ensures id in WaveSchedule(plan.steps)[w] <==>
      exists i :: 0 <= i < |plan.steps| && plan.steps[i].stepId == id && plan.steps[i].kind == "context"
        && (plan.steps[i].wave == w + 1 || (w == 0 && plan.steps[i].wave == 0))
  {
  }

  // ---------------------------------------------------------------- refusals

  /** What each refusal says of the plan's fields. */
  ghost predicate Tells(plan: Plan, fault: Fault) {
    match fault
    case BadEnvelope => plan.schemaVersion != "signalforge/v1" || !Strings.Written(plan.planId) || !Strings.Written(plan.runId)
    case IncompleteHeader => plan.requestId == "" || plan.steps == [] || plan.deadlineMs <= 0
    case BadParallelism => plan.maxParallelSpecialists < 1 || 4 < plan.maxParallelSpecialists
    case BadRepairPasses => plan.maxRepairPasses < 0 || 1 < plan.maxRepairPasses
    case BadStep(i, reason) => i < |plan.steps| && StepTells(plan, i, reason)
    case BadStepCounts =>
      || |set i | 0 <= i < |plan.steps| && plan.steps[i].kind == "context"| > 8
      || |set i | 0 <= i < |plan.steps| && plan.steps[i].kind == "synthesis"| != 1
    case UnknownDependency(i, j) =>
      && i < |plan.steps| && j < |plan.steps[i].dependsOn|
      && forall k :: 0 <= k < |plan.steps| ==> plan.steps[k].stepId != plan.steps[i].dependsOn[j]
    case LateDependency(i, j) =>
      && i < |plan.steps| && j < |plan.steps[i].dependsOn| && plan.steps[i].kind == "context"
      && exists k :: 0 <= k < |plan.steps| && plan.steps[k].stepId == plan.steps[i].dependsOn[j]
           && plan.steps[k].kind == "context" && !InLaterWave(plan.steps[k], plan.steps[i])
    case Cyclic => exists p: seq<string> :: IsCircle(plan, p)
  }

  ghost predicate StepTells(plan: Plan, i: nat, reason: StepReason)
    requires i < |plan.steps|
  {
    var step := plan.steps[i];
    match reason
    case InvalidStep =>
      || step.stepId == "" || step.objective == "" || step.roleId == ""
      || step.contextBudget <= 0 || step.timeoutMs <= 0 || plan.deadlineMs < step.timeoutMs
    case InvalidWave => step.kind == "context" && (step.wave < 0 || 4 < step.wave)
    case WaveOverflow =>
      && step.kind == "context"
      && |set k | 0 <= k <= i && plan.steps[k].kind == "context" && SameWave(plan.steps[k], step)| > plan.maxParallelSpecialists
    case SynthesisCapability => step.kind == "synthesis" && step.capabilityIds != []
    case UnsupportedKind => step.kind !in {"context", "review", "synthesis"}
    case BadCapability =>
      || (exists c :: c in step.capabilityIds && !Strings.Written(c))
      || exists j, k :: 0 <= j < k < |step.capabilityIds| && step.capabilityIds[j] == step.capabilityIds[k]
    case DuplicateStep => exists k :: 0 <= k < i && plan.steps[k].stepId == step.stepId
  }

  predicate SameWave(a: PlanStep, b: PlanStep) {
    a.wave == b.wave || (a.wave in {0, 1} && b.wave in {0, 1})
  }

  lemma OverflowTerms(plan: Plan, i: nat)
    requires i < |plan.steps| && plan.steps[i].kind == "context"
    requires |WaveMembers(plan.steps[..i + 1], EffectiveWave(plan.steps[i].wave))| > plan.maxParallelSpecialists
    ensures StepTells(plan, i, WaveOverflow)
  {
    var step, first := plan.steps[i], plan.steps[..i + 1];
    WaveIsPositions(first, EffectiveWave(step.wave));
    SamePositions(first, (s: PlanStep) => s.kind == "context" && EffectiveWave(s.wave) == EffectiveWave(step.wave),
                  set k | 0 <= k <= i && plan.steps[k].kind == "context" && SameWave(plan.steps[k], step));
  }

  lemma CapabilityFaultTells(plan: Plan, i: nat)
    requires i < |plan.steps| && !CapabilitiesOk(plan.steps[i])
    ensures StepTells(plan, i, BadCapability)
  {
    CapabilityTerms(plan.steps[i]);
  }

  lemma StepFaultTells(plan: Plan, i: nat, reason: StepReason)
    requires ReachedStep(plan, i) && StepFaultHolds(plan, i, reason)
    ensures StepTells(plan, i, reason)
  {
    PrefixStep(plan, i);
    match reason
    case WaveOverflow => OverflowTerms(plan, i);
    case BadCapability => CapabilityFaultTells(plan, i);
    case DuplicateStep =>
      var k :| 0 <= k < i && Ids(plan.steps[..i])[k] == plan.steps[i].stepId;
      assert plan.steps[k].stepId == plan.steps[i].stepId;
    case _ =>
  }

  lemma LateTells(plan: Plan, i: nat, j: nat)
    requires ReachedDependency(plan, i, j) && KnownDependency(plan, i, j) && !EarlierWave(plan, i, j)
    ensures Tells(plan, LateDependency(i, j))
  {
    var d := plan.steps[i].dependsOn[j];
    var k :| 0 <= k < |plan.steps| && plan.steps[k] == StepMapOf(plan.steps)[d];
    assert StepOk(plan, plan.steps[i]) && StepOk(plan, plan.steps[k]);
    WaveOrder(plan.steps[k], plan.steps[i]);
  }

  lemma UnknownTells(plan: Plan, i: nat, j: nat)
    requires i < |plan.steps| && j < |plan.steps[i].dependsOn| && !KnownDependency(plan, i, j)
    ensures Tells(plan, UnknownDependency(i, j))
  {
    var ids := Ids(plan.steps);
    forall k | 0 <= k < |plan.steps| ensures plan.steps[k].stepId != plan.steps[i].dependsOn[j] { assert ids[k] in ids; }
  }

  /** A refusal says what is wrong with the plan. */
  lemma FaultTells(plan: Plan, fault: Fault)
    requires FaultHolds(plan, fault)
    ensures Tells(plan, fault)
  {
    BlankIsUnwritten(plan.planId);
    BlankIsUnwritten(plan.runId);
    match fault
    case BadStep(i, reason) => StepFaultTells(plan, i, reason);
    case BadStepCounts =>
      KindCount(plan.steps, "context");
      KindCount(plan.steps, "synthesis");
    case UnknownDependency(i, j) => UnknownTells(plan, i, j);
    case LateDependency(i, j) => LateTells(plan, i, j);
    case Cyclic =>
      assert plan.steps[..|plan.steps|] == plan.steps;
      AcyclicTerms(plan);
    case _ =>
  }
}
