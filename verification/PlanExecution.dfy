/** What acceptance of a plan promises to its executor: progress, completion and wave order. */
module PlanExecution {
  import opened Graphs
  import opened Envelope
  import opened ResearchPlan
  import Strings

  ghost function Elements(s: seq<string>): set<string> {
    set x | x in s
  }

  /** Step id may start: it is unfinished and all its dependencies are finished. */
  ghost predicate Ready(steps: StepMap, finished: set<string>, id: string) {
    id in steps && id !in finished && forall d :: d in steps[id].dependsOn ==> d in finished
  }

  ghost predicate Stuck(steps: StepMap, finished: set<string>) {
    forall id :: !Ready(steps, finished, id)
  }

  /** A sequential execution: each entry may start when its turn comes. */
  ghost predicate IsRun(steps: StepMap, run: seq<string>) {
    forall i :: 0 <= i < |run| ==> Ready(steps, Elements(run[..i]), run[i])
  }

  /** The part of acceptance that progress rests on. */
  ghost predicate Schedulable(steps: StepMap) {
    && (forall id, d :: id in steps && d in steps[id].dependsOn ==> d in steps)
    && !HasCycle(DependencyEdges(steps))
  }

  lemma AcceptedDependencyKnown(plan: Plan, id: string, d: string)
    requires Accepted(plan) && id in StepMapOf(plan.steps) && d in StepMapOf(plan.steps)[id].dependsOn
    ensures var steps := StepMapOf(plan.steps);
      && d in steps
      && (steps[id].kind == "context" && steps[d].kind == "context" ==> EffectiveWave(steps[d].wave) < EffectiveWave(steps[id].wave))
  {
    var i :| 0 <= i < |plan.steps| && plan.steps[i] == StepMapOf(plan.steps)[id];
    var j :| 0 <= j < |plan.steps[i].dependsOn| && plan.steps[i].dependsOn[j] == d;
    assert DependencyOk(plan, i, j);
  }

  lemma AcceptedIsSchedulable(plan: Plan)
    requires Accepted(plan)
    ensures Schedulable(StepMapOf(plan.steps)) && Distinct(Ids(plan.steps))
  {
    assert plan.steps[..|plan.steps|] == plan.steps;
    var steps := StepMapOf(plan.steps);
    forall id, d | id in steps && d in steps[id].dependsOn ensures d in steps {
      AcceptedDependencyKnown(plan, id, d);
    }
  }

  // ---------------------------------------------------------------- progress and completion

  /** Whatever has been finished so far, if work is left some step may start. */
  lemma Progress(steps: StepMap, finished: set<string>) returns (id: string)
    requires Schedulable(steps) && steps.Keys - finished != {}
    ensures Ready(steps, finished, id)
  {
    id := AcyclicSetHasSink(DependencyEdges(steps), steps.Keys - finished);
    forall d | d in steps[id].dependsOn ensures d in finished {
      var j :| 0 <= j < |steps[id].dependsOn| && steps[id].dependsOn[j] == d;
      assert (id, d) in DependencyEdges(steps);
    }
  }

  lemma StuckMeansFinished(steps: StepMap, finished: set<string>)
    requires Schedulable(steps) && Stuck(steps, finished)
    ensures steps.Keys <= finished
  {
    forall x | x in steps ensures x in finished {
      if x !in finished {
        assert x in steps.Keys - finished;
        var id := Progress(steps, finished);
        assert false;
      }
    }
  }

  /** An accepted plan never deadlocks: with work left, some step may start. */
  lemma AcceptedPlanProgresses(plan: Plan, finished: set<string>)
    requires Accepted(plan)
    requires exists id :: id in Ids(plan.steps) && id !in finished
    ensures exists id :: Ready(StepMapOf(plan.steps), finished, id)
  {
    AcceptedIsSchedulable(plan);
    var x :| x in Ids(plan.steps) && x !in finished;
    assert x in StepMapOf(plan.steps).Keys - finished;
    var id := Progress(StepMapOf(plan.steps), finished);
  }

  lemma RunSnoc(steps: StepMap, run: seq<string>, id: string)
    requires IsRun(steps, run) && Ready(steps, Elements(run), id)
    ensures IsRun(steps, run + [id])
  {
    forall i | 0 <= i < |run + [id]| ensures Ready(steps, Elements((run + [id])[..i]), (run + [id])[i]) {
      assert (run + [id])[..i] == if i < |run| then run[..i] else run;
    }
  }

  lemma RunIsDistinct(steps: StepMap, run: seq<string>)
    requires IsRun(steps, run)
    ensures Distinct(run) && |run| <= |steps| && Elements(run) <= steps.Keys
  {
    forall i, j | 0 <= i < j < |run| ensures run[i] != run[j] {
      assert run[..j][i] == run[i];
      assert Ready(steps, Elements(run[..j]), run[j]);
    }
    forall id | id in run ensures id in steps {
      var i :| 0 <= i < |run| && run[i] == id;
      assert Ready(steps, Elements(run[..i]), run[i]);
    }
    DistinctWithinSet(run, steps.Keys);
    assert |steps.Keys| == |steps|;
  }

  lemma {:induction false} DistinctCount(p: seq<string>)
    requires Distinct(p)
    ensures |Elements(p)| == |p|
  {
    if p != [] {
      var n := |p| - 1;
      assert p == p[..n] + [p[n]];
      DistinctSnoc(p[..n], p[n]);
      DistinctCount(p[..n]);
      assert Elements(p) == Elements(p[..n]) + {p[n]};
    }
  }

  lemma SameElementsSameLength(p: seq<string>, q: seq<string>)
    requires Distinct(p) && Distinct(q) && Elements(p) == Elements(q)
    ensures |p| == |q|
  {
    DistinctCount(p);
    DistinctCount(q);
  }

  /** A run that cannot be continued has finished every step, each once. */
  lemma MaximalRunCompletes(plan: Plan, run: seq<string>)
    requires Accepted(plan) && IsRun(StepMapOf(plan.steps), run)
    requires Stuck(StepMapOf(plan.steps), Elements(run))
    ensures Elements(run) == StepMapOf(plan.steps).Keys && Distinct(run) && |run| == |plan.steps|
  {
    AcceptedIsSchedulable(plan);
    StuckMeansFinished(StepMapOf(plan.steps), Elements(run));
    RunIsDistinct(StepMapOf(plan.steps), run);
    assert Elements(run) == Elements(Ids(plan.steps));
    SameElementsSameLength(run, Ids(plan.steps));
  }

  /** Every partial run extends to one that finishes everything. */
  lemma {:induction false} RunExtendsToCompletion(steps: StepMap, run: seq<string>) returns (full: seq<string>)
    requires Schedulable(steps) && IsRun(steps, run)
    ensures run <= full && IsRun(steps, full) && Elements(full) == steps.Keys
    decreases |steps| - |run|
  {
    RunIsDistinct(steps, run);
    if steps.Keys <= Elements(run) {
      full := run;
    } else {
      var x :| x in steps.Keys && x !in Elements(run);
      assert x in steps.Keys - Elements(run);
      var id := Progress(steps, Elements(run));
      RunSnoc(steps, run, id);
      RunIsDistinct(steps, run + [id]);
      full := RunExtendsToCompletion(steps, run + [id]);
    }
  }

  /** No choice of an executor is a dead end: every partial execution of an accepted plan can be finished. */
  lemma AcceptedRunsComplete(plan: Plan, run: seq<string>)
    requires Accepted(plan) && IsRun(StepMapOf(plan.steps), run)
    ensures exists full :: run <= full && IsRun(StepMapOf(plan.steps), full) && Elements(full) == StepMapOf(plan.steps).Keys
  {
    AcceptedIsSchedulable(plan);
    var full := RunExtendsToCompletion(StepMapOf(plan.steps), run);
  }

  // ---------------------------------------------------------------- waves

  ghost predicate IsContext(m: StepMap, id: string) {
    id in m && m[id].kind == "context"
  }

  ghost function WaveOf(m: StepMap, id: string): int {
    if id in m then EffectiveWave(m[id].wave) else 0
  }

  ghost predicate InWave(m: StepMap, id: string, wave: int) {
    IsContext(m, id) && WaveOf(m, id) == wave
  }

  /** The context steps, wave by wave. */
  function WaveSchedule(steps: seq<PlanStep>): (waves: seq<seq<string>>)
    ensures |waves| == 4 && forall w :: 0 <= w < 4 ==> waves[w] == WaveMembers(steps, w + 1)
  {
    [WaveMembers(steps, 1), WaveMembers(steps, 2), WaveMembers(steps, 3), WaveMembers(steps, 4)]
  }

  /** Wave numbers are 1 to 4, and a context step's context dependencies are in strictly earlier waves. */
  ghost predicate WavesOrdered(m: StepMap) {
    && (forall id :: IsContext(m, id) ==> 1 <= WaveOf(m, id) <= 4)
    && (forall id, d :: IsContext(m, id) && d in m[id].dependsOn && IsContext(m, d) ==> WaveOf(m, d) < WaveOf(m, id))
  }

  /** waves[w] lists each context step of wave w + 1 once, and nothing else. */
  ghost predicate WaveTable(m: StepMap, waves: seq<seq<string>>) {
    && (forall w, id :: 0 <= w < |waves| ==> (id in waves[w] <==> InWave(m, id, w + 1)))
    && (forall w :: 0 <= w < |waves| ==> Distinct(waves[w]))
  }

  lemma AcceptedWavesOrdered(plan: Plan)
    requires Accepted(plan)
    ensures WavesOrdered(StepMapOf(plan.steps))
  {
    var m := StepMapOf(plan.steps);
    forall id | IsContext(m, id) ensures 1 <= WaveOf(m, id) <= 4 {
      var i :| 0 <= i < |plan.steps| && plan.steps[i] == m[id];
      assert StepOk(plan, plan.steps[i]);
    }
    forall id, d | IsContext(m, id) && d in m[id].dependsOn && IsContext(m, d) ensures WaveOf(m, d) < WaveOf(m, id) {
      AcceptedDependencyKnown(plan, id, d);
    }
  }

  /** Membership in a wave is decided by the step with that id. */
  lemma WaveMembership(steps: seq<PlanStep>, id: string, wave: int)
    requires Distinct(Ids(steps))
    ensures id in WaveMembers(steps, wave) <==> InWave(StepMapOf(steps), id, wave)
  {
    if id in WaveMembers(steps, wave) { MemberIsInWave(steps, id, wave); }
    if InWave(StepMapOf(steps), id, wave) { InWaveIsMember(steps, id, wave); }
  }

  lemma MemberIsInWave(steps: seq<PlanStep>, id: string, wave: int)
    requires Distinct(Ids(steps)) && id in WaveMembers(steps, wave)
    ensures InWave(StepMapOf(steps), id, wave)
  {
    var i :| 0 <= i < |steps| && steps[i].stepId == id && steps[i].kind == "context" && EffectiveWave(steps[i].wave) == wave;
    assert Ids(steps)[i] == id && StepMapOf(steps)[steps[i].stepId] == steps[i];
  }

  lemma InWaveIsMember(steps: seq<PlanStep>, id: string, wave: int)
    requires InWave(StepMapOf(steps), id, wave)
    ensures id in WaveMembers(steps, wave)
  {
    var i :| 0 <= i < |steps| && steps[i] == StepMapOf(steps)[id];
  }

  lemma {:induction false} WaveMembersDistinct(steps: seq<PlanStep>, wave: int)
    requires Distinct(Ids(steps))
    ensures Distinct(WaveMembers(steps, wave))
  {
    if steps != [] {
      var n := |steps| - 1;
      assert Ids(steps) == Ids(steps[..n]) + [steps[n].stepId];
      DistinctSnoc(Ids(steps[..n]), steps[n].stepId);
      WaveMembersDistinct(steps[..n], wave);
      assert forall i :: 0 <= i < n ==> Ids(steps[..n])[i] != steps[n].stepId;
      DistinctSnoc(WaveMembers(steps[..n], wave), steps[n].stepId);
    }
  }

  lemma ScheduleIsWaveTable(steps: seq<PlanStep>)
    requires Distinct(Ids(steps))
    ensures WaveTable(StepMapOf(steps), WaveSchedule(steps))
  {
    forall w, id | 0 <= w < 4 ensures id in WaveSchedule(steps)[w] <==> InWave(StepMapOf(steps), id, w + 1) {
      WaveMembership(steps, id, w + 1);
    }
    forall w | 0 <= w < 4 ensures Distinct(WaveSchedule(steps)[w]) { WaveMembersDistinct(steps, w + 1); }
  }

  /**
   * Wave-by-wave execution of an accepted plan: four waves, none wider than the declared
   * parallelism, every context step once and only in its own wave, and the context dependencies of
   * a context step in strictly earlier waves.
   */
  lemma WaveScheduleSound(plan: Plan)
    requires Accepted(plan)
    ensures forall w :: 0 <= w < 4 ==> |WaveSchedule(plan.steps)[w]| <= plan.maxParallelSpecialists
    ensures WaveTable(StepMapOf(plan.steps), WaveSchedule(plan.steps)) && WavesOrdered(StepMapOf(plan.steps))
  {
    AcceptedIsSchedulable(plan);
    AcceptedWavesOrdered(plan);
    ScheduleIsWaveTable(plan.steps);
    assert plan.steps[..|plan.steps|] == plan.steps;
    assert WavesFit(plan, plan.steps);
  }

  /** Every context step depends on context steps only. */
  ghost predicate ContextSelfContained(m: StepMap) {
    forall id, d :: IsContext(m, id) && d in m[id].dependsOn ==> IsContext(m, d)
  }

  /** The first n waves, one after the other. */
  function Flatten(waves: seq<seq<string>>, n: nat): seq<string>
    requires n <= |waves|
  {
    if n == 0 then [] else Flatten(waves, n - 1) + waves[n - 1]
  }

  lemma {:induction false} FlattenMembers(m: StepMap, waves: seq<seq<string>>, n: nat, id: string)
    requires WaveTable(m, waves) && WavesOrdered(m) && n <= |waves|
    ensures id in Flatten(waves, n) <==> IsContext(m, id) && WaveOf(m, id) <= n
  {
    if n > 0 {
      FlattenMembers(m, waves, n - 1, id);
      assert id in waves[n - 1] <==> InWave(m, id, n - 1 + 1);
    }
  }

  /** Each entry of `wave` may start once `before` and the earlier entries are finished. */
  ghost predicate ReadyInTurn(m: StepMap, before: seq<string>, wave: seq<string>) {
    forall k :: 0 <= k < |wave| ==> Ready(m, Elements(before + wave[..k]), wave[k])
  }

  lemma WaveReadyInTurn(m: StepMap, waves: seq<seq<string>>, n: nat)
    requires WaveTable(m, waves) && WavesOrdered(m) && ContextSelfContained(m) && n < |waves|
    ensures ReadyInTurn(m, Flatten(waves, n), waves[n])
  {
    var before, wave := Flatten(waves, n), waves[n];
    forall k | 0 <= k < |wave| ensures Ready(m, Elements(before + wave[..k]), wave[k]) {
      var id := wave[k];
      assert id in wave && InWave(m, id, n + 1);
      FlattenMembers(m, waves, n, id);
      assert id !in wave[..k];
      forall d | d in m[id].dependsOn ensures d in before + wave[..k] {
        assert IsContext(m, d);
        FlattenMembers(m, waves, n, d);
      }
    }
  }

  lemma {:induction false} AppendingReadyStepsIsRun(m: StepMap, before: seq<string>, wave: seq<string>)
    requires IsRun(m, before) && ReadyInTurn(m, before, wave)
    ensures IsRun(m, before + wave)
  {
    if wave == [] {
      assert before + wave == before;
    } else {
      var n := |wave| - 1;
      forall k | 0 <= k < n ensures Ready(m, Elements(before + wave[..n][..k]), wave[..n][k]) {
        assert wave[..n][..k] == wave[..k];
      }
      AppendingReadyStepsIsRun(m, before, wave[..n]);
      assert Ready(m, Elements(before + wave[..n]), wave[n]);
      RunSnoc(m, before + wave[..n], wave[n]);
      assert before + wave == before + wave[..n] + [wave[n]];
    }
  }

  lemma {:induction false} FlattenIsRun(m: StepMap, waves: seq<seq<string>>, n: nat)
    requires WaveTable(m, waves) && WavesOrdered(m) && ContextSelfContained(m) && n <= |waves|
    ensures IsRun(m, Flatten(waves, n))
  {
    if n > 0 {
      FlattenIsRun(m, waves, n - 1);
      WaveReadyInTurn(m, waves, n - 1);
      AppendingReadyStepsIsRun(m, Flatten(waves, n - 1), waves[n - 1]);
    }
  }

  lemma WaveRunIsSelfContained(m: StepMap, waves: seq<seq<string>>)
    requires WaveTable(m, waves) && WavesOrdered(m) && |waves| == 4
    requires IsRun(m, Flatten(waves, 4))
    ensures ContextSelfContained(m)
  {
    var run := Flatten(waves, 4);
    forall id, d | IsContext(m, id) && d in m[id].dependsOn ensures IsContext(m, d) {
      FlattenMembers(m, waves, 4, id);
      var i :| 0 <= i < |run| && run[i] == id;
      assert Ready(m, Elements(run[..i]), run[i]);
      assert d in run;
      FlattenMembers(m, waves, 4, d);
    }
  }

  /**
   * The validator lets a context step depend on a review or synthesis step. Wave order is a valid
   * execution order for the context steps exactly when no context step does.
   */
  lemma WaveOrderIsRunIffSelfContained(plan: Plan)
    requires Accepted(plan)
    ensures IsRun(StepMapOf(plan.steps), Flatten(WaveSchedule(plan.steps), 4)) <==> ContextSelfContained(StepMapOf(plan.steps))
  {
    var m, waves := StepMapOf(plan.steps), WaveSchedule(plan.steps);
    WaveScheduleSound(plan);
    if ContextSelfContained(m) { FlattenIsRun(m, waves, 4); }
    if IsRun(m, Flatten(waves, 4)) { WaveRunIsSelfContained(m, waves); }
  }

  // ---------------------------------------------------------------- an accepted plan whose waves are no execution

  /** A step with one character of prose and the smallest budgets. */
  function Step(id: string, kind: string, wave: int, dependsOn: seq<string>): PlanStep {
    PlanStep(id, kind, wave, "o", "r", [], dependsOn, 1, 1)
  }

  /** A review, a context step that depends on it, and the synthesis. */
  function ReviewFirst(): Plan {
    Plan(SCHEMA_VERSION_V1, "p", "r", "q",
         [Step("review", "review", 0, []), Step("context", "context", 1, ["review"]), Step("synthesis", "synthesis", 0, ["context"])],
         1, 0, 1)
  }

  lemma SimpleStepOk(plan: Plan, id: string, kind: string, wave: int, dependsOn: seq<string>)
    requires id != "" && plan.deadlineMs >= 1 && kind in {"review", "context", "synthesis"} && (kind == "context" ==> 1 <= wave <= 4)
    ensures StepOk(plan, Step(id, kind, wave, dependsOn))
  {
  }

  lemma {:induction false} WaveWithinCount(steps: seq<PlanStep>, wave: int)
    ensures |WaveMembers(steps, wave)| <= CountKind(steps, "context")
  {
    if steps != [] { WaveWithinCount(steps[..|steps| - 1], wave); }
  }

  function OfKind(step: PlanStep, kind: string): nat {
    if step.kind == kind then 1 else 0
  }

  lemma CountOfThree(steps: seq<PlanStep>, kind: string)
    requires |steps| == 3
    ensures CountKind(steps, kind) == OfKind(steps[0], kind) + OfKind(steps[1], kind) + OfKind(steps[2], kind)
  {
    var two, one := steps[..2], steps[..1];
    assert two[..1] == one && two[1] == steps[1] && one[0] == steps[0];
    assert CountKind(one, kind) == CountKind(one[..0], kind) + OfKind(one[0], kind);
    assert CountKind(two, kind) == CountKind(one, kind) + OfKind(two[1], kind);
  }

  lemma ReviewFirstCounts()
    ensures CountKind(ReviewFirst().steps, "context") == 1 && CountKind(ReviewFirst().steps, "synthesis") == 1
  {
    var steps := ReviewFirst().steps;
    assert "review" != "context" && "review" != "synthesis" && "context" != "synthesis";
    CountOfThree(steps, "context");
    CountOfThree(steps, "synthesis");
  }

  lemma ThreeDistinct(steps: seq<PlanStep>)
    requires |steps| == 3
    requires steps[0].stepId != steps[1].stepId && steps[0].stepId != steps[2].stepId && steps[1].stepId != steps[2].stepId
    ensures Distinct(Ids(steps))
  {
  }

  lemma ReviewFirstDistinct()
    ensures Distinct(Ids(ReviewFirst().steps))
  {
    assert "review" != "context" && "review" != "synthesis" && "context" != "synthesis";
    ThreeDistinct(ReviewFirst().steps);
  }

  lemma ReviewFirstSound()
    ensures PrefixOk(ReviewFirst(), 3)
  {
    var plan := ReviewFirst();
    SimpleStepOk(plan, "review", "review", 0, []);
    SimpleStepOk(plan, "context", "context", 1, ["review"]);
    SimpleStepOk(plan, "synthesis", "synthesis", 0, ["context"]);
    assert plan.steps[..3] == plan.steps;
    ReviewFirstDistinct();
    ReviewFirstCounts();
    forall wave ensures |WaveMembers(plan.steps, wave)| <= plan.maxParallelSpecialists { WaveWithinCount(plan.steps, wave); }
  }

  /** How late a step of that plan comes. */
  function Lateness(id: string): real {
    if id == "synthesis" then 2.0 else if id == "context" then 1.0 else 0.0
  }

  lemma ReviewFirstAcyclic()
    ensures !HasCycle(DependencyEdges(StepMapOf(ReviewFirst().steps)))
  {
    var m := StepMapOf(ReviewFirst().steps);
    forall a, b | (a, b) in DependencyEdges(m) ensures Lateness(a) > Lateness(b) {
      DependencyEdge(m, a, b);
      assert m[a] in ReviewFirst().steps;
    }
    DescendingEdgesHaveNoCycle(DependencyEdges(m), id => Lateness(id));
  }

  lemma ReviewFirstSteps()
    ensures var plan := ReviewFirst(); var m := StepMapOf(plan.steps);
      && "review" in m && "context" in m && "synthesis" in m
      && m["review"] == plan.steps[0] && m["context"] == plan.steps[1] && m["synthesis"] == plan.steps[2]
  {
    var plan := ReviewFirst();
    ReviewFirstDistinct();
    assert plan.steps[0].stepId == "review" && plan.steps[1].stepId == "context" && plan.steps[2].stepId == "synthesis";
  }

  lemma ReviewFirstPreamble()
    ensures PreambleOk(ReviewFirst()) && CountsOk(ReviewFirst())
  {
    var plan := ReviewFirst();
    ReviewFirstCounts();
    assert !Strings.IsSpace(plan.planId[0]) && !Strings.IsSpace(plan.runId[0]);
  }

  lemma ReviewFirstDependencies()
    ensures DependenciesOk(ReviewFirst(), 3, 0)
  {
    var plan := ReviewFirst();
    ReviewFirstSteps();
    assert |plan.steps[0].dependsOn| == 0 && |plan.steps[1].dependsOn| == 1 && |plan.steps[2].dependsOn| == 1;
    KindsAllow(plan, 1, plan.steps[0]);
    KindsAllow(plan, 2, plan.steps[1]);
  }

  /** A dependency of which not both ends are context steps is in order. */
  lemma KindsAllow(plan: Plan, i: nat, dependency: PlanStep)
    requires i < |plan.steps| && |plan.steps[i].dependsOn| == 1 && plan.steps[i].dependsOn[0] in StepMapOf(plan.steps)
    requires StepMapOf(plan.steps)[plan.steps[i].dependsOn[0]] == dependency
    requires plan.steps[i].kind != "context" || dependency.kind != "context"
    ensures DependencyOk(plan, i, 0)
  {
  }

  lemma ReviewFirstAccepted()
    ensures Accepted(ReviewFirst())
  {
    ReviewFirstPreamble();
    ReviewFirstSound();
    ReviewFirstDependencies();
    ReviewFirstAcyclic();
  }

  /** The validator accepts it, and running its waves in order starts the context step before the review. */
  lemma AcceptedWavesMayNotRun()
    ensures var plan := ReviewFirst();
      && Accepted(plan) && !ContextSelfContained(StepMapOf(plan.steps))
      && !IsRun(StepMapOf(plan.steps), Flatten(WaveSchedule(plan.steps), 4))
  {
    var plan := ReviewFirst();
    ReviewFirstAccepted();
    ReviewFirstSteps();
    assert IsContext(StepMapOf(plan.steps), "context") && !IsContext(StepMapOf(plan.steps), "review");
    assert "review" in StepMapOf(plan.steps)["context"].dependsOn;
    WaveOrderIsRunIffSelfContained(plan);
  }
}
