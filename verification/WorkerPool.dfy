/**
 * runCases as a transition system: a sending loop, an unbuffered channel and a pool of workers
 * that write results by job index. Every interleaving is a sequence of Step.
 */
module WorkerPool {

  /** What matters of the arguments: the numbers of cases and repetitions, and the concurrency flag. */
  datatype Config = Config(cases: nat, repetitions: nat, concurrency: int)

  datatype Job = Job(index: int, caseIndex: nat, repetition: nat)

  datatype Worker = Idle | Running(job: Job) | Exited

  /** What a call of runCase returned, with the case and repetition it was called with. */
  datatype Observation = Observation(caseIndex: nat, repetition: nat, outcome: int)

  datatype Slot = Zero | Written(observation: Observation)

  /**
   * (repetition, caseIndex) is the position of the nested sending loops. A panic of wait.Add ends the call
   * before any worker is started.
   */
  datatype State = State(
    panicked: bool, repetition: nat, caseIndex: nat, closed: bool, workers: seq<Worker>, observations: seq<Slot>, writes: seq<nat>)

  function Jobs(c: Config): nat { c.cases * c.repetitions }

  function Min(a: int, b: int): int { if a < b then a else b }

  /** The goroutines that are started: none when wait.Add is given a negative count. */
  function WorkerCount(c: Config): nat {
    var n := Min(c.concurrency, Jobs(c));
    if n < 0 then 0 else n
  }

  function Initial(c: Config): State {
    State(Min(c.concurrency, Jobs(c)) < 0, 0, 0, false, seq(WorkerCount(c), _ => Idle), seq(Jobs(c), _ => Zero), seq(Jobs(c), _ => 0))
  }

  /** The sending loops are done. */
  predicate Sent(c: Config, s: State) {
    s.repetition >= c.repetitions || c.cases == 0
  }

  function NextJob(c: Config, s: State): Job {
    Job(s.repetition * c.cases + s.caseIndex, s.caseIndex, s.repetition)
  }

  /** A rendezvous on the unbuffered channel: the sender's next job goes to an idle worker. */
  predicate Send(c: Config, s: State, w: nat, t: State) {
    && !Sent(c, s) && w < |s.workers| && s.workers[w] == Idle
    && t == s.(repetition := if s.caseIndex + 1 < c.cases then s.repetition else s.repetition + 1,
               caseIndex := if s.caseIndex + 1 < c.cases then s.caseIndex + 1 else 0,
               workers := s.workers[w := Running(NextJob(c, s))])
  }

  /** runCase returns with some outcome and the worker stores it by job index. */
  predicate Finish(s: State, w: nat, outcome: int, t: State) {
    && w < |s.workers| && s.workers[w].Running?
    && var job := s.workers[w].job;
    && 0 <= job.index < |s.observations| == |s.writes|
    && t == s.(workers := s.workers[w := Idle],
               observations := s.observations[job.index := Written(Observation(job.caseIndex, job.repetition, outcome))],
               writes := s.writes[job.index := s.writes[job.index] + 1])
  }

  predicate Close(c: Config, s: State, t: State) {
    Sent(c, s) && !s.closed && t == s.(closed := true)
  }

  /** The range loop of an idle worker ends once the channel is closed. */
  predicate Exit(s: State, w: nat, t: State) {
    s.closed && w < |s.workers| && s.workers[w] == Idle && t == s.(workers := s.workers[w := Exited])
  }

  ghost predicate Step(c: Config, s: State, t: State) {
    && !s.panicked
    && (|| (exists w: nat :: Send(c, s, w, t))
        || (exists w: nat, outcome: int :: Finish(s, w, outcome, t))
        || Close(c, s, t)
        || (exists w: nat :: Exit(s, w, t)))
  }

  /** wait.Wait() returns: the channel is closed and every worker is gone. */
  predicate Returned(s: State) {
    !s.panicked && s.closed && forall w :: 0 <= w < |s.workers| ==> s.workers[w] == Exited
  }

  ghost predicate Stuck(c: Config, s: State) {
    forall t :: !Step(c, s, t)
  }

  ghost predicate IsExecution(c: Config, run: seq<State>) {
    run != [] && run[0] == Initial(c) && forall i :: 0 <= i < |run| - 1 ==> Step(c, run[i], run[i + 1])
  }

  // ---------------------------------------------------------------- the invariant

  /** Index of the next job; jobs below it have been handed out. */
  function Cursor(c: Config, s: State): nat { s.repetition * c.cases + s.caseIndex }

  /** Job i runs case i mod n in repetition i div n. */
  function JobAt(c: Config, i: nat): Job
    requires c.cases > 0
  {
    Job(i, i % c.cases, i / c.cases)
  }

  ghost predicate Holds(s: State, w: nat, i: nat) {
    w < |s.workers| && s.workers[w].Running? && s.workers[w].job.index == i
  }

  ghost predicate SlotDone(c: Config, s: State, i: nat) {
    && i < |s.observations| && i < |s.writes| && c.cases > 0
    && s.writes[i] == 1 && s.observations[i].Written?
    && s.observations[i].observation.caseIndex == i % c.cases && s.observations[i].observation.repetition == i / c.cases
  }

  ghost predicate SlotUntouched(s: State, i: nat) {
    i < |s.observations| && i < |s.writes| && s.writes[i] == 0 && s.observations[i] == Zero
  }

  ghost predicate InFlight(s: State, i: nat) {
    exists w: nat :: Holds(s, w, i)
  }

  /** A slot is untouched until its job has finished, and right from then on. */
  ghost predicate SlotOk(c: Config, s: State, i: nat) {
    if i >= Cursor(c, s) || InFlight(s, i) then SlotUntouched(s, i) else SlotDone(c, s, i)
  }

  ghost predicate PositionOk(c: Config, s: State) {
    && (c.cases > 0 ==> s.caseIndex < c.cases)
    && s.repetition <= c.repetitions && (s.repetition == c.repetitions ==> s.caseIndex == 0)
    && (c.cases == 0 ==> s.caseIndex == 0)
  }

  ghost predicate Invariant(c: Config, s: State) {
    && PositionOk(c, s)
    && (s.panicked <==> c.concurrency < 0) && (s.panicked ==> !s.closed)
    && |s.workers| == WorkerCount(c) && |s.observations| == Jobs(c) && |s.writes| == Jobs(c)
    && (s.closed ==> Sent(c, s))
    && (forall w: nat :: w < |s.workers| && s.workers[w] == Exited ==> s.closed)
    && (forall w: nat :: w < |s.workers| && s.workers[w].Running? ==>
          c.cases > 0 && 0 <= s.workers[w].job.index < Cursor(c, s) && s.workers[w].job == JobAt(c, s.workers[w].job.index))
    && (forall v: nat, w: nat, i: nat :: Holds(s, v, i) && Holds(s, w, i) ==> v == w)
    && (forall i: nat :: i < Jobs(c) ==> SlotOk(c, s, i))
  }

  lemma ProductStep(n: nat, k: nat)
    ensures (k + 1) * n == k * n + n
  {
  }

  lemma {:induction false} ProductMonotone(n: nat, k: nat, m: nat)
    requires k < m
    ensures k * n + n <= m * n
  {
    assert m * n == (m - 1) * n + n;
    if k < m - 1 { ProductMonotone(n, k, m - 1); }
  }

  lemma JobPosition(n: nat, r: nat, k: nat)
    requires k < n
    ensures (r * n + k) / n == r && (r * n + k) % n == k
  {
    var q, m := (r * n + k) / n, (r * n + k) % n;
    assert q * n + m == r * n + k;
    if q < r { ProductMonotone(n, q, r); }
    if r < q { ProductMonotone(n, r, q); }
  }

  /** While the loops run, the next job is job number Cursor; sending it advances Cursor by one. */
  lemma NextJobIsAtCursor(c: Config, s: State)
    requires PositionOk(c, s) && !Sent(c, s)
    ensures Cursor(c, s) < Jobs(c) && NextJob(c, s) == JobAt(c, Cursor(c, s))
  {
    ProductMonotone(c.cases, s.repetition, c.repetitions);
    JobPosition(c.cases, s.repetition, s.caseIndex);
  }

  lemma SentIsCursorAtEnd(c: Config, s: State)
    requires PositionOk(c, s)
    ensures Sent(c, s) <==> Cursor(c, s) == Jobs(c)
    ensures Cursor(c, s) <= Jobs(c)
  {
    if !Sent(c, s) { NextJobIsAtCursor(c, s); }
  }

  lemma SendAdvances(c: Config, s: State, w: nat, t: State)
    requires PositionOk(c, s) && Send(c, s, w, t)
    ensures PositionOk(c, t) && Cursor(c, t) == Cursor(c, s) + 1
  {
    ProductStep(c.cases, s.repetition);
  }

  lemma InitialInvariant(c: Config)
    ensures Invariant(c, Initial(c))
  {
  }

  lemma SendInvariant(c: Config, s: State, w: nat, t: State)
    requires Invariant(c, s) && !s.panicked && Send(c, s, w, t)
    ensures Invariant(c, t)
  {
    SendAdvances(c, s, w, t);
    NextJobIsAtCursor(c, s);
    var k := Cursor(c, s);
    assert Holds(t, w, k);
    assert forall i: nat :: Holds(t, w, i) ==> i == k;
    assert forall v: nat, i: nat :: v != w ==> (Holds(t, v, i) <==> Holds(s, v, i));
    assert forall i: nat :: !Holds(s, w, i);
    forall i: nat | i < Jobs(c) ensures SlotOk(c, t, i) {
      assert SlotOk(c, s, i);
      if InFlight(s, i) {
        var v: nat :| Holds(s, v, i);
        assert Holds(t, v, i);
      }
    }
  }

  lemma FinishInvariant(c: Config, s: State, w: nat, outcome: int, t: State)
    requires Invariant(c, s) && !s.panicked && Finish(s, w, outcome, t)
    ensures Invariant(c, t)
  {
    var k: nat := s.workers[w].job.index;
    assert Holds(s, w, k);
    assert s.workers[w].job == JobAt(c, k);
    assert forall v: nat, i: nat :: Holds(t, v, i) <==> Holds(s, v, i) && v != w;
    assert !InFlight(t, k);
    forall i: nat | i < Jobs(c) ensures SlotOk(c, t, i) {
      assert SlotOk(c, s, i);
      if i != k && InFlight(s, i) {
        var v: nat :| Holds(s, v, i);
        assert Holds(t, v, i);
      }
    }
  }

  /** Closing the channel or leaving it moves no job. */
  lemma QuietStepInvariant(c: Config, s: State, t: State)
    requires Invariant(c, s) && !s.panicked
    requires Close(c, s, t) || exists w: nat :: Exit(s, w, t)
    ensures Invariant(c, t)
  {
    assert forall v: nat, i: nat :: Holds(t, v, i) <==> Holds(s, v, i);
    forall i: nat | i < Jobs(c) ensures SlotOk(c, t, i) {
      assert SlotOk(c, s, i);
    }
  }

  lemma StepInvariant(c: Config, s: State, t: State)
    requires Invariant(c, s) && Step(c, s, t)
    ensures Invariant(c, t)
  {
    if w: nat :| Send(c, s, w, t) { SendInvariant(c, s, w, t); }
    else if w: nat, outcome: int :| Finish(s, w, outcome, t) { FinishInvariant(c, s, w, outcome, t); }
    else { QuietStepInvariant(c, s, t); }
  }

  // ---------------------------------------------------------------- progress and termination

  function CountRunning(workers: seq<Worker>): nat {
    if workers == [] then 0 else CountRunning(workers[..|workers| - 1]) + if workers[|workers| - 1].Running? then 1 else 0
  }

  function CountLive(workers: seq<Worker>): nat {
    if workers == [] then 0 else CountLive(workers[..|workers| - 1]) + if workers[|workers| - 1].Exited? then 0 else 1
  }

  lemma {:induction false} CountsUpdate(workers: seq<Worker>, w: nat, x: Worker)
    requires w < |workers|
    ensures CountRunning(workers[w := x]) ==
      CountRunning(workers) + (if x.Running? then 1 else 0) - if workers[w].Running? then 1 else 0
    ensures CountLive(workers[w := x]) ==
      CountLive(workers) + (if x.Exited? then 0 else 1) - if workers[w].Exited? then 0 else 1
  {
    var n := |workers| - 1;
    if w < n {
      CountsUpdate(workers[..n], w, x);
      assert workers[w := x][..n] == workers[..n][w := x];
    } else {
      assert workers[w := x][..n] == workers[..n];
    }
  }

  lemma {:induction false} CountsBounds(workers: seq<Worker>)
    ensures CountRunning(workers) <= CountLive(workers) <= |workers|
    ensures CountLive(workers) == 0 <==> forall w :: 0 <= w < |workers| ==> workers[w].Exited?
    ensures (forall w :: 0 <= w < |workers| ==> workers[w] == Idle) ==> CountRunning(workers) == 0 && CountLive(workers) == |workers|
  {
    if workers != [] {
      CountsBounds(workers[..|workers| - 1]);
    }
  }

  /** Steps still to be taken: two per unsent job, one per running case, one to close, one exit per live worker. */
  function Remaining(c: Config, s: State): int {
    2 * (Jobs(c) - Cursor(c, s)) + CountRunning(s.workers) + CountLive(s.workers) + if s.closed then 0 else 1
  }

  lemma StepCountsDown(c: Config, s: State, t: State)
    requires Invariant(c, s) && Step(c, s, t)
    ensures Remaining(c, t) == Remaining(c, s) - 1
  {
    if w: nat :| Send(c, s, w, t) {
      SendAdvances(c, s, w, t);
      CountsUpdate(s.workers, w, Running(NextJob(c, s)));
    } else if w: nat, outcome: int :| Finish(s, w, outcome, t) {
      CountsUpdate(s.workers, w, Idle);
    } else if Close(c, s, t) {
    } else {
      var w: nat :| Exit(s, w, t);
      CountsUpdate(s.workers, w, Exited);
    }
  }

  /** Returned means exactly that no steps remain. */
  lemma ReturnedIffNothingRemains(c: Config, s: State)
    requires Invariant(c, s)
    ensures Remaining(c, s) >= 0
    ensures Returned(s) <==> Remaining(c, s) == 0
  {
    SentIsCursorAtEnd(c, s);
    CountsBounds(s.workers);
  }

  /** At least one worker is asked for, or there is nothing to do and none is. */
  predicate Sufficient(c: Config) {
    c.concurrency >= 1 || (c.concurrency == 0 && Jobs(c) == 0)
  }

  /** Unless it has returned, the system can step: no interleaving deadlocks. */
  lemma NoDeadlock(c: Config, s: State) returns (t: State)
    requires Invariant(c, s) && !Returned(s) && Sufficient(c)
    ensures Step(c, s, t)
  {
    if w: nat :| w < |s.workers| && s.workers[w].Running? {
      t := FinishEnabled(c, s, w);
    } else if s.closed {
      var w: nat :| w < |s.workers| && s.workers[w] != Exited;
      t := s.(workers := s.workers[w := Exited]);
      assert Exit(s, w, t);
    } else if Sent(c, s) {
      t := s.(closed := true);
      assert Close(c, s, t);
    } else {
      NextJobIsAtCursor(c, s);
      assert s.workers[0] == Idle;
      t := s.(repetition := if s.caseIndex + 1 < c.cases then s.repetition else s.repetition + 1,
              caseIndex := if s.caseIndex + 1 < c.cases then s.caseIndex + 1 else 0,
              workers := s.workers[0 := Running(NextJob(c, s))]);
      assert Send(c, s, 0, t);
    }
  }

  lemma FinishEnabled(c: Config, s: State, w: nat) returns (t: State)
    requires Invariant(c, s) && !s.panicked && w < |s.workers| && s.workers[w].Running?
    ensures Step(c, s, t)
  {
    var job := s.workers[w].job;
    SentIsCursorAtEnd(c, s);
    t := s.(workers := s.workers[w := Idle],
            observations := s.observations[job.index := Written(Observation(job.caseIndex, job.repetition, 0))],
            writes := s.writes[job.index := s.writes[job.index] + 1]);
    assert Finish(s, w, 0, t);
  }

  /** With jobs to do and no worker, the sender blocks at once: the flag check in main is needed. */
  lemma NoWorkersDeadlocks(c: Config)
    requires c.concurrency == 0 && Jobs(c) > 0
    ensures !Initial(c).panicked && !Returned(Initial(c)) && Stuck(c, Initial(c))
  {
    assert Initial(c).workers == [];
    NextJobIsAtCursor(c, Initial(c));
  }

  /** With a negative concurrency the call panics before it starts a worker or sends a job. */
  lemma NegativeConcurrencyPanics(c: Config)
    ensures Initial(c).panicked <==> c.concurrency < 0
    ensures c.concurrency < 0 ==> !Returned(Initial(c)) && Stuck(c, Initial(c))
  {
  }

  // ---------------------------------------------------------------- whole executions

  lemma {:induction false} ExecutionInvariant(c: Config, run: seq<State>, i: nat)
    requires IsExecution(c, run) && i < |run|
    ensures Invariant(c, run[i]) && Remaining(c, run[i]) == Remaining(c, run[0]) - i
  {
    if i == 0 {
      InitialInvariant(c);
    } else {
      ExecutionInvariant(c, run, i - 1);
      assert Step(c, run[i - 1], run[i - 1 + 1]);
      StepInvariant(c, run[i - 1], run[i]);
      StepCountsDown(c, run[i - 1], run[i]);
    }
  }

  /** At every moment of every interleaving: bounded concurrency and no slot written twice. */
  lemma ExecutionIsBounded(c: Config, run: seq<State>, i: nat)
    requires IsExecution(c, run) && i < |run|
    ensures CountRunning(run[i].workers) <= WorkerCount(c)
    ensures c.concurrency >= 0 ==> CountRunning(run[i].workers) <= c.concurrency && CountRunning(run[i].workers) <= c.cases * c.repetitions
    ensures c.concurrency < 0 ==> CountRunning(run[i].workers) == 0
    ensures forall k :: 0 <= k < |run[i].writes| ==> run[i].writes[k] <= 1
  {
    ExecutionInvariant(c, run, i);
    CountsBounds(run[i].workers);
    forall k | 0 <= k < |run[i].writes| ensures run[i].writes[k] <= 1 {
      assert SlotOk(c, run[i], k);
    }
  }

  ghost predicate IsMaximal(c: Config, run: seq<State>) {
    IsExecution(c, run) && Stuck(c, run[|run| - 1])
  }

  /**
   * Every execution that cannot be continued has returned, after exactly two steps per job, one per
   * worker and one for the channel, with every slot written once by the right case and repetition.
   */
  lemma MaximalExecutionCompletes(c: Config, run: seq<State>)
    requires IsMaximal(c, run) && Sufficient(c)
    ensures var last := run[|run| - 1];
      && Returned(last) && |run| == 2 * Jobs(c) + WorkerCount(c) + 2
      && |last.observations| == Jobs(c)
      && forall i: nat :: i < Jobs(c) ==> SlotDone(c, last, i)
  {
    var last := run[|run| - 1];
    ExecutionInvariant(c, run, |run| - 1);
    if !Returned(last) {
      var t := NoDeadlock(c, last);
      assert false;
    }
    ReturnedIffNothingRemains(c, last);
    CountsBounds(run[0].workers);
    SentIsCursorAtEnd(c, last);
    forall i: nat | i < Jobs(c) ensures SlotDone(c, last, i) {
      assert SlotOk(c, last, i);
    }
  }

  /** No execution goes on for longer than that. */
  lemma ExecutionsAreFinite(c: Config, run: seq<State>)
    requires IsExecution(c, run)
    ensures |run| <= 2 * Jobs(c) + WorkerCount(c) + 2
  {
    ExecutionInvariant(c, run, |run| - 1);
    ReturnedIffNothingRemains(c, run[|run| - 1]);
    CountsBounds(run[0].workers);
  }

  /** Every interleaving returns exactly when enough workers are asked for; otherwise the very first state is the last. */
  lemma ReturnsIffSufficient(c: Config)
    ensures (forall run :: IsMaximal(c, run) ==> Returned(run[|run| - 1])) <==> Sufficient(c)
  {
    if Sufficient(c) {
      forall run | IsMaximal(c, run) ensures Returned(run[|run| - 1]) {
        MaximalExecutionCompletes(c, run);
      }
    } else {
      NegativeConcurrencyPanics(c);
      if c.concurrency == 0 { NoWorkersDeadlocks(c); }
      assert IsMaximal(c, [Initial(c)]);
    }
  }

  // ---------------------------------------------------------------- what the slots hold

  /** At step i of the run a worker's runCase for job j returned with this outcome. */
  ghost predicate ReturnedAt(c: Config, run: seq<State>, i: nat, j: nat, outcome: int)
    requires i + 1 < |run| && c.cases > 0
  {
    exists w: nat :: Finish(run[i], w, outcome, run[i + 1]) && run[i].workers[w].job == JobAt(c, j)
  }

  ghost predicate HoldsResult(c: Config, run: seq<State>, k: nat, j: nat) {
    k < |run| && c.cases > 0 && j < |run[k].observations| && exists i: nat, outcome ::
      i < k && ReturnedAt(c, run, i, j, outcome) && run[k].observations[j] == Written(Observation(j % c.cases, j / c.cases, outcome))
  }

  lemma ResultIsWritten(c: Config, run: seq<State>, k: nat, j: nat)
    requires IsExecution(c, run) && k + 1 < |run| && c.cases > 0 && j < Jobs(c)
    requires SlotUntouched(run[k], j) && SlotDone(c, run[k + 1], j)
    ensures HoldsResult(c, run, k + 1, j)
  {
    assert Step(c, run[k], run[k + 1]);
    ExecutionInvariant(c, run, k);
    var w: nat, outcome: int :| Finish(run[k], w, outcome, run[k + 1]);
    assert run[k].workers[w].job == JobAt(c, j);
    assert ReturnedAt(c, run, k, j, outcome);
  }

  lemma DoneStays(c: Config, s: State, t: State, j: nat)
    requires Step(c, s, t) && SlotDone(c, s, j) && SlotDone(c, t, j)
    ensures t.observations[j] == s.observations[j]
  {
  }

  /** A slot that is done holds what runCase returned for its case and repetition. */
  lemma {:induction false} DoneHoldsResult(c: Config, run: seq<State>, k: nat, j: nat)
    requires IsExecution(c, run) && k < |run| && j < Jobs(c) && SlotDone(c, run[k], j)
    ensures HoldsResult(c, run, k, j)
  {
    ExecutionInvariant(c, run, 0);
    if k > 0 {
      assert Step(c, run[k - 1], run[k - 1 + 1]);
      ExecutionInvariant(c, run, k - 1);
      assert SlotOk(c, run[k - 1], j);
      if SlotDone(c, run[k - 1], j) {
        DoneHoldsResult(c, run, k - 1, j);
        DoneStays(c, run[k - 1], run[k], j);
      } else {
        ResultIsWritten(c, run, k - 1, j);
      }
    }
  }

  /**
   * With a positive concurrency: every execution that cannot be continued ends with cases * repetitions slots, and the
   * slot of a case and a repetition holds what runCase returned for them.
   */
  lemma ResultTerms(c: Config, run: seq<State>, repetition: nat, caseIndex: nat)
    requires IsMaximal(c, run) && c.concurrency >= 1 && repetition < c.repetitions && caseIndex < c.cases
    ensures var last, j := run[|run| - 1], repetition * c.cases + caseIndex;
      && |last.observations| == c.cases * c.repetitions && j < |last.observations|
      && exists i: nat, w: nat, outcome :: i + 1 < |run| && Finish(run[i], w, outcome, run[i + 1])
           && run[i].workers[w].job == Job(j, caseIndex, repetition)
           && last.observations[j] == Written(Observation(caseIndex, repetition, outcome))
  {
    var n, j := c.cases, repetition * c.cases + caseIndex;
    MaximalExecutionCompletes(c, run);
    ProductMonotone(n, repetition, c.repetitions);
    JobPosition(n, repetition, caseIndex);
    DoneHoldsResult(c, run, |run| - 1, j);
    var i: nat, outcome :| i < |run| - 1 && ReturnedAt(c, run, i, j, outcome)
      && run[|run| - 1].observations[j] == Written(Observation(j % n, j / n, outcome));
    var w: nat :| Finish(run[i], w, outcome, run[i + 1]) && run[i].workers[w].job == JobAt(c, j);
  }

  // ---------------------------------------------------------------- the pool is as large as promised

  /** The first k jobs run, job w on worker w, and the other workers wait. */
  ghost predicate RunsFirst(c: Config, s: State, k: nat) {
    && !s.panicked && PositionOk(c, s) && Cursor(c, s) == k <= |s.workers|
    && (forall w :: 0 <= w < k ==> s.workers[w].Running? && s.workers[w].job.index == w)
    && forall w :: k <= w < |s.workers| ==> s.workers[w] == Idle
  }

  lemma SendNext(c: Config, s: State, k: nat) returns (t: State)
    requires RunsFirst(c, s, k) && k < |s.workers| && k < Jobs(c)
    ensures Step(c, s, t) && RunsFirst(c, t, k + 1) && |t.workers| == |s.workers|
  {
    SentIsCursorAtEnd(c, s);
    NextJobIsAtCursor(c, s);
    t := s.(repetition := if s.caseIndex + 1 < c.cases then s.repetition else s.repetition + 1,
            caseIndex := if s.caseIndex + 1 < c.cases then s.caseIndex + 1 else 0,
            workers := s.workers[k := Running(NextJob(c, s))]);
    assert Send(c, s, k, t);
    SendAdvances(c, s, k, t);
  }

  /** However many cases the concurrency and the jobs allow to run at once, some interleaving runs as many at once. */
  lemma {:induction false} PoolFills(c: Config, k: nat) returns (run: seq<State>)
    requires k <= c.concurrency && k <= c.cases * c.repetitions
    ensures IsExecution(c, run) && RunsFirst(c, run[|run| - 1], k) && |run[|run| - 1].workers| == WorkerCount(c)
  {
    if k == 0 {
      run := [Initial(c)];
    } else {
      var before := PoolFills(c, k - 1);
      var t := SendNext(c, before[|before| - 1], k - 1);
      run := before + [t];
      forall i | 0 <= i < |run| - 1 ensures Step(c, run[i], run[i + 1]) {
        if i < |before| - 1 { assert run[i] == before[i] && run[i + 1] == before[i + 1]; }
      }
    }
  }
}
