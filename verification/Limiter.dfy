/**
 * The completion limiter: a counting semaphore over a buffered channel, and the callers of Complete
 * that acquire it once and release it on every way out.
 */
module Limiter {

  /** Where a call of Complete stands. Refused calls never reach the limiter. */
  datatype Phase = Entered | Waiting | Holding | Completed | Failed

  /** slots is the number of tokens in the channel buffer; calls maps each call to its phase. */
  datatype State = State(limit: nat, slots: nat, calls: map<nat, Phase>)

  /** NewLimiter: the limit must be positive. */
  function NewLimiter(limit: int): (r: (bool, State))
    ensures r.0 <==> limit >= 1
    ensures r.0 ==> Invariant(r.1) && r.1.limit == limit && r.1.calls == map[]
  {
    if limit < 1 then (false, State(0, 0, map[])) else (true, State(limit, 0, map[]))
  }

  function PhaseOf(s: State, id: nat): Phase {
    if id in s.calls then s.calls[id] else Failed
  }

  function Move(s: State, id: nat, phase: Phase): State {
    s.(calls := s.calls[id := phase])
  }

  /** A new call of Complete. */
  predicate Begin(s: State, id: nat, t: State) {
    id !in s.calls && t == Move(s, id, Entered)
  }

  /** The request check: an incomplete request fails before the limiter, any other asks for a slot. */
  predicate CheckRequest(s: State, id: nat, complete: bool, t: State) {
    PhaseOf(s, id) == Entered && id in s.calls && t == Move(s, id, if complete then Waiting else Failed)
  }

  /** limiter.slots <- struct{}{} goes through when the buffer has room. */
  predicate Acquire(s: State, id: nat, t: State) {
    id in s.calls && s.calls[id] == Waiting && s.slots < s.limit && t == Move(s, id, Holding).(slots := s.slots + 1)
  }

  /** The context is done before a slot was had: Complete returns without the deferred release. */
  predicate Cancel(s: State, id: nat, t: State) {
    id in s.calls && s.calls[id] == Waiting && t == Move(s, id, Failed)
  }

  /** Any return after a successful acquire runs the deferred release, which takes one token back. */
  predicate Return(s: State, id: nat, ok: bool, t: State) {
    && id in s.calls && s.calls[id] == Holding && s.slots > 0
    && t == Move(s, id, if ok then Completed else Failed).(slots := s.slots - 1)
  }

  datatype Action = DoBegin | DoCheck(complete: bool) | DoAcquire | DoCancel | DoReturn(ok: bool)

  predicate Do(s: State, id: nat, a: Action, t: State) {
    match a
    case DoBegin => Begin(s, id, t)
    case DoCheck(complete) => CheckRequest(s, id, complete, t)
    case DoAcquire => Acquire(s, id, t)
    case DoCancel => Cancel(s, id, t)
    case DoReturn(ok) => Return(s, id, ok, t)
  }

  ghost predicate Step(s: State, t: State) {
    exists id: nat, a: Action :: Do(s, id, a, t)
  }

  /** The calls between a successful acquire and its release. */
  function Holders(s: State): set<nat> {
    set id | id in s.calls && s.calls[id] == Holding
  }

  /** Slots in use are exactly the calls that hold one, and never more than the limit. */
  ghost predicate Invariant(s: State) {
    s.slots == |Holders(s)| && s.slots <= s.limit
  }

  lemma ActionInvariant(s: State, id: nat, a: Action, t: State)
    requires Invariant(s) && Do(s, id, a, t)
    ensures Invariant(t) && t.limit == s.limit
  {
    match a
    case DoAcquire => assert Holders(t) == Holders(s) + {id};
    case DoReturn(_) => assert Holders(s) == Holders(t) + {id};
    case _ => assert Holders(t) == Holders(s);
  }

  lemma StepInvariant(s: State, t: State)
    requires Invariant(s) && Step(s, t)
    ensures Invariant(t) && t.limit == s.limit
  {
    var id: nat, a: Action :| Do(s, id, a, t);
    ActionInvariant(s, id, a, t);
  }

  ghost predicate IsExecution(run: seq<State>) {
    run != [] && run[0].limit >= 1 && run[0].slots == 0 && run[0].calls == map[]
    && forall i :: 0 <= i < |run| - 1 ==> Step(run[i], run[i + 1])
  }

  /** In every interleaving, at every moment: tokens equal holders, and at most `limit` calls are inside. */
  lemma {:induction false} SlotsAreHolders(run: seq<State>, i: nat)
    requires IsExecution(run) && i < |run|
    ensures run[i].slots == |Holders(run[i])| <= run[i].limit == run[0].limit
  {
    if i == 0 {
      assert Holders(run[0]) == {};
    } else {
      SlotsAreHolders(run, i - 1);
      assert Step(run[i - 1], run[i - 1 + 1]);
      StepInvariant(run[i - 1], run[i]);
    }
  }

  /** A holder's deferred release never blocks: its token is in the buffer. */
  lemma ReleaseNeverBlocks(s: State, id: nat, ok: bool)
    requires Invariant(s) && id in Holders(s)
    ensures exists t :: Return(s, id, ok, t)
  {
    assert |Holders(s)| > 0 by { assert Holders(s) != {}; }
    assert Return(s, id, ok, Move(s, id, if ok then Completed else Failed).(slots := s.slots - 1));
  }

  /** A waiting call can be served at once, or there is a holder whose return makes room for it. */
  lemma WaitingCallIsServed(s: State, id: nat) returns (holder: nat, freed: State, served: State)
    requires Invariant(s) && s.limit >= 1 && id in s.calls && s.calls[id] == Waiting
    ensures Acquire(s, id, served) || (Return(s, holder, true, freed) && Acquire(freed, id, served))
  {
    holder, freed := 0, s;
    if s.slots == s.limit {
      assert Holders(s) != {};
      holder :| holder in Holders(s);
      freed := Move(s, holder, Completed).(slots := s.slots - 1);
    }
    served := Move(freed, id, Holding).(slots := freed.slots + 1);
  }

  // ---------------------------------------------------------------- what becomes of a call

  ghost predicate InPhase(s: State, id: nat, phase: Phase) {
    id in s.calls && s.calls[id] == phase
  }

  /** No action moves a call that is over, and only its own actions move any call. */
  lemma OverStaysOver(s: State, id: nat, phase: Phase, t: State)
    requires Step(s, t) && InPhase(s, id, phase) && phase in {Completed, Failed}
    ensures InPhase(t, id, phase)
  {
    var other: nat, a: Action :| Do(s, other, a, t);
  }

  lemma {:induction false} OverForGood(run: seq<State>, i: nat, j: nat, id: nat, phase: Phase)
    requires IsExecution(run) && i <= j < |run| && InPhase(run[i], id, phase) && phase in {Completed, Failed}
    ensures InPhase(run[j], id, phase)
    decreases j - i
  {
    if i < j {
      OverForGood(run, i, j - 1, id, phase);
      assert Step(run[j - 1], run[j - 1 + 1]);
      OverStaysOver(run[j - 1], id, phase, run[j]);
    }
  }

  /** A call whose request is incomplete takes no token, then or later; one that is complete goes on to wait. */
  lemma CheckDecides(run: seq<State>, i: nat, j: nat, id: nat, complete: bool)
    requires IsExecution(run) && i < j < |run| && Do(run[i], id, DoCheck(complete), run[i + 1])
    ensures run[i + 1].slots == run[i].slots
    ensures complete ==> InPhase(run[i + 1], id, Waiting)
    ensures !complete ==> InPhase(run[j], id, Failed)
  {
    if !complete { OverForGood(run, i + 1, j, id, Failed); }
  }

  /** A call that completed held a token just before: it was inside, and gave the token back. */
  lemma {:induction false} CompletedHeldToken(run: seq<State>, j: nat, id: nat) returns (i: nat)
    requires IsExecution(run) && j < |run| && InPhase(run[j], id, Completed)
    ensures i < j && id in Holders(run[i]) && InPhase(run[i + 1], id, Completed) && run[i].slots == run[i + 1].slots + 1
  {
    assert j > 0;
    assert Step(run[j - 1], run[j - 1 + 1]);
    if InPhase(run[j - 1], id, Completed) {
      i := CompletedHeldToken(run, j - 1, id);
    } else {
      i := j - 1;
    }
  }
}
