/** Any number of concurrent leases sharing one semaphore: the steps of `dispatch` and
    `drain_join_set` interleaved with the completion of chunk tasks and the arrival of leases. */
module Permits {
  import opened Wrappers

  /** Where the dispatcher of a lease stands: about to join finished tasks without waiting, at the
      check for exhausted permits, awaiting one of its own tasks, waiting for a permit, holding one it
      has not handed to a task yet, draining its join set, or done. A dispatcher that awaits a task
      goes on doing so even when a permit becomes free meanwhile. */
  datatype Phase = Joining | Gate | Awaiting | Acquiring | Holding | Draining | Finished

  /** `left` chunks are still to be dispatched; `running` tasks each hold a permit; `done` tasks
      have returned theirs and await being joined; `joined` have been recorded. */
  datatype LeaseState = LeaseState(phase: Phase, left: nat, running: nat, done: nat, joined: nat)
  {
    function Held(): nat { running + if phase == Holding then 1 else 0 }
    function Tasks(): nat { running + done }
    function Chunks(): nat { left + running + done + joined }
  }

  datatype State = State(permits: nat, leases: seq<LeaseState>)

  datatype Step =
    | Arrive(chunks: nat)
    | TryJoin(i: nat)
    | StopJoining(i: nat)
    | BeginAwait(i: nat)
    | AwaitJoin(i: nat)
    | PassGate(i: nat)
    | Acquire(i: nat)
    | Spawn(i: nat)
    | Complete(i: nat)
    | DrainJoin(i: nat)
    | Finish(i: nat)

  /** The step of one lease, given the permits available: its new state and the new permits. */
  datatype Move = Move(lease: LeaseState, permits: nat)

  function MoveOf(l: LeaseState, permits: nat, step: Step): Option<Move> {
    match step
    case Arrive(_) => None
    case TryJoin(_) =>
      if l.phase == Joining && l.done > 0 then Some(Move(l.(done := l.done - 1, joined := l.joined + 1), permits)) else None
    case StopJoining(_) =>
      if l.phase == Joining && l.done == 0 then Some(Move(l.(phase := Gate), permits)) else None
    case BeginAwait(_) =>
      if l.phase == Gate && permits == 0 && l.Tasks() > 0 then Some(Move(l.(phase := Awaiting), permits)) else None
    case AwaitJoin(_) =>
      if l.phase == Awaiting && l.done > 0
      then Some(Move(l.(phase := Gate, done := l.done - 1, joined := l.joined + 1), permits)) else None
    case PassGate(_) =>
      if l.phase == Gate && (permits > 0 || l.Tasks() == 0) then Some(Move(l.(phase := Acquiring), permits)) else None
    case Acquire(_) =>
      if l.phase == Acquiring && permits > 0 then Some(Move(l.(phase := Holding), permits - 1)) else None
    case Spawn(_) =>
      if l.phase == Holding && l.left > 0
      then Some(Move(l.(phase := if l.left == 1 then Draining else Joining, left := l.left - 1, running := l.running + 1), permits))
      else None
    case Complete(_) =>
      if l.running > 0 then Some(Move(l.(running := l.running - 1, done := l.done + 1), permits + 1)) else None
    case DrainJoin(_) =>
      if l.phase == Draining && l.done > 0 then Some(Move(l.(done := l.done - 1, joined := l.joined + 1), permits)) else None
    case Finish(_) =>
      if l.phase == Draining && l.Tasks() == 0 then Some(Move(l.(phase := Finished), permits)) else None
  }

  function Next(s: State, step: Step): Option<State> {
    if step.Arrive? then
      if step.chunks == 0 then None
      else Some(State(s.permits, s.leases + [LeaseState(Joining, step.chunks, 0, 0, 0)]))
    else if step.i >= |s.leases| then None
    else match MoveOf(s.leases[step.i], s.permits, step)
      case None => None
      case Some(m) => Some(State(m.permits, s.leases[step.i := m.lease]))
  }

  // ---------------------------------------------------------------- runs

  /** The state after `steps`, if every one of them can be taken. */
  function Run(s: State, steps: seq<Step>): Option<State> {
    if steps == [] then Some(s) else
    match Run(s, steps[..|steps| - 1])
    case None => None
    case Some(t) => Next(t, steps[|steps| - 1])
  }

  function Sum(leases: seq<LeaseState>, weight: LeaseState -> nat): nat {
    if leases == [] then 0 else Sum(leases[..|leases| - 1], weight) + weight(leases[|leases| - 1])
  }

  function HeldBy(l: LeaseState): nat {
    l.Held()
  }

  function HeldPermits(s: State): nat {
    Sum(s.leases, HeldBy)
  }

  /** Bulk requests being sent right now. */
  function InFlight(s: State): nat {
    Sum(s.leases, (l: LeaseState) => l.running)
  }

  ghost predicate ValidLease(l: LeaseState) {
    && (l.left > 0 <==> l.phase.Joining? || l.phase.Gate? || l.phase.Awaiting? || l.phase.Acquiring? || l.phase.Holding?)
    && (l.phase == Awaiting ==> l.Tasks() > 0)
    && (l.phase == Finished ==> l.Tasks() == 0)
  }

  ghost predicate Inv(s: State, max: nat) {
    && s.permits + HeldPermits(s) == max
    && forall i | 0 <= i < |s.leases| :: ValidLease(s.leases[i])
  }

  lemma {:induction false} SumUpdate(leases: seq<LeaseState>, weight: LeaseState -> nat, i: nat, l: LeaseState)
    requires i < |leases|
    ensures Sum(leases[i := l], weight) + weight(leases[i]) == Sum(leases, weight) + weight(l)
  {
    var last := |leases| - 1;
    if i == last {
      assert leases[i := l][..last] == leases[..last];
    } else {
      SumUpdate(leases[..last], weight, i, l);
      assert leases[i := l][..last] == leases[..last][i := l];
    }
  }

  lemma SumSnoc(leases: seq<LeaseState>, weight: LeaseState -> nat, l: LeaseState)
    ensures Sum(leases + [l], weight) == Sum(leases, weight) + weight(l)
  {
    assert (leases + [l])[..|leases|] == leases;
  }

  lemma {:induction false} SumOrdered(leases: seq<LeaseState>, small: LeaseState -> nat, big: LeaseState -> nat)
    requires forall l :: small(l) <= big(l)
    ensures Sum(leases, small) <= Sum(leases, big)
  {
    if leases != [] {
      SumOrdered(leases[..|leases| - 1], small, big);
    }
  }

  /** Somebody contributes to a positive sum. */
  lemma {:induction false} SumPositive(leases: seq<LeaseState>, weight: LeaseState -> nat) returns (i: nat)
    requires Sum(leases, weight) > 0
    ensures i < |leases| && weight(leases[i]) > 0
  {
    var last := |leases| - 1;
    if weight(leases[last]) > 0 {
      i := last;
    } else {
      i := SumPositive(leases[..last], weight);
    }
  }

  lemma MoveKeeps(l: LeaseState, permits: nat, step: Step)
    requires ValidLease(l) && MoveOf(l, permits, step).Some?
    ensures var m := MoveOf(l, permits, step).value;
            && ValidLease(m.lease) && m.permits + m.lease.Held() == permits + l.Held()
            && m.lease.Chunks() == l.Chunks()
  {
  }

  lemma StepKeepsInv(s: State, step: Step, max: nat)
    requires Inv(s, max) && Next(s, step).Some?
    ensures Inv(Next(s, step).value, max)
  {
    hide MoveOf, Sum;
    if step.Arrive? {
      SumSnoc(s.leases, HeldBy, LeaseState(Joining, step.chunks, 0, 0, 0));
    } else {
      hide ValidLease;
      MoveKeeps(s.leases[step.i], s.permits, step);
      SumUpdate(s.leases, HeldBy, step.i, MoveOf(s.leases[step.i], s.permits, step).value.lease);
    }
  }

  /** No permit is ever lost or made up, and never more than `max` requests are in flight,
      in every state of every interleaving. */
  lemma {:induction false} PermitsAreConserved(max: nat, steps: seq<Step>)
    requires Run(State(max, []), steps).Some?
    ensures var s := Run(State(max, []), steps).value;
            && Inv(s, max)
            && s.permits + HeldPermits(s) == max
            && InFlight(s) <= max
  {
    var last := |steps| - 1;
    if steps != [] {
      PermitsAreConserved(max, steps[..last]);
      StepKeepsInv(Run(State(max, []), steps[..last]).value, steps[last], max);
    }
    var s := Run(State(max, []), steps).value;
    SumOrdered(s.leases, (l: LeaseState) => l.running, HeldBy);
  }

  // ---------------------------------------------------------------- waiting and progress

  /** The dispatcher cannot move by itself. */
  predicate Waits(s: State, i: nat) {
    && i < |s.leases|
    && var l := s.leases[i];
       || (l.phase == Awaiting && l.done == 0)
       || (l.phase == Acquiring && s.permits == 0)
       || (l.phase == Draining && l.running > 0 && l.done == 0)
  }

  /** The step the dispatcher of a lease that does not wait can take. */
  function OwnStep(s: State, i: nat): Step
    requires i < |s.leases|
  {
    var l := s.leases[i];
    match l.phase
    case Joining => if l.done > 0 then TryJoin(i) else StopJoining(i)
    case Gate => if s.permits > 0 || l.Tasks() == 0 then PassGate(i) else BeginAwait(i)
    case Awaiting => AwaitJoin(i)
    case Acquiring => Acquire(i)
    case Holding => Spawn(i)
    case Draining => if l.done > 0 then DrainJoin(i) else Finish(i)
    case Finished => Complete(i)
  }

  lemma UnlessWaitingMoves(s: State, i: nat, max: nat)
    requires Inv(s, max) && i < |s.leases| && s.leases[i].phase != Finished
    ensures Waits(s, i) <==> Next(s, OwnStep(s, i)).None?
  {
  }

  /** A dispatcher only ever waits while some lease holds a permit, and that lease can move. */
  lemma WaitingMeansHeld(s: State, i: nat, max: nat) returns (holder: nat)
    requires Inv(s, max) && 0 < max && Waits(s, i)
    ensures holder < |s.leases| && s.leases[holder].Held() > 0
    ensures Next(s, if s.leases[holder].running > 0 then Complete(holder) else Spawn(holder)).Some?
  {
    if s.leases[i].running > 0 {
      return i;
    }
    holder := SumPositive(s.leases, HeldBy);
  }

  predicate AllFinished(s: State) {
    forall i | 0 <= i < |s.leases| :: s.leases[i].phase == Finished
  }

  /** No deadlock: unless every lease is finished, some step other than an arrival can be taken. */
  lemma SomethingMoves(s: State, max: nat) returns (step: Step)
    requires Inv(s, max) && 0 < max && !AllFinished(s)
    ensures !step.Arrive? && Next(s, step).Some?
  {
    var i: nat :| i < |s.leases| && s.leases[i].phase != Finished;
    UnlessWaitingMoves(s, i, max);
    if Waits(s, i) {
      var holder := WaitingMeansHeld(s, i, max);
      step := if s.leases[holder].running > 0 then Complete(holder) else Spawn(holder);
    } else {
      step := OwnStep(s, i);
    }
  }

  function PhaseWeight(p: Phase): nat {
    match p case Joining => 4 case Gate => 3 case Awaiting => 2 case Acquiring => 2 case Holding => 1 case Draining => 1 case Finished => 0
  }

  function Weight(l: LeaseState): nat {
    7 * l.left + 3 * l.running + 2 * l.done + PhaseWeight(l.phase)
  }

  function Remaining(s: State): nat {
    Sum(s.leases, Weight)
  }

  lemma MoveLightens(l: LeaseState, permits: nat, step: Step)
    requires MoveOf(l, permits, step).Some?
    ensures Weight(MoveOf(l, permits, step).value.lease) < Weight(l)
  {
  }

  /** Every step but an arrival brings the end nearer. */
  lemma StepsDecrease(s: State, step: Step, max: nat)
    requires Inv(s, max) && !step.Arrive? && Next(s, step).Some?
    ensures Remaining(Next(s, step).value) < Remaining(s)
  {
    hide MoveOf, Weight;
    MoveLightens(s.leases[step.i], s.permits, step);
    SumUpdate(s.leases, Weight, step.i, MoveOf(s.leases[step.i], s.permits, step).value.lease);
  }

  predicate NoArrivals(steps: seq<Step>) {
    forall k | 0 <= k < |steps| :: !steps[k].Arrive?
  }

  /** Whatever the schedule, once no lease arrives any more only so many steps are left. */
  lemma {:induction false} RunsAreBounded(s: State, steps: seq<Step>, max: nat)
    requires Inv(s, max) && NoArrivals(steps) && Run(s, steps).Some?
    ensures Inv(Run(s, steps).value, max)
    ensures |steps| + Remaining(Run(s, steps).value) <= Remaining(s)
  {
    if steps != [] {
      var last := |steps| - 1;
      RunsAreBounded(s, steps[..last], max);
      StepKeepsInv(Run(s, steps[..last]).value, steps[last], max);
      StepsDecrease(Run(s, steps[..last]).value, steps[last], max);
    }
  }

  /** A maximal run ends with every lease finished and every permit back. */
  lemma MaximalRunsFinish(s: State, steps: seq<Step>, max: nat)
    requires Inv(s, max) && 0 < max && NoArrivals(steps) && Run(s, steps).Some?
    requires forall step: Step | !step.Arrive? :: Next(Run(s, steps).value, step).None?
    ensures AllFinished(Run(s, steps).value)
    ensures Run(s, steps).value.permits == max
  {
    var t := Run(s, steps).value;
    RunsAreBounded(s, steps, max);
    if !AllFinished(t) {
      var step := SomethingMoves(t, max);
    } else {
      if HeldPermits(t) > 0 {
        var i := SumPositive(t.leases, HeldBy);
      }
    }
  }

  /** Each chunk of a lease is dispatched, sent and joined exactly once by the time it finishes. */
  lemma {:induction false} EveryChunkIsJoined(s: State, steps: seq<Step>, i: nat, max: nat)
    requires Inv(s, max) && Run(s, steps).Some? && i < |s.leases|
    ensures var t := Run(s, steps).value;
            && Inv(t, max) && |s.leases| <= |t.leases|
            && t.leases[i].Chunks() == s.leases[i].Chunks()
            && (t.leases[i].phase == Finished ==> t.leases[i].joined == s.leases[i].Chunks())
  {
    if steps != [] {
      var last := |steps| - 1;
      EveryChunkIsJoined(s, steps[..last], i, max);
      StepKeepsInv(Run(s, steps[..last]).value, steps[last], max);
      var t := Run(s, steps[..last]).value;
      if !steps[last].Arrive? && steps[last].i == i {
        MoveKeeps(t.leases[i], t.permits, steps[last]);
      }
    }
  }

  predicate Stuck(l: LeaseState) {
    l.left > 0 && l.running == 0 && l.done == 0 && l.joined == 0 && l.phase != Awaiting && l.phase != Holding && l.phase != Draining && l.phase != Finished
  }

  /** With no permits at all no chunk of any lease is ever sent: the configuration check for a
      positive limit is needed. */
  lemma {:induction false} NoPermitsNoProgress(steps: seq<Step>)
    requires Run(State(0, []), steps).Some?
    ensures var s := Run(State(0, []), steps).value;
            s.permits == 0 && forall i | 0 <= i < |s.leases| :: Stuck(s.leases[i])
  {
    if steps != [] {
      var last := |steps| - 1;
      NoPermitsNoProgress(steps[..last]);
    }
  }
}
