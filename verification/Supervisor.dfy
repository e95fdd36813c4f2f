/** The end of the program: seven supervised tasks, a bounded drain, and the abort of whatever is
    left. Which task ends first, which end before the drain deadline and in what order is open. */
module Supervisor {
  import opened Wrappers

  const SOURCE: nat := 0
  const FIRST_SINK: nat := 4
  const TASKS: nat := 7

  datatype TaskResult = Succeeded | Failed | Panicked

  /** What wakes the supervisor: the shutdown signal or the end of some task. */
  datatype FirstEvent = Signal | TaskEnds(task: nat)

  datatype ExitError = StoppedEarly(task: nat, result: TaskResult) | DrainFailed(sink: nat, result: TaskResult) | FinalizeFailed

  // ---------------------------------------------------------------- what the exit should be

  predicate IsSink(t: nat) { FIRST_SINK <= t < TASKS }

  /** Tasks other than the one that ended first. */
  predicate StillThere(first: FirstEvent, t: nat) {
    t < TASKS && (first.Signal? || first.task != t)
  }

  /** The drain gets past the source. */
  predicate SourceDrained(first: FirstEvent, completed: set<nat>) {
    !StillThere(first, SOURCE) || SOURCE in completed
  }

  /** The drain awaits this task and sees its result. */
  predicate SeenInDrain(first: FirstEvent, completed: set<nat>, t: nat) {
    StillThere(first, t) && t in completed && SourceDrained(first, completed)
  }

  predicate TimesOut(first: FirstEvent, completed: set<nat>) {
    exists t: nat | t < TASKS :: StillThere(first, t) && t !in completed
  }

  predicate FailsInDrain(first: FirstEvent, results: seq<TaskResult>, completed: set<nat>, t: nat)
    requires |results| == TASKS
  {
    IsSink(t) && SeenInDrain(first, completed, t) && results[t] != Succeeded
  }

  /** The first failing sink seen in the drain, from `t` on. */
  function FirstDrainFailure(first: FirstEvent, results: seq<TaskResult>, completed: set<nat>, t: nat): Option<ExitError>
    requires |results| == TASKS && t <= TASKS
    decreases TASKS - t
  {
    if t == TASKS then None
    else if FailsInDrain(first, results, completed, t) then Some(DrainFailed(t, results[t]))
    else FirstDrainFailure(first, results, completed, t + 1)
  }

  function ExitOf(first: FirstEvent, results: seq<TaskResult>, completed: set<nat>, finalizeOk: bool): Option<ExitError>
    requires |results| == TASKS && (first.TaskEnds? ==> first.task < TASKS)
  {
    if first.TaskEnds? then Some(StoppedEarly(first.task, results[first.task]))
    else
      var drain := FirstDrainFailure(first, results, completed, FIRST_SINK);
      if drain.Some? then drain
      else if TimesOut(first, completed) && !finalizeOk then Some(FinalizeFailed)
      else None
  }

  /** The drain, which waits for the source (task 0) before it looks at any other, sees task `t` end. */
  ghost predicate Drained(first: FirstEvent, completed: set<nat>, t: nat) {
    t in completed && first != TaskEnds(t) && (first == TaskEnds(0) || 0 in completed)
  }

  /** Why the program exits as it does: a task that stopped early is reported before anything else, then the
      first of the sinks, tasks 4 to 6, that the drain saw fail, and then a buffer that could not be finalized
      although some task missed the deadline. */
  ghost predicate IsExit(first: FirstEvent, results: seq<TaskResult>, completed: set<nat>, finalizeOk: bool, exit: Option<ExitError>)
    requires |results| == 7 && (first.TaskEnds? ==> first.task < 7)
  {
    if first.TaskEnds? then exit == Some(StoppedEarly(first.task, results[first.task]))
    else if exists t: nat :: 4 <= t < 7 && Drained(first, completed, t) && results[t] != Succeeded then
      exists t: nat ::
        && 4 <= t < 7 && Drained(first, completed, t) && results[t] != Succeeded && exit == Some(DrainFailed(t, results[t]))
        && forall s: nat | 4 <= s < t :: !(Drained(first, completed, s) && results[s] != Succeeded)
    else exit == if !finalizeOk && (exists t: nat :: t < 7 && t !in completed) then Some(FinalizeFailed) else None
  }

  lemma {:induction false} FirstFailureIs(first: FirstEvent, results: seq<TaskResult>, completed: set<nat>, from: nat)
    requires |results| == 7 && from <= 7
    ensures var f := FirstDrainFailure(first, results, completed, from);
            if f.None? then forall s: nat | from <= s < 7 :: !FailsInDrain(first, results, completed, s)
            else f.value.DrainFailed? && from <= f.value.sink < 7 && FailsInDrain(first, results, completed, f.value.sink)
                 && f.value.result == results[f.value.sink]
                 && forall s: nat | from <= s < f.value.sink :: !FailsInDrain(first, results, completed, s)
    decreases 7 - from
  {
    if from < 7 {
      FirstFailureIs(first, results, completed, from + 1);
    }
  }

  lemma ExitIs(first: FirstEvent, results: seq<TaskResult>, completed: set<nat>, finalizeOk: bool)
    requires |results| == 7 && (first.TaskEnds? ==> first.task < 7)
    ensures IsExit(first, results, completed, finalizeOk, ExitOf(first, results, completed, finalizeOk))
    ensures forall t: nat | t < 7 :: SeenInDrain(first, completed, t) <==> Drained(first, completed, t)
  {
    if first.Signal? {
      FirstFailureIs(first, results, completed, 4);
      var f := FirstDrainFailure(first, results, completed, 4);
      if f.Some? {
        assert Drained(first, completed, f.value.sink);
        forall s: nat | 4 <= s < f.value.sink ensures !(Drained(first, completed, s) && results[s] != Succeeded) {
          assert !FailsInDrain(first, results, completed, s);
        }
      } else {
        forall t: nat | 4 <= t < 7 ensures !(Drained(first, completed, t) && results[t] != Succeeded) {
          assert !FailsInDrain(first, results, completed, t);
        }
      }
    }
  }

  // ---------------------------------------------------------------- the supervisor

  class JoinHandle {
    const result: TaskResult
    var joined: bool
    var aborted: bool

    constructor (result: TaskResult)
      ensures !joined && !aborted && this.result == result
    {
      this.result, joined, aborted := result, false, false;
    }

    /** Awaiting a handle a second time would panic. */
    method Await() returns (r: TaskResult)
      requires !joined
      modifies this`joined
      ensures joined && r == result
    {
      joined := true;
      r := result;
    }

    method Abort()
      modifies this`aborted
      ensures aborted
    {
      aborted := true;
    }
  }

  class Supervision {
    const handles: seq<JoinHandle>
    var done: seq<bool>
    var drainRes: seq<Option<TaskResult>>
    var exitErr: Option<ExitError>

    ghost predicate Valid()
      reads this, handles
    {
      && |handles| == |done| == |drainRes| == TASKS
      && (forall i, j | 0 <= i < j < TASKS :: handles[i] != handles[j])
      && (forall t | 0 <= t < TASKS :: done[t] == handles[t].joined)
    }

    ghost function Results(): seq<TaskResult> {
      seq(|handles|, i requires 0 <= i < |handles| => handles[i].result)
    }

    constructor (handles: seq<JoinHandle>)
      requires |handles| == TASKS && forall i, j | 0 <= i < j < TASKS :: handles[i] != handles[j]
      requires forall t | 0 <= t < TASKS :: !handles[t].joined
      ensures Valid() && this.handles == handles && exitErr == None
      ensures forall t | 0 <= t < TASKS :: !done[t] && drainRes[t] == None
    {
      this.handles := handles;
      done := seq(TASKS, _ => false);
      drainRes := seq(TASKS, _ => None);
      exitErr := None;
    }

    /** Awaits a task that is not done yet, to its end. */
    method Join(t: nat) returns (r: TaskResult)
      requires Valid() && t < TASKS && !done[t]
      modifies this`done, handles
      ensures Valid() && done == old(done)[t := true] && r == handles[t].result
      ensures forall u | 0 <= u < TASKS :: handles[u].aborted == old(handles[u].aborted)
    {
      r := handles[t].Await();
      done := done[t := true];
    }

    /** The `select!`: a task that ends before the signal is an error. */
    method AwaitFirst(first: FirstEvent)
      requires Valid() && (first.TaskEnds? ==> first.task < TASKS) && exitErr == None
      requires forall t | 0 <= t < TASKS :: !done[t] && drainRes[t] == None
      modifies this`done, this`exitErr, handles
      ensures Valid()
      ensures forall t | 0 <= t < TASKS :: done[t] == !StillThere(first, t)
      ensures exitErr == if first.TaskEnds? then Some(StoppedEarly(first.task, handles[first.task].result)) else None
      ensures forall t | 0 <= t < TASKS :: handles[t].aborted == old(handles[t].aborted)
    {
      if first.TaskEnds? {
        var r := Join(first.task);
        exitErr := Some(StoppedEarly(first.task, r));
      }
    }

    /** The `join!` of the other six: they are joined as they end, in any order. */
    method JoinOthers(completed: set<nat>)
      requires Valid() && done[SOURCE]
      requires forall t | 0 <= t < TASKS :: drainRes[t] == None
      modifies this`done, this`drainRes, handles
      ensures Valid()
      ensures forall t | 0 <= t < TASKS :: done[t] == (old(done)[t] || t in completed)
      ensures forall t | 0 <= t < TASKS && IsSink(t) ::
                drainRes[t] == if !old(done)[t] && t in completed then Some(handles[t].result) else None
      ensures forall t | 0 <= t < TASKS :: handles[t].aborted == old(handles[t].aborted)
    {
      var pending := set t: nat | t < TASKS && t in completed && !done[t];
      while pending != {}
        invariant Valid()
        invariant forall t | t in pending :: 0 <= t < TASKS && t in completed && !old(done)[t]
        invariant forall t | 0 <= t < TASKS :: done[t] == (old(done)[t] || (t in completed && t !in pending))
        invariant forall t | 0 <= t < TASKS && IsSink(t) ::
                    drainRes[t] == if !old(done)[t] && t in completed && t !in pending then Some(handles[t].result) else None
        invariant forall t | 0 <= t < TASKS :: handles[t].aborted == old(handles[t].aborted)
        decreases |pending|
      {
        var t :| t in pending;
        var r := Join(t);
        if IsSink(t) {
          drainRes := drainRes[t := Some(r)];
        }
        pending := pending - {t};
      }
    }

    /** The drain up to its deadline: the source first, then the other six as they come. `completed`
        are the tasks that end before the deadline. */
    method Drain(first: FirstEvent, completed: set<nat>) returns (timedOut: bool)
      requires Valid()
      requires forall t | 0 <= t < TASKS :: done[t] == !StillThere(first, t) && drainRes[t] == None
      modifies this`done, this`drainRes, handles
      ensures Valid()
      ensures forall t | 0 <= t < TASKS :: done[t] == (!StillThere(first, t) || SeenInDrain(first, completed, t))
      ensures forall t | 0 <= t < TASKS && IsSink(t) ::
                drainRes[t] == if SeenInDrain(first, completed, t) then Some(handles[t].result) else None
      ensures timedOut == TimesOut(first, completed)
      ensures forall t | 0 <= t < TASKS :: handles[t].aborted == old(handles[t].aborted)
    {
      if !done[SOURCE] {
        if SOURCE !in completed {
          return true;
        }
        var r := Join(SOURCE);
      }
      JoinOthers(completed);
      timedOut := exists t: nat | t < TASKS :: !done[t];
    }

    /** A sink that failed while draining is an error, unless there is one already. */
    method RecordDrainFailures(first: FirstEvent, completed: set<nat>)
      requires Valid()
      requires first.TaskEnds? ==> first.task < TASKS
      requires forall t | 0 <= t < TASKS && IsSink(t) ::
                 drainRes[t] == if SeenInDrain(first, completed, t) then Some(handles[t].result) else None
      requires exitErr == if first.TaskEnds? then Some(StoppedEarly(first.task, handles[first.task].result)) else None
      modifies this`exitErr
      ensures Valid()
      ensures exitErr == if old(exitErr).Some? then old(exitErr) else FirstDrainFailure(first, Results(), completed, FIRST_SINK)
    {
      for t := FIRST_SINK to TASKS
        invariant old(exitErr).Some? ==> exitErr == old(exitErr)
        invariant old(exitErr).None? ==>
                    FirstDrainFailure(first, Results(), completed, FIRST_SINK)
                    == if exitErr.Some? then exitErr else FirstDrainFailure(first, Results(), completed, t)
      {
        if drainRes[t].Some? && drainRes[t].value != Succeeded && exitErr.None? {
          exitErr := Some(DrainFailed(t, drainRes[t].value));
        }
      }
    }

    /** After the deadline: aborts and joins everything that is not done. */
    method AbortRemaining()
      requires Valid()
      requires forall t | 0 <= t < TASKS :: !handles[t].aborted
      modifies this`done, handles
      ensures Valid()
      ensures forall t | 0 <= t < TASKS :: handles[t].joined && (handles[t].aborted <==> !old(done)[t])
    {
      for t := 0 to TASKS
        invariant Valid()
        invariant forall u | t <= u < TASKS :: done[u] == old(done)[u] && !handles[u].aborted
        invariant forall u | 0 <= u < t :: done[u] && (handles[u].aborted <==> !old(done)[u])
      {
        if !done[t] {
          handles[t].Abort();
          var r := Join(t);
        }
      }
    }

    /** Runs the three phases. Every handle is joined once, exactly the tasks whose end the drain did not
        see are aborted, and the exit is a function of what ended when. A task that ended in time is among
        the aborted if the drain was still waiting for the source. */
    method Supervise(first: FirstEvent, completed: set<nat>, finalizeOk: bool) returns (exit: Option<ExitError>)
      requires Valid() && (first.TaskEnds? ==> first.task < TASKS) && exitErr == None
      requires forall t | 0 <= t < TASKS :: !done[t] && drainRes[t] == None && !handles[t].aborted
      modifies this, handles
      ensures exit == ExitOf(first, Results(), completed, finalizeOk)
      ensures exit.Some? <==>
                || first.TaskEnds?
                || (exists t: nat :: FailsInDrain(first, Results(), completed, t))
                || (TimesOut(first, completed) && !finalizeOk)
      ensures |Results()| == 7 && IsExit(first, Results(), completed, finalizeOk, exit)
      ensures forall t | 0 <= t < TASKS :: handles[t].joined
      ensures forall t: nat | t < 7 :: handles[t].aborted <==> first != TaskEnds(t) && !Drained(first, completed, t)
    {
      AwaitFirst(first);
      var timedOut := Drain(first, completed);
      RecordDrainFailures(first, completed);
      if timedOut {
        AbortRemaining();
        if !finalizeOk && exitErr.None? {
          exitErr := Some(FinalizeFailed);
        }
      }
      exit := exitErr;
      ExitIsErrorIff(first, Results(), completed, finalizeOk);
      ExitIs(first, Results(), completed, finalizeOk);
    }
  }

  // ---------------------------------------------------------------- what the exit says

  lemma {:induction false} DrainFailureIff(first: FirstEvent, results: seq<TaskResult>, completed: set<nat>, t: nat)
    requires |results| == TASKS && t <= TASKS
    ensures var f := FirstDrainFailure(first, results, completed, t);
            && (f.Some? <==> exists s: nat :: t <= s < TASKS && FailsInDrain(first, results, completed, s))
            && (f.Some? ==> f.value.DrainFailed? && FailsInDrain(first, results, completed, f.value.sink))
    decreases TASKS - t
  {
    if t < TASKS {
      DrainFailureIff(first, results, completed, t + 1);
    }
  }

  /** The exit is an error exactly if a task ended before the signal, a sink whose end the drain saw
      had failed or panicked, or the drain timed out and the buffer could not be finalized. */
  lemma ExitIsErrorIff(first: FirstEvent, results: seq<TaskResult>, completed: set<nat>, finalizeOk: bool)
    requires |results| == TASKS && (first.TaskEnds? ==> first.task < TASKS)
    ensures ExitOf(first, results, completed, finalizeOk).Some? <==>
            first.TaskEnds? || (exists t: nat :: FailsInDrain(first, results, completed, t)) || (TimesOut(first, completed) && !finalizeOk)
  {
    DrainFailureIff(first, results, completed, FIRST_SINK);
    if t: nat :| FailsInDrain(first, results, completed, t) {
      assert FIRST_SINK <= t < TASKS;
    }
  }

  /** A sink that fails before the deadline, after the signal, is reported exactly if the source got
      drained in time: the drain waits for the source before it looks at any sink. */
  lemma SinkFailureIsSeenIff(results: seq<TaskResult>, completed: set<nat>, t: nat)
    requires |results| == TASKS && IsSink(t) && t in completed && results[t] != Succeeded
    ensures FailsInDrain(Signal, results, completed, t) <==> SOURCE in completed
    ensures SOURCE !in completed ==> ExitOf(Signal, results, completed, true) == None
  {
    DrainFailureIff(Signal, results, completed, FIRST_SINK);
  }
}
