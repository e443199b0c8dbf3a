/**
 * The progress screen: a step index that walks through the four analysis steps
 * and a percentage that climbs by two, each driven by its own interval timer,
 * and a one-shot timer that moves on to the results whatever the two show.
 * Timers are events: a tick is one run of an interval callback.
 */
module Loading {
  import opened Browser

  /** `loadingSteps` has four entries. */
  const StepCount: nat := 4
  const LastStep: nat := StepCount - 1

  function Min(a: nat, b: nat): nat
  {
    if a <= b then a else b
  }

  /** The step interval's updater: advance while below the last step. */
  function NextStep(prev: nat): nat
  {
    if prev < LastStep then prev + 1 else prev
  }

  /** The progress interval's updater: add two while below 100. */
  function NextProgress(prev: nat): nat
  {
    if prev < 100 then prev + 2 else prev
  }

  /** The step index after `k` ticks from the initial 0. */
  function StepAfter(k: nat): nat
  {
    if k == 0 then 0 else NextStep(StepAfter(k - 1))
  }

  /** The progress value after `k` ticks from the initial 0. */
  function ProgressAfter(k: nat): nat
  {
    if k == 0 then 0 else NextProgress(ProgressAfter(k - 1))
  }

  /** A step tick never lowers the index and never takes it past the last step. */
  lemma NextStepBounded(s: nat)
    requires s <= LastStep
    ensures s <= NextStep(s) <= LastStep
    ensures NextStep(s) == s <==> s == LastStep
  {
  }

  /** After `k` ticks the step index is min(k, 3). */
  lemma {:induction false} StepAfterTicks(k: nat)
    ensures StepAfter(k) == Min(k, LastStep)
  {
    if k > 0 {
      StepAfterTicks(k - 1);
    }
  }

  /** After `k` ticks the progress is min(2k, 100): even and at most 100. */
  lemma {:induction false} ProgressAfterTicks(k: nat)
    ensures ProgressAfter(k) == Min(2 * k, 100)
    ensures ProgressAfter(k) % 2 == 0 && ProgressAfter(k) <= 100
  {
    if k > 0 {
      ProgressAfterTicks(k - 1);
    }
  }

  /** Neither counter ever goes down: more ticks never show less. */
  lemma {:induction false} CountersMonotone(j: nat, k: nat)
    requires j <= k
    ensures StepAfter(j) <= StepAfter(k)
    ensures ProgressAfter(j) <= ProgressAfter(k)
  {
    StepAfterTicks(j);
    StepAfterTicks(k);
    ProgressAfterTicks(j);
    ProgressAfterTicks(k);
  }

  /** `Math.min(progress, 100)`: what the label and the bar show. */
  function DisplayedProgress(progress: nat): (shown: nat)
    ensures shown <= 100 && shown <= progress
    ensures progress <= 100 ==> shown == progress
    ensures progress >= 100 ==> shown == 100
  {
    if progress <= 100 then progress else 100
  }

  /** The updater alone does not keep the value at 100 from an odd start (99
      becomes 101); from 0 it never gets there, and the display clamps anyway. */
  lemma ProgressOvershootsFromOdd()
    ensures NextProgress(99) == 101 && DisplayedProgress(NextProgress(99)) == 100
  {
  }

  /** How one step row is drawn: `isActive` is `index === currentStep`,
      `isCompleted` is `index < currentStep`, and active takes precedence. */
  datatype StepStatus = Active | Completed | Pending

  function StatusOf(index: nat, current: nat): (st: StepStatus)
    ensures st == Active <==> index == current
    ensures st == Completed <==> index < current
    ensures st == Pending <==> index > current
  {
    if index == current then Active
    else if index < current then Completed
    else Pending
  }

  /** The statuses of the first `n` step rows. */
  function Statuses(n: nat, current: nat): (rows: seq<StepStatus>)
    ensures |rows| == n
  {
    if n == 0 then [] else Statuses(n - 1, current) + [StatusOf(n - 1, current)]
  }

  /** Each row's status is computed from its own index alone. */
  lemma {:induction false} StatusesAt(n: nat, current: nat, i: nat)
    requires i < n
    ensures Statuses(n, current)[i] == StatusOf(i, current)
  {
    if i < n - 1 {
      StatusesAt(n - 1, current, i);
    }
  }

  /** How many rows have status `st`. */
  function Count(rows: seq<StepStatus>, st: StepStatus): nat
  {
    if rows == [] then 0
    else Count(rows[..|rows| - 1], st) + (if rows[|rows| - 1] == st then 1 else 0)
  }

  lemma CountAppend(rows: seq<StepStatus>, last: StepStatus, st: StepStatus)
    ensures Count(rows + [last], st) == Count(rows, st) + (if last == st then 1 else 0)
  {
    assert (rows + [last])[..|rows|] == rows;
  }

  /** Among the first `n` rows exactly one is active if the current step is
      one of them, and none otherwise. */
  lemma {:induction false} ActiveCount(n: nat, current: nat)
    ensures Count(Statuses(n, current), Active) == if current < n then 1 else 0
  {
    if n > 0 {
      var prefix, last := Statuses(n - 1, current), StatusOf(n - 1, current);
      assert Statuses(n, current) == prefix + [last];
      ActiveCount(n - 1, current);
      CountAppend(prefix, last, Active);
    }
  }

  /** Among the first `n` rows those below the current step are completed. */
  lemma {:induction false} CompletedCount(n: nat, current: nat)
    ensures Count(Statuses(n, current), Completed) == Min(current, n)
  {
    if n > 0 {
      var prefix, last := Statuses(n - 1, current), StatusOf(n - 1, current);
      assert Statuses(n, current) == prefix + [last];
      CompletedCount(n - 1, current);
      CountAppend(prefix, last, Completed);
    }
  }

  /** With the step index in range, exactly one row is active and exactly
      `currentStep` rows, those before it, are completed. */
  lemma ExactlyOneActive(current: nat)
    requires current <= LastStep
    ensures Count(Statuses(StepCount, current), Active) == 1
    ensures Count(Statuses(StepCount, current), Completed) == current
  {
    ActiveCount(StepCount, current);
    CompletedCount(StepCount, current);
  }

  /** The progress screen's state. */
  class LoadingPage {
    var currentStep: nat
    var progress: nat
    var stepTimerActive: bool
    var progressTimerActive: bool
    var redirectTimerActive: bool
    /** How often each interval has fired so far. */
    ghost var stepTicks: nat
    ghost var progressTicks: nat

    ghost predicate Valid()
      reads this
    {
      currentStep == StepAfter(stepTicks) && progress == ProgressAfter(progressTicks)
    }

    /** Mounting: both counters at 0, the effect has started both intervals and
        the redirect timeout. */
    constructor ()
      ensures Valid()
      ensures currentStep == 0 && progress == 0
      ensures stepTimerActive && progressTimerActive && redirectTimerActive
    {
      currentStep, progress := 0, 0;
      stepTimerActive, progressTimerActive, redirectTimerActive := true, true, true;
      stepTicks, progressTicks := 0, 0;
    }

    /** One run of the step interval; nothing happens once it is cleared. */
    method StepTick()
      requires Valid()
      modifies this
      ensures Valid()
      ensures currentStep == if old(stepTimerActive) then NextStep(old(currentStep)) else old(currentStep)
      ensures old(currentStep) <= currentStep <= LastStep
      ensures progress == old(progress)
      ensures stepTimerActive == old(stepTimerActive) && progressTimerActive == old(progressTimerActive)
      ensures redirectTimerActive == old(redirectTimerActive)
    {
      StepAfterTicks(stepTicks);
      if stepTimerActive {
        currentStep := NextStep(currentStep);
        stepTicks := stepTicks + 1;
      }
    }

    /** One run of the progress interval; nothing happens once it is cleared. */
    method ProgressTick()
      requires Valid()
      modifies this
      ensures Valid()
      ensures progress == if old(progressTimerActive) then NextProgress(old(progress)) else old(progress)
      ensures old(progress) <= progress <= 100 && progress % 2 == 0
      ensures currentStep == old(currentStep)
      ensures stepTimerActive == old(stepTimerActive) && progressTimerActive == old(progressTimerActive)
      ensures redirectTimerActive == old(redirectTimerActive)
    {
      if progressTimerActive {
        progress := NextProgress(progress);
        progressTicks := progressTicks + 1;
      }
      ProgressAfterTicks(progressTicks);
    }

    /** The redirect timeout fires: the page moves on to the results whatever
        the two counters show, and leaves them as they are. */
    method RedirectTimerFires() returns (target: Option<Route>)
      requires Valid()
      modifies this
      ensures Valid()
      ensures target == if old(redirectTimerActive) then Some(ResultsRoute) else None
      ensures !redirectTimerActive
      ensures currentStep == old(currentStep) && progress == old(progress)
      ensures stepTimerActive == old(stepTimerActive) && progressTimerActive == old(progressTimerActive)
    {
      target := if redirectTimerActive then Some(ResultsRoute) else None;
      redirectTimerActive := false;
    }

    /** The effect's cleanup on leaving the screen: both intervals and the
        timeout are cleared; the counters are left as they are. */
    method Cleanup()
      requires Valid()
      modifies this
      ensures Valid()
      ensures !stepTimerActive && !progressTimerActive && !redirectTimerActive
      ensures currentStep == old(currentStep) && progress == old(progress)
    {
      stepTimerActive, progressTimerActive, redirectTimerActive := false, false, false;
    }

    /** What the percentage label and the bar show. */
    function Shown(): (shown: nat)
      reads this
      requires Valid()
      ensures shown == progress && shown <= 100
    {
      ProgressAfterTicks(progressTicks);
      DisplayedProgress(progress)
    }

    /** The status of each of the four step rows. */
    function StepRows(): (rows: seq<StepStatus>)
      reads this
      requires Valid()
      ensures |rows| == StepCount
      ensures Count(rows, Active) == 1 && Count(rows, Completed) == currentStep
    {
      StepAfterTicks(stepTicks);
      ExactlyOneActive(currentStep);
      Statuses(StepCount, currentStep)
    }
  }
}
