/** The miner's window bookkeeping: the window a block belongs to, the block
    listener's handler and its reconnect backoff, the timestamp query's
    retry schedule, the per-round global step and checkpoint cadence, and the
    catch-up replay that runs after a checkpoint is loaded. */
module MinerNode {
  import opened Common

  // ---------------------------------------------------------------------------
  // Doubling delays capped at 60 seconds

  const MaxRetries: nat := 5
  const MaxDelay: int := 60

  function Pow2(k: nat): nat {
    if k == 0 then 1 else 2 * Pow2(k - 1)
  }

  /** The delay before retry k + 1: 1, then doubled, never above 60. */
  function Delay(k: nat): int {
    if k == 0 then 1 else Min(2 * Delay(k - 1), MaxDelay)
  }

  lemma {:induction false} DelayClosedForm(k: nat)
    ensures Delay(k) == Min(Pow2(k), MaxDelay)
    ensures 1 <= Delay(k) <= MaxDelay
  {
    if k > 0 {
      DelayClosedForm(k - 1);
    }
  }

  /** The timestamp query of the round: `response(j)` is what attempt j gets
      (None when the query raises or returns no value). At most
      MaxRetries + 1 attempts are made; between failed attempts the delay
      doubles from 1. None means the last error is re-raised. */
  method QueryTimestamp(response: nat -> Option<int>) returns (ts: Option<real>, attempts: nat, sleeps: seq<int>)
    ensures 1 <= attempts <= MaxRetries + 1
    ensures forall j :: 0 <= j < attempts - 1 ==> response(j).None?
    ensures ts.Some? <==> response(attempts - 1).Some?
    ensures ts.Some? ==> ts.value == response(attempts - 1).value as real / 1000.0
    ensures ts.None? ==> attempts == MaxRetries + 1
    ensures |sleeps| == attempts - 1
    ensures forall k :: 0 <= k < |sleeps| ==> sleeps[k] == Delay(k)
  {
    var retries := 0;
    var delay := 1;
    sleeps := [];
    while true
      invariant 0 <= retries <= MaxRetries
      invariant delay == Delay(retries)
      invariant |sleeps| == retries && forall k :: 0 <= k < retries ==> sleeps[k] == Delay(k)
      invariant forall j :: 0 <= j < retries ==> response(j).None?
      decreases MaxRetries - retries
    {
      var r := response(retries);
      if r.Some? {
        return Some(r.value as real / 1000.0), retries + 1, sleeps;   // milliseconds to seconds
      }
      retries := retries + 1;
      if retries > MaxRetries {
        return None, retries, sleeps;
      }
      sleeps := sleeps + [delay];   // time.sleep(delay)
      delay := Min(delay * 2, MaxDelay);
    }
  }

  /** The number of failed subscriptions since the last clean return. */
  function TrailingFailures(outcomes: seq<bool>): nat {
    if outcomes == [] then 0
    else if outcomes[|outcomes| - 1] then 0
    else 1 + TrailingFailures(outcomes[..|outcomes| - 1])
  }

  function Failures(outcomes: seq<bool>): nat {
    if outcomes == [] then 0
    else Failures(outcomes[..|outcomes| - 1]) + (if outcomes[|outcomes| - 1] then 0 else 1)
  }

  /** The sleeps so far are the backoffs at each failure before i. */
  ghost predicate SleepsMatch(outcomes: seq<bool>, i: nat, sleeps: seq<int>)
    requires i <= |outcomes|
  {
    forall j :: 0 <= j < i && !outcomes[j] ==>
      Failures(outcomes[..j]) < |sleeps|
      && sleeps[Failures(outcomes[..j])] == Min(Pow2(TrailingFailures(outcomes[..j])), MaxDelay)
  }

  /** Sleeping for the backoff at failure i extends the match to i + 1. */
  lemma SleepsExtend(outcomes: seq<bool>, i: nat, sleeps: seq<int>, backoff: int)
    requires i < |outcomes| && !outcomes[i]
    requires SleepsMatch(outcomes, i, sleeps) && |sleeps| == Failures(outcomes[..i])
    requires backoff == Min(Pow2(TrailingFailures(outcomes[..i])), MaxDelay)
    ensures SleepsMatch(outcomes, i + 1, sleeps + [backoff])
  {
    var t := sleeps + [backoff];
    forall j | 0 <= j < i + 1 && !outcomes[j]
      ensures Failures(outcomes[..j]) < |t|
      ensures t[Failures(outcomes[..j])] == Min(Pow2(TrailingFailures(outcomes[..j])), MaxDelay)
    {
      if j < i {
        assert t[Failures(outcomes[..j])] == sleeps[Failures(outcomes[..j])];
      }
    }
  }

  /** The block listener's reconnect loop over successive subscription
      outcomes (true: the subscription returned, false: it raised). A clean
      return resets the backoff to 1; a failure sleeps for it and doubles it,
      up to 60. */
  method BlockListener(outcomes: seq<bool>) returns (backoff: int, sleeps: seq<int>)
    ensures backoff == Min(Pow2(TrailingFailures(outcomes)), MaxDelay)
    ensures |sleeps| == Failures(outcomes)
    ensures forall k :: 0 <= k < |sleeps| ==> 1 <= sleeps[k] <= MaxDelay
    ensures forall j :: 0 <= j < |outcomes| && !outcomes[j] ==>
              Failures(outcomes[..j]) < |sleeps|
              && sleeps[Failures(outcomes[..j])] == Min(Pow2(TrailingFailures(outcomes[..j])), MaxDelay)
  {
    backoff := 1;
    sleeps := [];
    var i := 0;
    while i < |outcomes|
      invariant 0 <= i <= |outcomes|
      invariant backoff == Delay(TrailingFailures(outcomes[..i]))
      invariant |sleeps| == Failures(outcomes[..i])
      invariant forall k :: 0 <= k < |sleeps| ==> 1 <= sleeps[k] <= MaxDelay
      invariant SleepsMatch(outcomes, i, sleeps)
    {
      assert outcomes[..i + 1][..i] == outcomes[..i];
      if outcomes[i] {
        backoff := 1;
      } else {
        DelayClosedForm(TrailingFailures(outcomes[..i]));
        SleepsExtend(outcomes, i, sleeps, backoff);
        sleeps := sleeps + [backoff];   // time.sleep(backoff)
        backoff := Min(backoff * 2, MaxDelay);
      }
      i := i + 1;
    }
    assert outcomes[..i] == outcomes;
    assert SleepsMatch(outcomes, |outcomes|, sleeps);
    DelayClosedForm(TrailingFailures(outcomes));
  }

  // ---------------------------------------------------------------------------
  // Catch-up: windows visited and windows applied

  /** s is the windows a, a + 1, ..., b - 1. */
  ghost predicate IsRange(s: seq<int>, a: int, b: int) {
    |s| == (if a < b then b - a else 0) && forall k :: 0 <= k < |s| ==> s[k] == a + k
  }

  /** The windows of s that have an aggregation, in order. */
  function Applied(s: seq<int>, hasAggregation: int -> bool): (r: seq<int>)
    ensures forall x :: x in r <==> x in s && hasAggregation(x)
    ensures |r| <= |s|
  {
    if s == [] then []
    else
      var init := s[..|s| - 1];
      assert s == init + [s[|s| - 1]];
      Applied(init, hasAggregation) + (if hasAggregation(s[|s| - 1]) then [s[|s| - 1]] else [])
  }

  lemma {:induction false} AppliedIncreasing(s: seq<int>, hasAggregation: int -> bool)
    requires StrictlyIncreasing(s)
    ensures StrictlyIncreasing(Applied(s, hasAggregation))
  {
    if s != [] {
      var init, last := s[..|s| - 1], s[|s| - 1];
      assert StrictlyIncreasing(init) by {
        forall i, j | 0 <= i < j < |init| ensures init[i] < init[j] {
          assert init[i] == s[i] && init[j] == s[j];
        }
      }
      AppliedIncreasing(init, hasAggregation);
      var a := Applied(init, hasAggregation);
      forall x | x in a ensures x < last {
        var k :| 0 <= k < |init| && init[k] == x;
        assert init[k] == s[k];
      }
      if hasAggregation(last) {
        var r := a + [last];
        forall i, j | 0 <= i < j < |r| ensures r[i] < r[j] {
          if j == |a| {
            assert r[i] in a;
          }
        }
      }
    }
  }

  lemma AppliedSnoc(s: seq<int>, x: int, hasAggregation: int -> bool)
    ensures Applied(s + [x], hasAggregation) == Applied(s, hasAggregation) + (if hasAggregation(x) then [x] else [])
  {
    assert (s + [x])[..|s + [x]| - 1] == s;
  }

  /** What the miner observes as `current_window` at its k-th look: the trace
      `readings`, then its last value for ever (the initial window when the
      trace is empty). */
  function Observed(readings: seq<int>, initial: int, k: nat): int {
    if k < |readings| then readings[k]
    else if readings == [] then initial
    else readings[|readings| - 1]
  }

  /** The environment's windows never decrease. */
  ghost predicate NonDecreasingFrom(readings: seq<int>, initial: int) {
    && (forall k :: 0 <= k < |readings| ==> initial <= readings[k])
    && (forall i, j :: 0 <= i < j < |readings| ==> readings[i] <= readings[j])
  }

  lemma ObservedBounds(readings: seq<int>, initial: int, k: nat)
    requires NonDecreasingFrom(readings, initial)
    ensures initial <= Observed(readings, initial, k) <= Observed(readings, initial, k + 1)
    ensures Observed(readings, initial, k) <= Observed(readings, initial, |readings|)
  {
  }

  class Miner {
    const blocksPerWindow: nat
    const checkpointFrequency: int
    var currentBlock: nat
    var currentWindow: int
    var startWindow: int
    var globalStep: int
    var windowStep: int
    /** How many times optimizer.step() and scheduler.step() have run. */
    var optimizerSteps: nat
    var schedulerSteps: nat

    ghost predicate Valid() {
      blocksPerWindow > 0 && checkpointFrequency != 0
    }

    constructor (block: nat, blocksPerWindow: nat, checkpointFrequency: int)
      requires blocksPerWindow > 0 && checkpointFrequency != 0
      ensures Valid() && this.blocksPerWindow == blocksPerWindow && this.checkpointFrequency == checkpointFrequency
      ensures currentBlock == block && currentWindow == WindowOf(block, blocksPerWindow)
      ensures startWindow == currentWindow && globalStep == 0 && windowStep == 0
      ensures optimizerSteps == 0 && schedulerSteps == 0
    {
      this.blocksPerWindow := blocksPerWindow;
      this.checkpointFrequency := checkpointFrequency;
      currentBlock := block;
      currentWindow := block / blocksPerWindow;
      startWindow := block / blocksPerWindow;
      globalStep, windowStep := 0, 0;
      optimizerSteps, schedulerSteps := 0, 0;
    }

    /** block_listener.handler: a new block header arrives. */
    method Handler(block: nat)
      requires Valid()
      modifies this
      ensures currentBlock == block && currentWindow == WindowOf(block, blocksPerWindow)
      ensures startWindow == old(startWindow) && globalStep == old(globalStep) && windowStep == old(windowStep)
      ensures optimizerSteps == old(optimizerSteps) && schedulerSteps == old(schedulerSteps)
    {
      currentBlock := block;
      var newWindow := block / blocksPerWindow;
      if newWindow != currentWindow {
        currentWindow := newWindow;
      }
    }

    /** The top of a training round: `step_window` and `global_step`. */
    method BeginRound() returns (stepWindow: int)
      modifies this
      ensures stepWindow == currentWindow && globalStep == currentWindow - startWindow
      ensures currentWindow == old(currentWindow) && startWindow == old(startWindow) && windowStep == old(windowStep)
      ensures currentBlock == old(currentBlock)
      ensures optimizerSteps == old(optimizerSteps) && schedulerSteps == old(schedulerSteps)
    {
      stepWindow := currentWindow;
      globalStep := currentWindow - startWindow;
    }

    /** `optimizer.step()` and `scheduler.step()` of a training round. */
    method StepOptimizer()
      modifies this
      ensures optimizerSteps == old(optimizerSteps) + 1 && schedulerSteps == old(schedulerSteps) + 1
      ensures globalStep == old(globalStep) && windowStep == old(windowStep)
      ensures currentWindow == old(currentWindow) && startWindow == old(startWindow) && currentBlock == old(currentBlock)
    {
      optimizerSteps := optimizerSteps + 1;
      schedulerSteps := schedulerSteps + 1;
    }

    /** The end of a training round: both step counters advance, and a
        checkpoint is launched when the new global step is a multiple of the
        checkpoint frequency. */
    method FinishRound() returns (launchCheckpoint: bool)
      requires Valid()
      modifies this
      ensures globalStep == old(globalStep) + 1 && windowStep == old(windowStep) + 1
      ensures launchCheckpoint == CheckpointDue(globalStep, checkpointFrequency)
      ensures currentWindow == old(currentWindow) && startWindow == old(startWindow) && currentBlock == old(currentBlock)
      ensures optimizerSteps == old(optimizerSteps) && schedulerSteps == old(schedulerSteps)
    {
      globalStep := globalStep + 1;
      windowStep := windowStep + 1;
      launchCheckpoint := globalStep % checkpointFrequency == 0;
    }

    /** The start of run(): the global step from the start window, then the
        checkpoint, if one loads, and a catch-up only when it is behind the
        current window. */
    method Resume(start: int, checkpointWindow: Option<int>, readings: seq<int>, hasAggregation: int -> bool)
      returns (ghost caughtUp: bool, ghost target: int, ghost visited: seq<int>, ghost applied: seq<int>)
      requires Valid() && NonDecreasingFrom(readings, currentWindow)
      modifies this
      ensures startWindow == start
      ensures caughtUp <==> checkpointWindow.Some? && checkpointWindow.value < old(currentWindow)
      ensures checkpointWindow.None? ==> globalStep == old(currentWindow) - start
      ensures checkpointWindow.Some? && !caughtUp ==> globalStep == checkpointWindow.value - start
      ensures !caughtUp ==> currentWindow == old(currentWindow) && visited == [] && applied == []
                            && optimizerSteps == old(optimizerSteps) && schedulerSteps == old(schedulerSteps)
      ensures caughtUp ==> CatchupOutcome(checkpointWindow.value, old(currentWindow), readings, hasAggregation,
                                          target, visited, applied)
                           && globalStep == target - start && currentWindow == target
                           && optimizerSteps == old(optimizerSteps) + |applied|
                           && schedulerSteps == old(schedulerSteps) + |applied|
    {
      startWindow := start;
      globalStep := currentWindow - startWindow;
      caughtUp, target, visited, applied := false, currentWindow, [], [];
      if checkpointWindow.Some? {
        globalStep := checkpointWindow.value - startWindow;
        if checkpointWindow.value < currentWindow {
          caughtUp := true;
          ghost var stepAtEnd;
          target, visited, applied, stepAtEnd := Catchup(checkpointWindow.value, readings, hasAggregation);
        }
      }
    }

    /** catchup_with_aggregation_server. `readings` is the trace of
        `current_window` values the loop observes, one per iteration;
        `hasAggregation(w)` says whether load_aggregation(w) returns data. */
    method Catchup(checkpointWindow: int, readings: seq<int>, hasAggregation: int -> bool)
      returns (ghost target: int, ghost visited: seq<int>, ghost applied: seq<int>, ghost stepAtEnd: int)
      requires NonDecreasingFrom(readings, currentWindow)
      modifies this
      ensures CatchupOutcome(checkpointWindow, old(currentWindow), readings, hasAggregation, target, visited, applied)
      ensures currentWindow == target
      ensures optimizerSteps == old(optimizerSteps) + |applied| && schedulerSteps == old(schedulerSteps) + |applied|
      // the global step only moves on applied windows, and is then reset to the target
      ensures stepAtEnd == if applied == [] then old(globalStep) else applied[|applied| - 1] - startWindow
      ensures globalStep == target - startWindow
      ensures startWindow == old(startWindow) && windowStep == old(windowStep) && currentBlock == old(currentBlock)
    {
      var visitedWindows, appliedWindows;
      var targetWindow, lastSeen, step;
      targetWindow, lastSeen, step, visitedWindows, appliedWindows :=
        CatchupLoop(checkpointWindow, currentWindow, readings, hasAggregation, startWindow, globalStep);
      currentWindow := lastSeen;
      optimizerSteps, schedulerSteps := optimizerSteps + |appliedWindows|, schedulerSteps + |appliedWindows|;
      target, visited, applied, stepAtEnd := targetWindow, visitedWindows, appliedWindows, step;
      globalStep := targetWindow - startWindow;
    }
  }

  /** The catch-up target after n looks at `current_window`: the initial
      window before the first look, then the latest window observed. */
  function TargetAfter(readings: seq<int>, initial: int, n: nat): int {
    if n == 0 then initial else Observed(readings, initial, n - 1)
  }

  /** A look never lowers the target: the look's window becomes the target. */
  lemma TargetStep(readings: seq<int>, initial: int, n: nat)
    requires NonDecreasingFrom(readings, initial)
    ensures TargetAfter(readings, initial, n) <= Observed(readings, initial, n)
    ensures TargetAfter(readings, initial, n + 1) == Observed(readings, initial, n)
    ensures initial <= Observed(readings, initial, n) <= Observed(readings, initial, |readings|)
  {
    ObservedBounds(readings, initial, n);
    if n > 0 {
      ObservedBounds(readings, initial, n - 1);
    }
  }

  /** Each visited window passed the loop test: it was at most the target
      held just before it was visited. */
  ghost predicate LooksWithinTarget(readings: seq<int>, initial: int, visited: seq<int>) {
    forall k :: 0 <= k < |visited| ==> visited[k] <= TargetAfter(readings, initial, k)
  }

  lemma LooksWithinTargetSnoc(readings: seq<int>, initial: int, visited: seq<int>, w: int)
    requires LooksWithinTarget(readings, initial, visited)
    requires w <= TargetAfter(readings, initial, |visited|)
    ensures LooksWithinTarget(readings, initial, visited + [w])
  {
    forall k | 0 <= k < |visited| + 1
      ensures (visited + [w])[k] <= TargetAfter(readings, initial, k)
    {
      if k < |visited| {
        assert (visited + [w])[k] == visited[k];
      }
    }
  }

  lemma IsRangeSnoc(s: seq<int>, a: int, b: int)
    requires a <= b && IsRange(s, a, b)
    ensures IsRange(s + [b], a, b + 1)
  {
  }

  /** What holds at the head of the catch-up loop, with `current` the next
      window to visit: the windows visited so far run from checkpoint + 1 up
      to it, each passed the loop test, the target is the window of the last
      look, and the applied windows are the visited ones with an
      aggregation. */
  ghost predicate CatchupInv(checkpointWindow: int, initial: int, readings: seq<int>, hasAggregation: int -> bool,
                             current: int, target: int, visited: seq<int>, applied: seq<int>) {
    && checkpointWindow + 1 <= current
    && IsRange(visited, checkpointWindow + 1, current)
    && (current <= target + 1 || visited == [])
    && target == TargetAfter(readings, initial, |visited|)
    && LooksWithinTarget(readings, initial, visited)
    && initial <= target <= Observed(readings, initial, |readings|)
    && applied == Applied(visited, hasAggregation)
  }

  /** One pass of the loop body keeps CatchupInv: the look raises the target
      to the observed window, and the window is visited, and applied when it
      has an aggregation. */
  lemma CatchupInvStep(checkpointWindow: int, initial: int, readings: seq<int>, hasAggregation: int -> bool,
                       current: int, target: int, visited: seq<int>, applied: seq<int>)
    requires NonDecreasingFrom(readings, initial)
    requires CatchupInv(checkpointWindow, initial, readings, hasAggregation, current, target, visited, applied)
    requires current <= target
    ensures target <= Observed(readings, initial, |visited|)
    ensures Applied(visited + [current], hasAggregation) == if hasAggregation(current) then applied + [current] else applied
    ensures CatchupInv(checkpointWindow, initial, readings, hasAggregation, current + 1,
                       Observed(readings, initial, |visited|), visited + [current],
                       Applied(visited + [current], hasAggregation))
  {
    TargetStep(readings, initial, |visited|);
    AppliedSnoc(visited, current, hasAggregation);
    IsRangeSnoc(visited, checkpointWindow + 1, current);
    LooksWithinTargetSnoc(readings, initial, visited, current);
  }

  /** When the loop test fails, the head state is a catch-up outcome. */
  lemma CatchupInvExit(checkpointWindow: int, initial: int, readings: seq<int>, hasAggregation: int -> bool,
                       current: int, target: int, visited: seq<int>, applied: seq<int>)
    requires CatchupInv(checkpointWindow, initial, readings, hasAggregation, current, target, visited, applied)
    requires target < current
    ensures CatchupOutcome(checkpointWindow, initial, readings, hasAggregation, target, visited, applied)
  {
  }

  /** The global step the applied windows leave behind: that of the last
      one applied, or the step catch-up started from. */
  function StepAfter(applied: seq<int>, globalStep: int, startWindow: int): int {
    if applied == [] then globalStep else applied[|applied| - 1] - startWindow
  }

  /** The loop of catchup_with_aggregation_server, on the values it moves:
      it returns the final target, the last observed window, the global step
      the applied windows left behind, and the windows visited and applied. */
  method CatchupLoop(checkpointWindow: int, initial: int, readings: seq<int>, hasAggregation: int -> bool,
                     startWindow: int, globalStep: int)
    returns (targetWindow: int, seen: int, step: int, visited: seq<int>, applied: seq<int>)
    requires NonDecreasingFrom(readings, initial)
    ensures CatchupOutcome(checkpointWindow, initial, readings, hasAggregation, targetWindow, visited, applied)
    ensures seen == targetWindow
    ensures step == if applied == [] then globalStep else applied[|applied| - 1] - startWindow
  {
    ghost var bound := Observed(readings, initial, |readings|);
    var currentStep := checkpointWindow + 1;
    targetWindow := initial;
    seen, step := initial, globalStep;
    visited, applied := [], [];
    ObservedBounds(readings, initial, 0);
    while currentStep <= targetWindow
      invariant CatchupInv(checkpointWindow, initial, readings, hasAggregation, currentStep, targetWindow, visited, applied)
      invariant seen == targetWindow
      invariant step == StepAfter(applied, globalStep, startWindow)
      decreases bound + 1 - currentStep
    {
      CatchupInvStep(checkpointWindow, initial, readings, hasAggregation, currentStep, targetWindow, visited, applied);
      seen := Observed(readings, initial, |visited|);   // the listener's latest current_window
      targetWindow := Max(targetWindow, seen);          // raised when current_window moved past it
      visited := visited + [currentStep];
      if hasAggregation(currentStep) {
        // global_step from the window, then optimizer.step() and scheduler.step()
        applied := applied + [currentStep];
        step := currentStep - startWindow;
      }
      // a window without an aggregation is skipped: nothing but the step moves
      currentStep := currentStep + 1;
    }
    CatchupInvExit(checkpointWindow, initial, readings, hasAggregation, currentStep, targetWindow, visited, applied);
  }

  /** What catch-up did: it visited every window from checkpoint + 1 to the
      final target once, in increasing order, and applied exactly those with
      an aggregation; the target is the current window the miner observed at
      its last look (the initial window when it never looked), so the loop
      only stops once it has passed the latest window. */
  ghost predicate CatchupOutcome(checkpointWindow: int, initial: int, readings: seq<int>, hasAggregation: int -> bool,
                                 target: int, visited: seq<int>, applied: seq<int>) {
    && initial <= target
    && target == TargetAfter(readings, initial, |visited|)
    && LooksWithinTarget(readings, initial, visited)
    && IsRange(visited, checkpointWindow + 1, target + 1)
    && applied == Applied(visited, hasAggregation)
  }

  /** The visited windows are consecutive and increasing, so each is visited
      once; the applied ones keep that order. */
  lemma CatchupVisitsEachWindowOnce(checkpointWindow: int, initial: int, readings: seq<int>, hasAggregation: int -> bool,
                                    target: int, visited: seq<int>, applied: seq<int>)
    requires CatchupOutcome(checkpointWindow, initial, readings, hasAggregation, target, visited, applied)
    ensures StrictlyIncreasing(visited) && StrictlyIncreasing(applied)
    ensures forall w :: w in visited <==> checkpointWindow < w <= target
    ensures forall w :: w in applied <==> checkpointWindow < w <= target && hasAggregation(w)
    ensures target == initial || target in readings
  {
    AppliedIncreasing(visited, hasAggregation);
    forall w | checkpointWindow < w <= target ensures w in visited {
      assert visited[w - checkpointWindow - 1] == w;
    }
  }

  /** The loop stops at the first look after which the next window is past
      the target, so the readings decide the outcome: two outcomes from the
      same inputs are the same. */
  lemma CatchupOutcomeUnique(checkpointWindow: int, initial: int, readings: seq<int>, hasAggregation: int -> bool,
                             target1: int, visited1: seq<int>, applied1: seq<int>,
                             target2: int, visited2: seq<int>, applied2: seq<int>)
    requires CatchupOutcome(checkpointWindow, initial, readings, hasAggregation, target1, visited1, applied1)
    requires CatchupOutcome(checkpointWindow, initial, readings, hasAggregation, target2, visited2, applied2)
    ensures target1 == target2 && visited1 == visited2 && applied1 == applied2
  {
  }
}
