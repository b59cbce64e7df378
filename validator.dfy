/** The validator's round bookkeeping: the offset-gated advance of the sync
    window, the own uid on the peer list, the capped evaluation passes and
    what they record per peer, the binary-indicator moving average, the
    checkpoint cadence, the global-step merge from the gathered peers, and
    the block listener's handler. */
module ValidatorNode {
  import opened Common

  const InitialAlpha: real := 0.95
  const Alpha: real := 0.05
  /** `if i > 3: break`: a loss pass runs at most this many batches. */
  const MaxEvalBatches: nat := 4

  // ---------------------------------------------------------------------------
  // Loss passes

  function Sum(s: seq<real>): real {
    if s == [] then 0.0 else Sum(s[..|s| - 1]) + s[|s| - 1]
  }

  /** `loss / n_batches if n_batches > 0 else 0` over the batches a pass runs. */
  function MeanLoss(losses: seq<real>): real {
    var n := Min(|losses|, MaxEvalBatches);
    if n > 0 then Sum(losses[..n]) / n as real else 0.0
  }

  /** A loss pass over a loader whose batches have the given losses: the
      loop stops after the fourth batch. */
  method LossPass(losses: seq<real>) returns (perBatch: real, batches: nat)
    ensures batches == Min(|losses|, MaxEvalBatches) && batches <= MaxEvalBatches
    ensures perBatch == MeanLoss(losses)
  {
    var total := 0.0;
    batches := 0;
    var i := 0;
    while i < |losses|
      invariant 0 <= i <= |losses| && i <= MaxEvalBatches
      invariant batches == i && total == Sum(losses[..i])
    {
      if i > 3 {
        break;
      }
      assert losses[..i + 1][..i] == losses[..i];
      total := total + losses[i];
      batches := batches + 1;
      i := i + 1;
    }
    perBatch := if batches > 0 then total / batches as real else 0.0;
  }

  /** Batches after the fourth never matter. */
  lemma MeanLossIgnoresLaterBatches(losses: seq<real>, more: seq<real>)
    requires |losses| >= MaxEvalBatches
    ensures MeanLoss(losses + more) == MeanLoss(losses)
  {
    assert (losses + more)[..MaxEvalBatches] == losses[..MaxEvalBatches];
  }

  lemma {:induction false} SumBounds(s: seq<real>, lo: real, hi: real)
    requires forall j :: 0 <= j < |s| ==> lo <= s[j] <= hi
    ensures |s| as real * lo <= Sum(s) <= |s| as real * hi
  {
    if s != [] {
      SumBounds(s[..|s| - 1], lo, hi);
    }
  }

  /** A pass that ran has a mean within the bounds of its batch losses. */
  lemma MeanLossBounds(losses: seq<real>, lo: real, hi: real)
    requires losses != [] && forall j :: 0 <= j < |losses| ==> lo <= losses[j] <= hi
    ensures lo <= MeanLoss(losses) <= hi
  {
    var n := Min(|losses|, MaxEvalBatches);
    SumBounds(losses[..n], lo, hi);
    var s := Sum(losses[..n]);
    assert n as real * lo <= s <= n as real * hi;
    assert s / n as real <= hi by {
      assert s <= hi * n as real;
    }
    assert lo <= s / n as real by {
      assert lo * n as real <= s;
    }
  }

  // ---------------------------------------------------------------------------
  // Evaluation of the peers' gradients

  /** `100 * (1 - after / before)` */
  function Improvement(before: real, after: real): real
    requires before != 0.0
  {
    100.0 * (1.0 - after / before)
  }

  /** The evaluation loop's outcome: the two improvement dicts, or the
      ZeroDivisionError the improvement raises for a peer whose pass before
      the update had a mean loss of 0. */
  datatype EvalOutcome =
    | Evaluated(own: map<int, real>, other: map<int, real>)
    | ZeroDivision(uid: int)

  /** A peer's gradient arrived and both passes can be divided. */
  predicate Scorable(u: int, received: int -> bool, lossesBefore: int -> seq<real>) {
    received(u) && MeanLoss(lossesBefore(u)) != 0.0
  }

  /** The evaluation loop over the peer list. `received(u)` says whether
      get() returned anything but None for u (the loop skips u only on None); `lossesBefore(u)`/`lossesAfter(u)` are
      the batch losses of u's loader before and after its gradient is
      applied. The second, "random data" improvement is computed from the
      same two means as the first. */
  method EvaluatePeers(peers: seq<int>, received: int -> bool,
                       lossesBefore: int -> seq<real>, lossesAfter: int -> seq<real>)
    returns (outcome: EvalOutcome)
    ensures outcome.Evaluated? <==> forall k :: 0 <= k < |peers| && received(peers[k]) ==> Scorable(peers[k], received, lossesBefore)
    ensures outcome.ZeroDivision? ==>
              && outcome.uid in peers && received(outcome.uid) && MeanLoss(lossesBefore(outcome.uid)) == 0.0
    // the error is raised at the first received peer in list order whose pass before had mean 0
    ensures outcome.ZeroDivision? ==>
              exists k :: 0 <= k < |peers| && peers[k] == outcome.uid
                          && forall j :: 0 <= j < k && received(peers[j]) ==> Scorable(peers[j], received, lossesBefore)
    ensures outcome.Evaluated? ==>
              && (forall u :: u in outcome.own <==> u in peers && received(u))
              && outcome.other == outcome.own
              && (forall u :: u in outcome.own ==>
                    Scorable(u, received, lossesBefore)
                    && outcome.own[u] == Improvement(MeanLoss(lossesBefore(u)), MeanLoss(lossesAfter(u))))
  {
    var own: map<int, real> := map[];
    var other: map<int, real> := map[];
    var i := 0;
    while i < |peers|
      invariant 0 <= i <= |peers|
      invariant forall k :: 0 <= k < i && received(peers[k]) ==> Scorable(peers[k], received, lossesBefore)
      invariant forall u :: u in own <==> u in peers[..i] && received(u)
      invariant other == own
      invariant forall u :: u in own ==>
                  Scorable(u, received, lossesBefore)
                  && own[u] == Improvement(MeanLoss(lossesBefore(u)), MeanLoss(lossesAfter(u)))
    {
      var u := peers[i];
      if received(u) {
        var before, _ := LossPass(lossesBefore(u));
        var after, _ := LossPass(lossesAfter(u));
        if before == 0.0 {
          return ZeroDivision(u);
        }
        own := own[u := 100.0 * (1.0 - after / before)];
        other := other[u := 100.0 * (1.0 - after / before)];
      }
      assert peers[..i + 1] == peers[..i] + [u];
      i := i + 1;
    }
    assert peers[..i] == peers;
    outcome := Evaluated(own, other);
  }

  // ---------------------------------------------------------------------------
  // The binary-indicator moving average

  /** +1 when the improvement on random data is below the one on the peer's
      own data, and -1 otherwise. */
  function Indicator(other: real, own: real): real {
    if other < own then 1.0 else -1.0
  }

  /** `(1 - alpha) * prev + alpha * b` */
  function Blend(prev: real, b: real, alpha: real): real {
    (1.0 - alpha) * prev + alpha * b
  }

  /** The moving averages once the uids in `done` have been updated. */
  function UpdatedOn(avg: map<int, real>, own: map<int, real>, other: map<int, real>, alpha: real, done: set<int>): map<int, real> {
    map u | u in avg.Keys + (done * own.Keys * other.Keys) ::
      if u in done && u in own && u in other
      then Blend(if u in avg then avg[u] else 0.0, Indicator(other[u], own[u]), alpha)
      else avg[u]
  }

  /** The moving averages after an update pass: every uid with both
      improvements gets the blend of its previous average (0 when it has
      none) with its indicator; every other uid keeps its average. */
  function UpdatedAverages(avg: map<int, real>, own: map<int, real>, other: map<int, real>, alpha: real): (r: map<int, real>)
    ensures r.Keys == avg.Keys + (own.Keys * other.Keys)
    ensures forall u :: u in avg && !(u in own && u in other) ==> r[u] == avg[u]
    ensures forall u :: u in own && u in other ==>
              r[u] == Blend(if u in avg then avg[u] else 0.0, Indicator(other[u], own[u]), alpha)
  {
    UpdatedOn(avg, own, other, alpha, own.Keys)
  }

  /** Updating one more uid changes that uid's entry only, computed from
      its entry so far. */
  lemma UpdatedOnStep(avg: map<int, real>, own: map<int, real>, other: map<int, real>, alpha: real, done: set<int>, u: int)
    requires u in own && u !in done
    ensures var cur := UpdatedOn(avg, own, other, alpha, done);
            UpdatedOn(avg, own, other, alpha, done + {u}) ==
              if u in other
              then cur[u := Blend(if u in cur then cur[u] else 0.0, Indicator(other[u], own[u]), alpha)]
              else cur
  {
  }

  ghost predicate InUnitRange(avg: map<int, real>) {
    forall u :: u in avg ==> -1.0 <= avg[u] <= 1.0
  }

  lemma NonNegativeProduct(a: real, b: real)
    requires a >= 0.0 && b >= 0.0
    ensures a * b >= 0.0
  {
  }

  lemma BlendInUnitRange(prev: real, b: real, alpha: real)
    requires -1.0 <= prev <= 1.0 && -1.0 <= b <= 1.0 && 0.0 <= alpha <= 1.0
    ensures -1.0 <= Blend(prev, b, alpha) <= 1.0
  {
    NonNegativeProduct(1.0 - alpha, 1.0 - prev);
    NonNegativeProduct(1.0 - alpha, prev + 1.0);
    NonNegativeProduct(alpha, 1.0 - b);
    NonNegativeProduct(alpha, b + 1.0);
  }

  /** Averages in [-1, 1] stay there. */
  lemma UpdatedAveragesInUnitRange(avg: map<int, real>, own: map<int, real>, other: map<int, real>, alpha: real)
    requires InUnitRange(avg) && 0.0 <= alpha <= 1.0
    ensures InUnitRange(UpdatedAverages(avg, own, other, alpha))
  {
    var r := UpdatedAverages(avg, own, other, alpha);
    forall u | u in r ensures -1.0 <= r[u] <= 1.0 {
      if u in own && u in other {
        BlendInUnitRange(if u in avg then avg[u] else 0.0, Indicator(other[u], own[u]), alpha);
      }
    }
  }

  /** With the two improvements equal, as the evaluation loop records them,
      every updated uid gets the indicator -1: its average moves towards -1
      and drops whenever it was above -1. */
  lemma EqualImprovementsLower(avg: map<int, real>, own: map<int, real>, alpha: real, u: int)
    requires 0.0 < alpha <= 1.0 && u in own
    ensures var r := UpdatedAverages(avg, own, own, alpha);
            var prev := if u in avg then avg[u] else 0.0;
            && r[u] == (1.0 - alpha) * prev - alpha
            && (prev > -1.0 ==> r[u] < prev)
  {
    var prev := if u in avg then avg[u] else 0.0;
    assert Indicator(own[u], own[u]) == -1.0;
    if prev > -1.0 {
      PositiveProduct(alpha, prev + 1.0);
    }
  }

  lemma PositiveProduct(a: real, b: real)
    requires a > 0.0 && b > 0.0
    ensures a * b > 0.0
  {
  }

  /** The loop of the update pass, one uid of `own` at a time in whatever
      order the dict yields them: each uid also in `other` gets its blended
      entry. */
  method BlendAll(start: map<int, real>, own: map<int, real>, other: map<int, real>, alpha: real)
    returns (avg: map<int, real>)
    ensures avg == UpdatedAverages(start, own, other, alpha)
  {
    avg := start;
    var pending := own.Keys;
    ghost var done: set<int> := {};
    while pending != {}
      invariant pending <= own.Keys && done == own.Keys - pending
      invariant avg == UpdatedOn(start, own, other, alpha, done)
      decreases pending
    {
      HasElement(pending);
      var u :| u in pending;
      UpdatedOnStep(start, own, other, alpha, done, u);
      if u in other {
        var b := Indicator(other[u], own[u]);
        var prev := if u in avg then avg[u] else 0.0;   // .get(uid, 0)
        avg := avg[u := Blend(prev, b, alpha)];
      }
      done, pending := done + {u}, pending - {u};
    }
    assert done == own.Keys;
  }

  lemma HasElement(s: set<int>)
    requires s != {}
    ensures exists x :: x in s
  {
    if forall x :: x !in s {
      assert false;
    }
  }

  // ---------------------------------------------------------------------------
  // The validator

  /** The position of the first occurrence of x in s. */
  function FirstIndex(s: seq<int>, x: int): (i: nat)
    requires x in s
    ensures i < |s| && s[i] == x && x !in s[..i]
  {
    if s[0] == x then 0
    else
      var i := FirstIndex(s[1..], x);
      assert s[..i + 1] == [s[0]] + s[1..][..i];
      i + 1
  }

  /** `list.remove(x)`: s without the first occurrence of x. */
  function RemoveFirst(s: seq<int>, x: int): seq<int>
    requires x in s
  {
    var i := FirstIndex(s, x);
    s[..i] + s[i + 1..]
  }

  /** Removal takes out exactly one occurrence, and the rest stays in order. */
  lemma RemoveFirstCount(s: seq<int>, x: int)
    requires x in s
    ensures multiset(RemoveFirst(s, x)) == multiset(s) - multiset{x}
    ensures |RemoveFirst(s, x)| == |s| - 1
    ensures multiset(s)[x] == 1 ==> x !in RemoveFirst(s, x)
  {
    var i := FirstIndex(s, x);
    assert s == s[..i] + [s[i]] + s[i + 1..];
    assert multiset(s) == multiset(s[..i]) + multiset{x} + multiset(s[i + 1..]);
    if multiset(s)[x] == 1 {
      assert x in multiset(RemoveFirst(s, x)) ==> multiset(s)[x] >= 2;
    }
  }

  // ---------------------------------------------------------------------------
  // Applying the gathered gradients

  /** The parameters the validator's update loop gives a gradient, in
      `named_parameters` order: those whose `idxs` and `vals` attributes are
      both present in the gathered state dict (getattr with a None default). */
  function GradientParams(state: StateDict, paramNames: seq<string>): (r: seq<string>)
    ensures forall n :: n in r <==> n in paramNames && n + "idxs" in state && n + "vals" in state
    ensures |r| <= |paramNames|
  {
    if paramNames == [] then []
    else
      var init, n := paramNames[..|paramNames| - 1], paramNames[|paramNames| - 1];
      assert paramNames == init + [n];
      GradientParams(state, init) + (if n + "idxs" in state && n + "vals" in state then [n] else [])
  }

  /** The loop over named_parameters after a gather: a parameter with both
      attributes gets the decoded gradient and its sign (tensor arithmetic);
      the others are skipped. */
  method ApplyGatheredState(state: StateDict, paramNames: seq<string>) returns (updated: seq<string>)
    ensures updated == GradientParams(state, paramNames)
  {
    updated := [];
    var i := 0;
    while i < |paramNames|
      invariant 0 <= i <= |paramNames|
      invariant updated == GradientParams(state, paramNames[..i])
    {
      assert paramNames[..i + 1][..i] == paramNames[..i];
      var idxsKey, valsKey := paramNames[i] + "idxs", paramNames[i] + "vals";
      if idxsKey in state && valsKey in state {
        updated := updated + [paramNames[i]];
      }
      i := i + 1;
    }
    assert paramNames[..i] == paramNames;
  }

  class Validator {
    const uid: int
    const blocksPerWindow: nat
    const validatorOffset: int
    const checkpointFrequency: int
    var currentBlock: nat
    var currentWindow: int
    /** `comms.current_window`, kept in step with `current_window`. */
    var commsWindow: int
    var syncWindow: int
    var globalStep: int
    var windowStep: int
    var maAlpha: real
    var peers: seq<int>
    /** `loss_improvement_moving_avg` */
    var movingAvg: map<int, real>
    /** How many times optimizer.step() and scheduler.step() have run. */
    var optimizerSteps: nat
    var schedulerSteps: nat

    ghost predicate Valid() reads this {
      && blocksPerWindow > 0 && checkpointFrequency != 0
      && commsWindow == currentWindow
      && maAlpha == Alpha
      && InUnitRange(movingAvg)
    }

    constructor (uid: int, block: nat, blocksPerWindow: nat, validatorOffset: int, checkpointFrequency: int)
      requires blocksPerWindow > 0 && checkpointFrequency != 0
      ensures Valid()
      ensures this.uid == uid && this.blocksPerWindow == blocksPerWindow
      ensures this.validatorOffset == validatorOffset && this.checkpointFrequency == checkpointFrequency
      ensures currentBlock == block && currentWindow == WindowOf(block, blocksPerWindow)
      ensures syncWindow == currentWindow && globalStep == 0 && windowStep == 0
      ensures peers == [] && movingAvg == map[]
      ensures optimizerSteps == 0 && schedulerSteps == 0
    {
      this.uid := uid;
      this.blocksPerWindow := blocksPerWindow;
      this.validatorOffset := validatorOffset;
      this.checkpointFrequency := checkpointFrequency;
      currentBlock := block;
      currentWindow := block / blocksPerWindow;
      commsWindow := block / blocksPerWindow;
      syncWindow := block / blocksPerWindow;
      maAlpha := InitialAlpha;
      globalStep, windowStep := 0, 0;
      peers := [];
      movingAvg := map[];
      optimizerSteps, schedulerSteps := 0, 0;
      maAlpha := Alpha;   // the later, lower alpha overrides the first
    }

    /** The start of run(): the configured peers, or the comms peers when
        none are configured, with the own uid appended when absent; the
        global step starts over. */
    method LoadPeers(configPeers: seq<int>, commsPeers: seq<int>)
      requires Valid()
      modifies this
      ensures Valid()
      ensures var base := if configPeers == [] then commsPeers else configPeers;
              peers == base + (if uid in base then [] else [uid])
      ensures uid in peers && globalStep == 0
      ensures syncWindow == old(syncWindow) && currentWindow == old(currentWindow) && commsWindow == old(commsWindow)
      ensures movingAvg == old(movingAvg) && maAlpha == old(maAlpha) && windowStep == old(windowStep)
      ensures currentBlock == old(currentBlock)
      ensures optimizerSteps == old(optimizerSteps) && schedulerSteps == old(schedulerSteps)
    {
      if configPeers == [] {
        peers := commsPeers;
      } else {
        peers := configPeers;
      }
      if uid !in peers {
        peers := peers + [uid];
      }
      globalStep := 0;
    }

    /** The top of a round: wait until the sync window is more than the
        offset behind the current window, then advance it by one.
        `readings` is what the listener has made of `current_window` at each
        check after a sleep; the chain is assumed to get far enough ahead
        within it. */
    method AdvanceSync(readings: seq<int>) returns (stepWindow: int, waited: nat)
      requires Valid()
      requires syncWindow < currentWindow - validatorOffset
               || exists k :: 0 <= k < |readings| && syncWindow < readings[k] - validatorOffset
      modifies this
      ensures Valid()
      ensures waited <= |readings|
      ensures currentWindow == if waited == 0 then old(currentWindow) else readings[waited - 1]
      ensures waited > 0 ==> old(syncWindow) >= old(currentWindow) - validatorOffset
      ensures forall k :: 0 <= k < waited - 1 ==> old(syncWindow) >= readings[k] - validatorOffset
      ensures old(syncWindow) < currentWindow - validatorOffset
      ensures syncWindow == old(syncWindow) + 1 && stepWindow == syncWindow + 1
      ensures syncWindow <= currentWindow - validatorOffset
      ensures globalStep == old(globalStep) && windowStep == old(windowStep) && peers == old(peers)
      ensures movingAvg == old(movingAvg) && maAlpha == old(maAlpha) && currentBlock == old(currentBlock)
      ensures optimizerSteps == old(optimizerSteps) && schedulerSteps == old(schedulerSteps)
    {
      waited := 0;
      while syncWindow >= currentWindow - validatorOffset
        invariant waited <= |readings|
        invariant currentWindow == if waited == 0 then old(currentWindow) else readings[waited - 1]
        invariant commsWindow == currentWindow
        invariant waited > 0 ==> old(syncWindow) >= old(currentWindow) - validatorOffset
        invariant forall k :: 0 <= k < waited - 1 ==> syncWindow >= readings[k] - validatorOffset
        invariant syncWindow == old(syncWindow) && globalStep == old(globalStep) && peers == old(peers)
        invariant movingAvg == old(movingAvg) && maAlpha == old(maAlpha) && currentBlock == old(currentBlock)
        invariant windowStep == old(windowStep)
        invariant optimizerSteps == old(optimizerSteps) && schedulerSteps == old(schedulerSteps)
        invariant syncWindow >= currentWindow - validatorOffset ==>
                    exists k :: waited <= k < |readings| && syncWindow < readings[k] - validatorOffset
        decreases |readings| - waited
      {
        // asyncio.sleep(12); meanwhile the listener moves current_window on
        currentWindow := readings[waited];
        commsWindow := readings[waited];
        waited := waited + 1;
      }
      syncWindow := syncWindow + 1;
      stepWindow := syncWindow + 1;
    }

    /** `if self.uid in self.peers: self.peers.remove(self.uid)` after the
        round's peers are taken from comms. */
    method RefreshPeers(commsPeers: seq<int>)
      requires Valid()
      modifies this
      ensures Valid()
      ensures peers == if uid in commsPeers then RemoveFirst(commsPeers, uid) else commsPeers
      ensures multiset(peers) == multiset(commsPeers) - multiset{uid}
      ensures syncWindow == old(syncWindow) && currentWindow == old(currentWindow) && globalStep == old(globalStep)
      ensures movingAvg == old(movingAvg) && maAlpha == old(maAlpha) && windowStep == old(windowStep)
      ensures commsWindow == old(commsWindow) && currentBlock == old(currentBlock)
      ensures optimizerSteps == old(optimizerSteps) && schedulerSteps == old(schedulerSteps)
    {
      peers := commsPeers;
      if uid in peers {
        RemoveFirstCount(peers, uid);
        peers := RemoveFirst(peers, uid);
      }
    }

    /** The update pass over the uids of the first improvement dict. */
    method UpdateMovingAverages(own: map<int, real>, other: map<int, real>)
      requires Valid()
      modifies this
      ensures Valid()
      ensures movingAvg == UpdatedAverages(old(movingAvg), own, other, maAlpha)
      ensures syncWindow == old(syncWindow) && currentWindow == old(currentWindow) && globalStep == old(globalStep)
      ensures peers == old(peers) && maAlpha == old(maAlpha) && windowStep == old(windowStep)
      ensures commsWindow == old(commsWindow) && currentBlock == old(currentBlock)
      ensures optimizerSteps == old(optimizerSteps) && schedulerSteps == old(schedulerSteps)
    {
      UpdatedAveragesInUnitRange(movingAvg, own, other, maAlpha);
      movingAvg := BlendAll(movingAvg, own, other, maAlpha);
    }

    /** A checkpoint is written when the global step is a multiple of the
        checkpoint frequency (see CheckpointPeriodic for the cadence). */
    method CheckpointDueNow() returns (launch: bool)
      requires Valid()
      ensures launch == CheckpointDue(globalStep, checkpointFrequency)
    {
      launch := globalStep % checkpointFrequency == 0;
    }

    /** With a gather result, the global step becomes the maximum of the
        peers' reported steps and its own, plus one, after one optimizer and
        one scheduler step; without one nothing moves. */
    method MergeGlobalStep(gathered: Option<seq<int>>)
      requires Valid()
      modifies this
      ensures Valid()
      ensures gathered.None? ==> globalStep == old(globalStep)
      ensures gathered.Some? ==> globalStep == MaxOf(gathered.value + [old(globalStep)]) + 1
      ensures gathered.Some? ==> old(globalStep) < globalStep && forall s :: s in gathered.value ==> s < globalStep
      ensures syncWindow == old(syncWindow) && currentWindow == old(currentWindow) && peers == old(peers)
      ensures movingAvg == old(movingAvg) && maAlpha == old(maAlpha) && windowStep == old(windowStep)
      ensures commsWindow == old(commsWindow) && currentBlock == old(currentBlock)
      ensures optimizerSteps == old(optimizerSteps) + (if gathered.Some? then 1 else 0)
      ensures schedulerSteps == old(schedulerSteps) + (if gathered.Some? then 1 else 0)
    {
      if gathered.Some? {
        var steps := gathered.value + [globalStep];
        assert globalStep in steps && forall s :: s in gathered.value ==> s in steps;
        var maxStep := MaxOf(steps);
        if maxStep > globalStep {
          globalStep := maxStep;
        }
        // the gradients are applied (ApplyGatheredState), then one optimizer
        // and one scheduler step, then the increment
        optimizerSteps := optimizerSteps + 1;
        schedulerSteps := schedulerSteps + 1;
        globalStep := globalStep + 1;
      }
    }

    /** block_listener.handler: `current_window` and `comms.current_window`
        move together. */
    method Handler(block: nat)
      requires Valid()
      modifies this
      ensures Valid()
      ensures currentBlock == block && currentWindow == WindowOf(block, blocksPerWindow)
      ensures syncWindow == old(syncWindow) && globalStep == old(globalStep) && peers == old(peers)
      ensures movingAvg == old(movingAvg) && maAlpha == old(maAlpha) && windowStep == old(windowStep)
      ensures optimizerSteps == old(optimizerSteps) && schedulerSteps == old(schedulerSteps)
    {
      currentBlock := block;
      var newWindow := block / blocksPerWindow;
      if newWindow != currentWindow {
        currentWindow := newWindow;
        commsWindow := currentWindow;
      }
    }
  }
}
