/**
 * The stage scan at the heart of the growth step: for each point a crop is
 * about to gain, the stage reached at that point (if the crop configuration
 * has one) contributes its model and runs its growth actions. A variation
 * action that reports true ends the step before anything is committed.
 */
module Growth {
  import opened Wrappers
  import opened Records

  /** One growth action that was run: stage index and position in the stage's action list. */
  datatype ActionRun = ActionRun(stage: int, index: nat)

  /**
   * The result of scanning a range of stages: whether a variation stopped the
   * scan, the last model seen, and the actions run, in order.
   */
  datatype Scan = Scan(aborted: bool, nextModel: Option<string>, ran: seq<ActionRun>)

  /**
   * Outcome oracle: `variation(i, k)` is what the variation action at position
   * `k` of stage `i` reports when it runs (true ends the growth step).
   */
  type VariationOracle = (int, nat) -> bool

  /** Whether the action at position `k` of `actions`, in stage `stage`, ends the step. */
  predicate Fires(actions: seq<Action>, stage: int, variation: VariationOracle, k: nat)
    requires k < |actions|
  {
    actions[k].Variation? && variation(stage, k)
  }

  /** Running the first `n` actions of a stage: whether one of them ended the step, and those run. */
  function RunActions(actions: seq<Action>, stage: int, variation: VariationOracle, n: nat): (bool, seq<ActionRun>)
    requires n <= |actions|
  {
    if n == 0 then (false, [])
    else
      var prev := RunActions(actions, stage, variation, n - 1);
      if prev.0 then prev
      else (Fires(actions, stage, variation, n - 1), prev.1 + [ActionRun(stage, n - 1)])
  }

  /** The scan extended by stage `i`. */
  function ScanStage(stages: map<int, StageConfig>, variation: VariationOracle, s: Scan, i: int): Scan {
    if i !in stages then s
    else
      var stage := stages[i];
      var model := if stage.model.Some? then stage.model else s.nextModel;
      var acts := RunActions(stage.growActions, i, variation, |stage.growActions|);
      Scan(acts.0, model, s.ran + acts.1)
  }

  /** Scanning stages `lo` .. `hi`, stopping at the first variation that reports true. */
  function ScanUpTo(stages: map<int, StageConfig>, variation: VariationOracle, lo: int, hi: int): Scan
    decreases if hi < lo then 0 else hi - lo + 1
  {
    if hi < lo then Scan(false, None, [])
    else
      var s := ScanUpTo(stages, variation, lo, hi - 1);
      if s.aborted then s else ScanStage(stages, variation, s, hi)
  }

  /** Stage `j` exists and names a model. */
  predicate HasModel(stages: map<int, StageConfig>, j: int) {
    j in stages && stages[j].model.Some?
  }

  /** Some action of stage `j` is a variation that reports true. */
  predicate StageFires(stages: map<int, StageConfig>, variation: VariationOracle, j: int) {
    j in stages && exists k :: 0 <= k < |stages[j].growActions| && Fires(stages[j].growActions, j, variation, k)
  }

  /** Once an action ended the step, running further actions changes nothing. */
  lemma {:induction false} RunActionsStopped(actions: seq<Action>, stage: int, variation: VariationOracle, n: nat, m: nat)
    requires n <= m <= |actions|
    requires RunActions(actions, stage, variation, n).0
    ensures RunActions(actions, stage, variation, m) == RunActions(actions, stage, variation, n)
    decreases m - n
  {
    if m > n {
      RunActionsStopped(actions, stage, variation, n, m - 1);
    }
  }

  /** The first `n` actions end the step exactly when one of them is a variation reporting true. */
  lemma {:induction false} RunActionsStopsIff(actions: seq<Action>, stage: int, variation: VariationOracle, n: nat)
    requires n <= |actions|
    ensures RunActions(actions, stage, variation, n).0 <==> exists k :: 0 <= k < n && Fires(actions, stage, variation, k)
  {
    if n > 0 {
      RunActionsStopsIff(actions, stage, variation, n - 1);
    }
  }

  /** Once the scan is stopped, scanning further stages changes nothing. */
  lemma {:induction false} ScanStopped(stages: map<int, StageConfig>, variation: VariationOracle, lo: int, i: int, hi: int)
    requires lo - 1 <= i <= hi
    requires ScanUpTo(stages, variation, lo, i).aborted
    ensures ScanUpTo(stages, variation, lo, hi) == ScanUpTo(stages, variation, lo, i)
    decreases hi - i
  {
    if hi > i {
      ScanStopped(stages, variation, lo, i, hi - 1);
    }
  }

  /**
   * The scan of stages `lo` .. `hi` is stopped exactly when one of those
   * stages holds a variation that reports true.
   */
  lemma {:induction false} AbortedIffVariationFires(stages: map<int, StageConfig>, variation: VariationOracle, lo: int, hi: int)
    ensures ScanUpTo(stages, variation, lo, hi).aborted <==> exists j :: lo <= j <= hi && StageFires(stages, variation, j)
    decreases if hi < lo then 0 else hi - lo + 1
  {
    if hi >= lo {
      AbortedIffVariationFires(stages, variation, lo, hi - 1);
      var prev := ScanUpTo(stages, variation, lo, hi - 1);
      if !prev.aborted {
        if hi in stages {
          var acts := stages[hi].growActions;
          RunActionsStopsIff(acts, hi, variation, |acts|);
          assert ScanUpTo(stages, variation, lo, hi).aborted <==> StageFires(stages, variation, hi);
        } else {
          assert !StageFires(stages, variation, hi);
        }
      }
    }
  }

  /**
   * A scan that runs to the end picks the model of the highest stage in
   * `lo` .. `hi` that has one, and no model when none of them has one.
   */
  lemma {:induction false} NextModelIsHighestStage(stages: map<int, StageConfig>, variation: VariationOracle, lo: int, hi: int)
    requires !ScanUpTo(stages, variation, lo, hi).aborted
    ensures ScanUpTo(stages, variation, lo, hi).nextModel.None? <==> forall j :: lo <= j <= hi ==> !HasModel(stages, j)
    ensures ScanUpTo(stages, variation, lo, hi).nextModel.Some? ==>
      exists j :: lo <= j <= hi && HasModel(stages, j) && stages[j].model == ScanUpTo(stages, variation, lo, hi).nextModel
               && forall k :: j < k <= hi ==> !HasModel(stages, k)
    decreases if hi < lo then 0 else hi - lo + 1
  {
    if hi >= lo {
      var prev := ScanUpTo(stages, variation, lo, hi - 1);
      assert !prev.aborted;
      NextModelIsHighestStage(stages, variation, lo, hi - 1);
      if !HasModel(stages, hi) {
        assert ScanUpTo(stages, variation, lo, hi).nextModel == prev.nextModel;
        if prev.nextModel.Some? {
          var j :| lo <= j <= hi - 1 && HasModel(stages, j) && stages[j].model == prev.nextModel
                   && forall k :: j < k <= hi - 1 ==> !HasModel(stages, k);
          assert forall k :: j < k <= hi ==> !HasModel(stages, k);
        }
      } else {
        assert ScanUpTo(stages, variation, lo, hi).nextModel == stages[hi].model;
      }
    }
  }

  /** A scan that runs to the end has run every action of every stage in `lo` .. `hi`. */
  lemma {:induction false} CompletedScanRanEverything(stages: map<int, StageConfig>, variation: VariationOracle, lo: int, hi: int)
    requires !ScanUpTo(stages, variation, lo, hi).aborted
    ensures forall j, k :: lo <= j <= hi && j in stages && 0 <= k < |stages[j].growActions| ==>
      ActionRun(j, k) in ScanUpTo(stages, variation, lo, hi).ran
    decreases if hi < lo then 0 else hi - lo + 1
  {
    if hi >= lo {
      NextModelIsHighestStage(stages, variation, lo, hi);
      var prev := ScanUpTo(stages, variation, lo, hi - 1);
      CompletedScanRanEverything(stages, variation, lo, hi - 1);
      if hi in stages {
        var acts := stages[hi].growActions;
        RunActionsRanAll(acts, hi, variation, |acts|);
      }
    }
  }

  /** Running `n` actions that do not end the step runs each of them. */
  lemma {:induction false} RunActionsRanAll(actions: seq<Action>, stage: int, variation: VariationOracle, n: nat)
    requires n <= |actions|
    requires !RunActions(actions, stage, variation, n).0
    ensures forall k :: 0 <= k < n ==> ActionRun(stage, k) in RunActions(actions, stage, variation, n).1
  {
    if n > 0 {
      RunActionsRanAll(actions, stage, variation, n - 1);
    }
  }

  /** Running actions of a stage records only that stage, at positions below `n`. */
  lemma {:induction false} RunActionsRanWithin(actions: seq<Action>, stage: int, variation: VariationOracle, n: nat)
    requires n <= |actions|
    ensures forall x :: x in RunActions(actions, stage, variation, n).1 ==> x.stage == stage && x.index < n
  {
    if n > 0 {
      RunActionsRanWithin(actions, stage, variation, n - 1);
    }
  }

  /** A scan of `lo` .. `hi` records only actions of stages in that range. */
  lemma {:induction false} ScanRanWithin(stages: map<int, StageConfig>, variation: VariationOracle, lo: int, hi: int)
    ensures forall x :: x in ScanUpTo(stages, variation, lo, hi).ran ==> lo <= x.stage <= hi
    decreases if hi < lo then 0 else hi - lo + 1
  {
    if hi >= lo {
      ScanRanWithin(stages, variation, lo, hi - 1);
      if hi in stages {
        var acts := stages[hi].growActions;
        RunActionsRanWithin(acts, hi, variation, |acts|);
      }
    }
  }

  /**
   * When a variation stops the scan, everything before it has already run:
   * with `j` the first stage in range that holds a firing variation and `k`
   * the first firing action of that stage, every action of the stages before
   * `j` and the actions of stage `j` up to `k` were run, and nothing after.
   */
  lemma AbortedScanRanPrefix(stages: map<int, StageConfig>, variation: VariationOracle, lo: int, hi: int, j: int, k: nat)
    requires lo <= j <= hi && j in stages
    requires forall i :: lo <= i < j ==> !StageFires(stages, variation, i)
    requires k < |stages[j].growActions| && Fires(stages[j].growActions, j, variation, k)
    requires forall i :: 0 <= i < k ==> !Fires(stages[j].growActions, j, variation, i)
    ensures ScanUpTo(stages, variation, lo, hi).aborted
    ensures forall i, m :: lo <= i < j && i in stages && 0 <= m < |stages[i].growActions| ==>
      ActionRun(i, m) in ScanUpTo(stages, variation, lo, hi).ran
    ensures forall m :: 0 <= m <= k ==> ActionRun(j, m) in ScanUpTo(stages, variation, lo, hi).ran
    ensures forall x :: x in ScanUpTo(stages, variation, lo, hi).ran ==>
      x.stage < j || (x.stage == j && x.index <= k)
  {
    var acts := stages[j].growActions;
    var prev := ScanUpTo(stages, variation, lo, j - 1);
    AbortedIffVariationFires(stages, variation, lo, j - 1);
    assert !prev.aborted;
    CompletedScanRanEverything(stages, variation, lo, j - 1);
    ScanRanWithin(stages, variation, lo, j - 1);
    RunActionsStopsIff(acts, j, variation, k);
    RunActionsRanAll(acts, j, variation, k);
    RunActionsStopped(acts, j, variation, k + 1, |acts|);
    RunActionsRanWithin(acts, j, variation, k + 1);
    var run := RunActions(acts, j, variation, k + 1);
    assert run == (true, RunActions(acts, j, variation, k).1 + [ActionRun(j, k)]);
    assert ScanUpTo(stages, variation, lo, j) == Scan(true, if stages[j].model.Some? then stages[j].model else prev.nextModel, prev.ran + run.1);
    ScanStopped(stages, variation, lo, j, hi);
  }

  /**
   * The scan loop of the growth step: stage indices `current + 1` ..
   * `current + points`, each existing stage contributing its model and
   * running its actions in order, returning as soon as a variation reports true.
   */
  method ScanStages(stages: map<int, StageConfig>, variation: VariationOracle, current: int, points: int) returns (s: Scan)
    ensures s == ScanUpTo(stages, variation, current + 1, current + points)
  {
    s := Scan(false, None, []);
    var i := current + 1;
    while i <= points + current
      invariant current + 1 <= i
      invariant points >= 0 ==> i <= current + points + 1
      invariant points < 0 ==> i == current + 1
      invariant s == ScanUpTo(stages, variation, current + 1, i - 1)
      invariant !s.aborted
    {
      if i in stages {
        var stage := stages[i];
        ghost var before := s;
        if stage.model.Some? {
          s := s.(nextModel := stage.model);
        }
        var actions := stage.growActions;
        var k := 0;
        while k < |actions|
          invariant 0 <= k <= |actions|
          invariant !RunActions(actions, i, variation, k).0
          invariant s == Scan(false, if stage.model.Some? then stage.model else before.nextModel,
                              before.ran + RunActions(actions, i, variation, k).1)
        {
          s := s.(ran := s.ran + [ActionRun(i, k)]);
          if actions[k].Variation? && variation(i, k) {
            s := s.(aborted := true);
            RunActionsStopped(actions, i, variation, k + 1, |actions|);
            ScanStopped(stages, variation, current + 1, i, current + points);
            return;
          }
          k := k + 1;
        }
      }
      i := i + 1;
    }
  }

  /**
   * Three points for a crop at two points, with stages only at 3 and 5,
   * pick the model of stage 5.
   */
  lemma SampleStagesThreeAndFive(m3: string, m5: string, variation: VariationOracle)
    ensures ScanUpTo(map[3 := StageConfig(Some(m3), []), 5 := StageConfig(Some(m5), [])], variation, 3, 5)
            == Scan(false, Some(m5), [])
  {
  }
}
