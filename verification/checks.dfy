/**
 * The decision procedures of the periodic checks that do not touch the
 * world's store themselves: which death condition wins, whether the grow
 * conditions hold, how many points a crop gains, and what a day of
 * consumption does to a pot.
 */
module Checks {
  import opened Wrappers
  import opened Records

  /**
   * `delay(i)` is what the death condition at position `i` reports for the
   * crop's location when it is checked: -1 alive, otherwise a delay in
   * milliseconds. Each position has its own verdict, even for equal conditions.
   */
  type DeathOracle = nat -> int

  /** `met(i)` is whether the grow condition at position `i` holds at the crop's location. */
  type ConditionOracle = nat -> bool

  /** Condition `i` is the first one that reports death. */
  predicate IsFirstDeath(conds: seq<DeathCondition>, delay: DeathOracle, i: int) {
    0 <= i < |conds| && delay(i) != -1 && forall j: nat :: j < i ==> delay(j) == -1
  }

  /** No condition reports death. */
  predicate NoDeath(conds: seq<DeathCondition>, delay: DeathOracle) {
    forall j: nat :: j < |conds| ==> delay(j) == -1
  }

  /** Condition `i` is the first grow condition that does not hold. */
  predicate IsFirstUnmet(conds: seq<Condition>, met: ConditionOracle, i: int) {
    0 <= i < |conds| && !met(i) && forall j: nat :: j < i ==> met(j)
  }

  /** Every grow condition holds. */
  predicate AllMet(conds: seq<Condition>, met: ConditionOracle) {
    forall j: nat :: j < |conds| ==> met(j)
  }

  /** The death-condition loop of the crop check: the first condition whose delay is not -1 wins. */
  method FirstDeath(conds: seq<DeathCondition>, delay: DeathOracle) returns (r: Option<nat>)
    ensures r.Some? ==> IsFirstDeath(conds, delay, r.value)
    ensures r.None? <==> NoDeath(conds, delay)
  {
    var i := 0;
    while i < |conds|
      invariant 0 <= i <= |conds|
      invariant forall j: nat :: j < i ==> delay(j) == -1
    {
      if delay(i) != -1 {
        return Some(i);
      }
      i := i + 1;
    }
    return None;
  }

  /** The grow-condition loop of the crop check: the first condition that does not hold, if any. */
  method FirstUnmet(conds: seq<Condition>, met: ConditionOracle) returns (r: Option<nat>)
    ensures r.Some? ==> IsFirstUnmet(conds, met, r.value)
    ensures r.None? <==> AllMet(conds, met)
  {
    var i := 0;
    while i < |conds|
      invariant 0 <= i <= |conds|
      invariant forall j: nat :: j < i ==> met(j)
    {
      if !met(i) {
        return Some(i);
      }
      i := i + 1;
    }
    return None;
  }

  /**
   * The points a crop gains in one check: one, plus the bonus of a speed-grow
   * fertilizer in the pot directly below it.
   */
  function GrowPoints(potBelow: Option<Pot>, fertilizers: map<string, FertilizerConfig>): (points: int)
    ensures potBelow.None? ==> points == 1
    ensures potBelow.Some? ==> match FertilizerConfigOf(fertilizers, potBelow.value.fertilizer)
      case Some(SpeedGrow(bonus)) => points == 1 + bonus
      case _ => points == 1
  {
    var bonus :=
      if potBelow.Some? then
        match FertilizerConfigOf(fertilizers, potBelow.value.fertilizer)
        case Some(SpeedGrow(b)) => b
        case _ => 0
      else 0;
    1 + bonus
  }

  /** Whether a soil-retaining fertilizer tops the pot up before the day's water is taken. */
  predicate Retains(pot: Pot, config: Option<FertilizerConfig>, retainRoll: bool) {
    IsWet(pot) && config == Some(SoilRetain) && retainRoll
  }

  /**
   * One consumption check of a pot. `config` is its fertilizer's configuration
   * and `retainRoll` the chance roll of a soil-retaining fertilizer. Returns
   * the new pot and whether its appearance must be refreshed. Both the water
   * and the fertilizer are reduced, whatever the first reduction reports.
   */
  function Consume(pot: Pot, config: Option<FertilizerConfig>, retainRoll: bool): (r: (Pot, bool))
    ensures r.0.key == pot.key
    ensures r.0.water == if IsWet(pot) && !Retains(pot, config, retainRoll) then pot.water - 1 else pot.water
    ensures pot.fertilizer.None? ==> r.0.fertilizer.None?
    ensures pot.fertilizer.Some? ==>
      r.0.fertilizer == if pot.fertilizer.value.times <= 1 then None
                        else Some(pot.fertilizer.value.(times := pot.fertilizer.value.times - 1))
    ensures r.1 <==> ((pot.water == 1 && !Retains(pot, config, retainRoll))
                      || (pot.fertilizer.Some? && pot.fertilizer.value.times <= 1))
  {
    var topped := if Retains(pot, config, retainRoll) then pot.(water := pot.water + 1) else pot;
    var dried := ReduceWater(topped);
    var used := ReduceFertilizer(dried.0);
    (used.0, dried.1 || used.1)
  }
}
