/**
 * The day-boundary detector that runs every two seconds for a loaded world.
 * It reads the world's day clock (0 .. 23999 ticks) and fires the
 * consumption sweep once per day early in the morning, the sprinkler sweep
 * once per day a little later, and re-arms both near the end of the day.
 * The two flags keep a sweep from firing twice when the clock is read
 * several times inside the same window.
 */
module DayClock {
  import opened Wrappers

  /** The consumption sweep fires while the clock is below this. */
  const ConsumeBefore: int := 100
  /** The sprinkler sweep fires strictly between these two. */
  const WorkAfter: int := 1950
  const WorkBefore: int := 2050
  /** Both flags are cleared once the clock is past this. */
  const RearmAfter: int := 23900

  /** The global switches the detector consults (ConfigManager). */
  datatype Settings = Settings(
    enableScheduleSystem: bool,
    enableSeason: bool,
    rsHook: bool,
    autoSeasonChange: bool)
  {
    /** Whether the first tick of a day also moves the season calendar on by one day. */
    predicate AdvancesSeason() {
      enableSeason && !rsHook && autoSeasonChange
    }
  }

  /** The two once-per-day flags (hasConsumedToday, hasWorkedToday). */
  datatype Flags = Flags(consumedToday: bool, workedToday: bool)

  /**
   * Which arm of the detector ran. `Cancelled` is a firing that does not
   * happen: the detector was never started, or an earlier `WorldGone` shut
   * the scheduler down.
   */
  datatype Branch = Consumed | Worked | Rearmed | Quiet | WorldGone | Cancelled

  /** A sweep over every chunk, handed to the scheduler. */
  datatype Sweep = ConsumeSweep | SprinklerSweep

  /** What one run of the detector did: the arm taken, the new flags, and its effects. */
  datatype Tick = Tick(branch: Branch, flags: Flags, addDate: bool, dispatch: Option<Sweep>, shutdown: bool)

  /**
   * One run of the detector. `clock` is the world's time, or None when the
   * world has been unloaded (the weak reference is cleared).
   */
  function Step(f: Flags, clock: Option<int>, s: Settings): (t: Tick)
    ensures t.shutdown <==> clock.None?
    ensures clock.None? ==> t.flags == f && t.dispatch == None && !t.addDate
    ensures clock.Some? ==>
      t.flags.consumedToday == (clock.value <= RearmAfter && (f.consumedToday || clock.value < ConsumeBefore))
    ensures clock.Some? ==>
      t.flags.workedToday == (clock.value <= RearmAfter && (f.workedToday || WorkAfter < clock.value < WorkBefore))
    ensures t.dispatch == Some(ConsumeSweep) <==>
      clock.Some? && clock.value < ConsumeBefore && !f.consumedToday && s.enableScheduleSystem
    ensures t.dispatch == Some(SprinklerSweep) <==>
      clock.Some? && WorkAfter < clock.value < WorkBefore && !f.workedToday && s.enableScheduleSystem
    ensures t.addDate <==> clock.Some? && clock.value < ConsumeBefore && !f.consumedToday && s.AdvancesSeason()
    ensures t.branch == Consumed <==> clock.Some? && clock.value < ConsumeBefore && !f.consumedToday
    ensures t.branch == Worked <==> clock.Some? && WorkAfter < clock.value < WorkBefore && !f.workedToday
    ensures t.branch == Rearmed <==> clock.Some? && clock.value > RearmAfter
    ensures t.branch == WorldGone <==> clock.None?
  {
    match clock
    case None => Tick(WorldGone, f, false, None, true)
    case Some(time) =>
      if time < ConsumeBefore && !f.consumedToday then
        Tick(Consumed, f.(consumedToday := true), s.AdvancesSeason(),
             if s.enableScheduleSystem then Some(ConsumeSweep) else None, false)
      else if WorkAfter < time < WorkBefore && !f.workedToday then
        Tick(Worked, f.(workedToday := true), false,
             if s.enableScheduleSystem then Some(SprinklerSweep) else None, false)
      else if time > RearmAfter then
        Tick(Rearmed, Flags(false, false), false, None, false)
      else
        Tick(Quiet, f, false, None, false)
  }

  /** The detector run on successive clock readings of a loaded world. */
  function Run(f: Flags, times: seq<int>, s: Settings): (ticks: seq<Tick>)
    ensures |ticks| == |times|
    decreases |times|
  {
    if times == [] then []
    else
      var t := Step(f, Some(times[0]), s);
      [t] + Run(t.flags, times[1..], s)
  }

  /** The arms taken along a run. */
  function Branches(ticks: seq<Tick>): (bs: seq<Branch>)
    ensures |bs| == |ticks|
  {
    if ticks == [] then [] else [ticks[0].branch] + Branches(ticks[1..])
  }

  /** How many ticks of a run took arm `b`. */
  function Count(ticks: seq<Tick>, b: Branch): nat {
    if ticks == [] then 0 else (if ticks[0].branch == b then 1 else 0) + Count(ticks[1..], b)
  }

  /** No reading in `times` is late enough to re-arm the detector: they all fall in one day. */
  predicate WithinOneDay(times: seq<int>) {
    forall k :: 0 <= k < |times| ==> times[k] <= RearmAfter
  }

  /**
   * Within one day the consumption arm and the sprinkler arm each fire at
   * most once, and not at all when their flag was already set.
   */
  lemma {:induction false} AtMostOncePerDay(f: Flags, times: seq<int>, s: Settings)
    requires WithinOneDay(times)
    ensures Count(Run(f, times, s), Consumed) <= (if f.consumedToday then 0 else 1)
    ensures Count(Run(f, times, s), Worked) <= (if f.workedToday then 0 else 1)
    decreases |times|
  {
    if times != [] {
      var t := Step(f, Some(times[0]), s);
      assert WithinOneDay(times[1..]) by {
        forall k | 0 <= k < |times[1..]| ensures times[1..][k] <= RearmAfter {
          assert times[1..][k] == times[k + 1];
        }
      }
      AtMostOncePerDay(t.flags, times[1..], s);
      assert Run(f, times, s) == [t] + Run(t.flags, times[1..], s);
      assert ([t] + Run(t.flags, times[1..], s))[1..] == Run(t.flags, times[1..], s);
    }
  }

  /**
   * Within one day, an armed consumption flag fires exactly once as soon as
   * the clock is read below 100 at least once.
   */
  lemma {:induction false} ConsumesExactlyOnce(f: Flags, times: seq<int>, s: Settings)
    requires WithinOneDay(times)
    requires !f.consumedToday
    requires exists k :: 0 <= k < |times| && times[k] < ConsumeBefore
    ensures Count(Run(f, times, s), Consumed) == 1
    decreases |times|
  {
    var t := Step(f, Some(times[0]), s);
    assert WithinOneDay(times[1..]) by {
      forall k | 0 <= k < |times[1..]| ensures times[1..][k] <= RearmAfter {
        assert times[1..][k] == times[k + 1];
      }
    }
    assert Run(f, times, s) == [t] + Run(t.flags, times[1..], s);
    assert ([t] + Run(t.flags, times[1..], s))[1..] == Run(t.flags, times[1..], s);
    if times[0] < ConsumeBefore {
      AtMostOncePerDay(t.flags, times[1..], s);
    } else {
      var k :| 0 <= k < |times| && times[k] < ConsumeBefore;
      assert times[1..][k - 1] == times[k];
      ConsumesExactlyOnce(t.flags, times[1..], s);
    }
  }

  /**
   * Within one day, an armed sprinkler flag fires exactly once as soon as
   * the clock is read strictly between 1950 and 2050 at least once.
   */
  lemma {:induction false} WorksExactlyOnce(f: Flags, times: seq<int>, s: Settings)
    requires WithinOneDay(times)
    requires !f.workedToday
    requires exists k :: 0 <= k < |times| && WorkAfter < times[k] < WorkBefore
    ensures Count(Run(f, times, s), Worked) == 1
    decreases |times|
  {
    var t := Step(f, Some(times[0]), s);
    assert WithinOneDay(times[1..]) by {
      forall k | 0 <= k < |times[1..]| ensures times[1..][k] <= RearmAfter {
        assert times[1..][k] == times[k + 1];
      }
    }
    assert Run(f, times, s) == [t] + Run(t.flags, times[1..], s);
    assert ([t] + Run(t.flags, times[1..], s))[1..] == Run(t.flags, times[1..], s);
    if WorkAfter < times[0] < WorkBefore {
      AtMostOncePerDay(t.flags, times[1..], s);
    } else {
      var k :| 0 <= k < |times| && WorkAfter < times[k] < WorkBefore;
      assert times[1..][k - 1] == times[k];
      WorksExactlyOnce(t.flags, times[1..], s);
    }
  }

  /** While the consumption flag is set, readings below 100 change nothing and dispatch nothing. */
  lemma EarlyReadingsIdleOnceConsumed(f: Flags, time: int, s: Settings)
    requires f.consumedToday && time < ConsumeBefore
    ensures Step(f, Some(time), s) == Tick(Quiet, f, false, None, false)
  {
  }

  /** Clock readings 50, 2000, 24000, 50 consume, water, re-arm and consume again. */
  lemma SampleDay(s: Settings)
    ensures Branches(Run(Flags(false, false), [50, 2000, 24000, 50], s)) == [Consumed, Worked, Rearmed, Consumed]
  {
    var times := [50, 2000, 24000, 50];
    assert times[1..] == [2000, 24000, 50] && times[1..][1..] == [24000, 50] && times[1..][1..][1..] == [50];
    var t0 := Step(Flags(false, false), Some(50), s);
    var t1 := Step(t0.flags, Some(2000), s);
    var t2 := Step(t1.flags, Some(24000), s);
    var t3 := Step(t2.flags, Some(50), s);
    var run := [t0, t1, t2, t3];
    assert Run(Flags(false, false), times, s) == run;
    assert run[1..] == [t1, t2, t3] && run[1..][1..] == [t2, t3] && run[1..][1..][1..] == [t3];
    assert Branches(run[1..][1..][1..]) == [t3.branch];
    assert Branches(run[1..][1..]) == [t2.branch, t3.branch];
    assert Branches(run[1..]) == [t1.branch, t2.branch, t3.branch];
    assert Branches(run) == [t0.branch, t1.branch, t2.branch, t3.branch];
  }
}
