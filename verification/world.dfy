/**
 * A world's crop state and its state-transition rules (CCWorld): the chunk
 * map with its accessors, the day-boundary detector, and the sprinkler,
 * consumption and crop checks with the growth step they lead to.
 *
 * Threads, pools and timers are not modelled: each rule is one sequential
 * method, and what the source hands to the scheduler or to the host server
 * is returned as a value (a sweep tag, a deferred death, a model swap).
 */
module World {
  import opened Wrappers
  import opened Records
  import opened Chunks
  import DayClock
  import Growth
  import Checks
  import Persistence

  /** A request to the host to replace the crop's shown model by `model`. */
  datatype ModelSwap = ModelSwap(location: Location, model: string, mode: ItemMode)

  /** What one crop check decided. */
  datatype CropVerdict =
    | NoCrop
    | ConfigMissing
    | DiedNow(index: nat, condition: DeathCondition, mode: ItemMode)
    | DiesLater(index: nat, condition: DeathCondition, location: Location, mode: ItemMode, delay: int)
    | GrowthSkipped(index: nat)
    | Grew(points: int, scan: Growth.Scan, swap: Option<ModelSwap>)

  /** The chunk after a growth step commits `total` points to `crop` at `p`, removing it once fully grown. */
  function CommitPoints(chunk: Chunk, p: Location, crop: GrowingCrop, total: int, maxPoints: int): Chunk {
    var updated := chunk.AddCropData(p, crop.(points := total));
    if total >= maxPoints then updated.RemoveCropData(p) else updated
  }

  /** The pot with one more unit of water, if there is a pot. */
  function Watered(pot: Option<Pot>): Option<Pot> {
    if pot.Some? then Some(pot.value.(water := pot.value.water + 1)) else None
  }

  /** `q` is one of the (2r+1)² cells one block below the sprinkler at `p`. */
  predicate InSquare(q: Location, p: Location, r: int) {
    q.world == p.world && q.y == p.y - 1 && -r <= q.x - p.x <= r && -r <= q.z - p.z <= r
  }

  /** `q` is a cell of row `i` of the square that the sprinkler loop has watered before reaching column `j`. */
  predicate RowBefore(q: Location, p: Location, r: int, i: int, j: int) {
    InSquare(q, p, r) && q.x - p.x == i && q.z - p.z < j
  }

  class CCWorld {
    const worldName: string
    /** SimpleLocation.getChunkCoordinate, left uninterpreted. */
    const chunkOf: Location -> ChunkCoordinate
    var chunkMap: map<ChunkCoordinate, Chunk>
    var hasWorkedToday: bool
    var hasConsumedToday: bool
    /** The world's scheduler has not been shut down. */
    var running: bool
    /** A load has reached its end and started the periodic tasks, the day-boundary detector among them. */
    var tasksArranged: bool

    constructor (worldName: string, chunkOf: Location -> ChunkCoordinate)
      ensures this.worldName == worldName && this.chunkOf == chunkOf
      ensures chunkMap == map[] && !hasWorkedToday && !hasConsumedToday && running && !tasksArranged
    {
      this.worldName := worldName;
      this.chunkOf := chunkOf;
      chunkMap := map[];
      hasWorkedToday := false;
      hasConsumedToday := false;
      running := true;
      tasksArranged := false;
    }

    // ---------------------------------------------------------------- reads

    /** The crop at `p`; a location whose chunk is missing has none. */
    function GetCropData(p: Location): (r: Option<GrowingCrop>)
      reads this
      ensures chunkOf(p) !in chunkMap ==> r.None?
      ensures r.Some? <==> chunkOf(p) in chunkMap && p in chunkMap[chunkOf(p)].crops
      ensures r.Some? ==> r.value == chunkMap[chunkOf(p)].crops[p]
    {
      var c := chunkOf(p);
      if c !in chunkMap then None else chunkMap[c].GetCropData(p)
    }

    /** The pot at `p`; a location whose chunk is missing has none. */
    function GetPotData(p: Location): (r: Option<Pot>)
      reads this
      ensures chunkOf(p) !in chunkMap ==> r.None?
      ensures r.Some? <==> chunkOf(p) in chunkMap && p in chunkMap[chunkOf(p)].pots
      ensures r.Some? ==> r.value == chunkMap[chunkOf(p)].pots[p]
    {
      var c := chunkOf(p);
      if c !in chunkMap then None else chunkMap[c].GetPotData(p)
    }

    /** The sprinkler at `p`; a location whose chunk is missing has none. */
    function GetSprinklerData(p: Location): (r: Option<Sprinkler>)
      reads this
      ensures chunkOf(p) !in chunkMap ==> r.None?
      ensures r.Some? <==> chunkOf(p) in chunkMap && p in chunkMap[chunkOf(p)].sprinklers
      ensures r.Some? ==> r.value == chunkMap[chunkOf(p)].sprinklers[p]
    {
      var c := chunkOf(p);
      if c !in chunkMap then None else chunkMap[c].GetSprinklerData(p)
    }

    /** Whether `p` is marked as a greenhouse; false when its chunk is missing. */
    predicate IsGreenhouse(p: Location)
      reads this
      ensures IsGreenhouse(p) <==> chunkOf(p) in chunkMap && p in chunkMap[chunkOf(p)].greenhouses
    {
      var c := chunkOf(p);
      c in chunkMap && p in chunkMap[c].greenhouses
    }

    /**
     * Whether the chunk of `p` holds a scarecrow anywhere: the answer is the
     * same for every location of a chunk, and false when the chunk is missing.
     */
    predicate HasScarecrow(p: Location)
      reads this
      ensures HasScarecrow(p) <==> chunkOf(p) in chunkMap && chunkMap[chunkOf(p)].scarecrows != {}
    {
      var c := chunkOf(p);
      c in chunkMap && chunkMap[c].HasScarecrow()
    }

    /** The scarecrow query ignores the position inside the chunk. */
    lemma ScarecrowIsChunkWide(p: Location, q: Location)
      requires chunkOf(p) == chunkOf(q)
      ensures HasScarecrow(p) == HasScarecrow(q)
    {
    }

    /** The number of crops in the chunk of `p`; zero when the chunk is missing. */
    function GetChunkCropAmount(p: Location): (n: nat)
      reads this
      ensures chunkOf(p) !in chunkMap ==> n == 0
      ensures chunkOf(p) in chunkMap ==> n == |chunkMap[chunkOf(p)].crops.Keys|
    {
      var c := chunkOf(p);
      if c !in chunkMap then 0 else chunkMap[c].CropAmount()
    }

    /** The chunk map once the crop at `p` is removed (the chunk itself stays, even if now useless). */
    function WithoutCrop(p: Location): map<ChunkCoordinate, Chunk>
      reads this
    {
      var c := chunkOf(p);
      if c in chunkMap then chunkMap[c := chunkMap[c].RemoveCropData(p)] else chunkMap
    }

    /** The configuration of the crop at `p`, when there is a crop and its key resolves. */
    function ConfigOf(p: Location, configs: map<string, CropConfig>): (r: Option<CropConfig>)
      reads this
      ensures r.Some? <==> GetCropData(p).Some? && GetCropData(p).value.key in configs
    {
      var crop := GetCropData(p);
      if crop.Some? && crop.value.key in configs then Some(configs[crop.value.key]) else None
    }

    // --------------------------------------------------------------- writes

    /** Install an empty chunk under the chunk coordinate of `p`. */
    method CreateNewChunk(p: Location) returns (chunk: Chunk)
      modifies this`chunkMap
      ensures chunk == EmptyChunk
      ensures chunkMap == old(chunkMap)[chunkOf(p) := EmptyChunk]
    {
      chunk := EmptyChunk;
      chunkMap := chunkMap[chunkOf(p) := chunk];
    }

    method AddCropData(p: Location, crop: GrowingCrop)
      modifies this`chunkMap
      ensures chunkMap == old(chunkMap)[chunkOf(p) := ChunkOrEmpty(old(chunkMap), chunkOf(p)).AddCropData(p, crop)]
      ensures chunkMap.Keys == old(chunkMap).Keys + {chunkOf(p)}
      ensures GetCropData(p) == Some(crop)
    {
      var c := chunkOf(p);
      if c in chunkMap {
        chunkMap := chunkMap[c := chunkMap[c].AddCropData(p, crop)];
        return;
      }
      var chunk := CreateNewChunk(p);
      chunkMap := chunkMap[c := chunk.AddCropData(p, crop)];
    }

    method RemoveCropData(p: Location)
      modifies this`chunkMap
      ensures chunkMap == old(WithoutCrop(p))
      ensures chunkMap.Keys == old(chunkMap).Keys
      ensures GetCropData(p) == None
    {
      var c := chunkOf(p);
      if c !in chunkMap {
        return;
      }
      chunkMap := chunkMap[c := chunkMap[c].RemoveCropData(p)];
    }

    method AddPotData(p: Location, pot: Pot)
      modifies this`chunkMap
      ensures chunkMap == old(chunkMap)[chunkOf(p) := ChunkOrEmpty(old(chunkMap), chunkOf(p)).AddPotData(p, pot)]
      ensures chunkMap.Keys == old(chunkMap).Keys + {chunkOf(p)}
      ensures GetPotData(p) == Some(pot)
    {
      var c := chunkOf(p);
      if c in chunkMap {
        chunkMap := chunkMap[c := chunkMap[c].AddPotData(p, pot)];
        return;
      }
      var chunk := CreateNewChunk(p);
      chunkMap := chunkMap[c := chunk.AddPotData(p, pot)];
    }

    method RemovePotData(p: Location)
      modifies this`chunkMap
      ensures chunkOf(p) !in old(chunkMap) ==> chunkMap == old(chunkMap)
      ensures chunkOf(p) in old(chunkMap) ==>
        chunkMap == old(chunkMap)[chunkOf(p) := old(chunkMap)[chunkOf(p)].RemovePotData(p)]
      ensures GetPotData(p) == None
    {
      var c := chunkOf(p);
      if c !in chunkMap {
        return;
      }
      chunkMap := chunkMap[c := chunkMap[c].RemovePotData(p)];
    }

    method AddSprinklerData(p: Location, sprinkler: Sprinkler)
      modifies this`chunkMap
      ensures chunkMap == old(chunkMap)[chunkOf(p) := ChunkOrEmpty(old(chunkMap), chunkOf(p)).AddSprinklerData(p, sprinkler)]
      ensures chunkMap.Keys == old(chunkMap).Keys + {chunkOf(p)}
      ensures GetSprinklerData(p) == Some(sprinkler)
    {
      var c := chunkOf(p);
      if c in chunkMap {
        chunkMap := chunkMap[c := chunkMap[c].AddSprinklerData(p, sprinkler)];
        return;
      }
      var chunk := CreateNewChunk(p);
      chunkMap := chunkMap[c := chunk.AddSprinklerData(p, sprinkler)];
    }

    method RemoveSprinklerData(p: Location)
      modifies this`chunkMap
      ensures chunkOf(p) !in old(chunkMap) ==> chunkMap == old(chunkMap)
      ensures chunkOf(p) in old(chunkMap) ==>
        chunkMap == old(chunkMap)[chunkOf(p) := old(chunkMap)[chunkOf(p)].RemoveSprinklerData(p)]
      ensures GetSprinklerData(p) == None
    {
      var c := chunkOf(p);
      if c !in chunkMap {
        return;
      }
      chunkMap := chunkMap[c := chunkMap[c].RemoveSprinklerData(p)];
    }

    method AddGreenhouse(p: Location)
      modifies this`chunkMap
      ensures chunkMap == old(chunkMap)[chunkOf(p) := ChunkOrEmpty(old(chunkMap), chunkOf(p)).AddGreenhouse(p)]
      ensures chunkMap.Keys == old(chunkMap).Keys + {chunkOf(p)}
      ensures IsGreenhouse(p)
    {
      var c := chunkOf(p);
      if c in chunkMap {
        chunkMap := chunkMap[c := chunkMap[c].AddGreenhouse(p)];
        return;
      }
      var chunk := CreateNewChunk(p);
      chunkMap := chunkMap[c := chunk.AddGreenhouse(p)];
    }

    method RemoveGreenhouse(p: Location)
      modifies this`chunkMap
      ensures chunkOf(p) !in old(chunkMap) ==> chunkMap == old(chunkMap)
      ensures chunkOf(p) in old(chunkMap) ==>
        chunkMap == old(chunkMap)[chunkOf(p) := old(chunkMap)[chunkOf(p)].RemoveGreenhouse(p)]
      ensures !IsGreenhouse(p)
    {
      var c := chunkOf(p);
      if c !in chunkMap {
        return;
      }
      chunkMap := chunkMap[c := chunkMap[c].RemoveGreenhouse(p)];
    }

    method AddScarecrow(p: Location)
      modifies this`chunkMap
      ensures chunkMap == old(chunkMap)[chunkOf(p) := ChunkOrEmpty(old(chunkMap), chunkOf(p)).AddScarecrow(p)]
      ensures chunkMap.Keys == old(chunkMap).Keys + {chunkOf(p)}
      ensures HasScarecrow(p)
    {
      var c := chunkOf(p);
      if c in chunkMap {
        chunkMap := chunkMap[c := chunkMap[c].AddScarecrow(p)];
        return;
      }
      var chunk := CreateNewChunk(p);
      chunkMap := chunkMap[c := chunk.AddScarecrow(p)];
    }

    method RemoveScarecrow(p: Location)
      modifies this`chunkMap
      ensures chunkOf(p) !in old(chunkMap) ==> chunkMap == old(chunkMap)
      ensures chunkOf(p) in old(chunkMap) ==>
        chunkMap == old(chunkMap)[chunkOf(p) := old(chunkMap)[chunkOf(p)].RemoveScarecrow(p)]
    {
      var c := chunkOf(p);
      if c !in chunkMap {
        return;
      }
      chunkMap := chunkMap[c := chunkMap[c].RemoveScarecrow(p)];
    }

    /**
     * Water for the pot at `p`. The chunk is created when missing, even when
     * no pot ends up being written (no pot there and no pot key given).
     */
    method AddWaterToPot(p: Location, amount: int, potKey: Option<string>)
      modifies this`chunkMap
      ensures chunkMap == old(chunkMap)[chunkOf(p) := ChunkOrEmpty(old(chunkMap), chunkOf(p)).AddWaterToPot(p, amount, potKey)]
      ensures chunkMap.Keys == old(chunkMap).Keys + {chunkOf(p)}
      ensures GetPotData(p) == match old(GetPotData(p))
        case Some(pot) => Some(pot.(water := pot.water + amount))
        case None => if potKey.Some? then Some(Pot(potKey.value, None, amount)) else None
      ensures forall q :: q != p ==> GetPotData(q) == old(GetPotData(q))
      ensures forall q :: GetCropData(q) == old(GetCropData(q)) && GetSprinklerData(q) == old(GetSprinklerData(q))
      ensures forall q :: IsGreenhouse(q) == old(IsGreenhouse(q)) && HasScarecrow(q) == old(HasScarecrow(q))
    {
      var c := chunkOf(p);
      if c in chunkMap {
        chunkMap := chunkMap[c := chunkMap[c].AddWaterToPot(p, amount, potKey)];
        return;
      }
      var chunk := CreateNewChunk(p);
      chunkMap := chunkMap[c := chunk.AddWaterToPot(p, amount, potKey)];
    }

    /** Fertilizer for the pot at `p`, creating the chunk (and a dry pot) when missing. */
    method AddFertilizerToPot(p: Location, fertilizer: Fertilizer, potKey: string)
      modifies this`chunkMap
      ensures chunkMap == old(chunkMap)[chunkOf(p) := ChunkOrEmpty(old(chunkMap), chunkOf(p)).AddFertilizerToPot(p, fertilizer, potKey)]
      ensures chunkMap.Keys == old(chunkMap).Keys + {chunkOf(p)}
      ensures GetPotData(p) == match old(GetPotData(p))
        case Some(pot) => Some(pot.(fertilizer := Some(fertilizer)))
        case None => Some(Pot(potKey, Some(fertilizer), 0))
    {
      var c := chunkOf(p);
      if c in chunkMap {
        chunkMap := chunkMap[c := chunkMap[c].AddFertilizerToPot(p, fertilizer, potKey)];
        return;
      }
      var chunk := CreateNewChunk(p);
      chunkMap := chunkMap[c := chunk.AddFertilizerToPot(p, fertilizer, potKey)];
    }

    // ------------------------------------------------------------ day clock

    /**
     * One run of the day-boundary detector. `clock` is the world's time, or
     * None once the world is unloaded, in which case the scheduler shuts down.
     * The detector exists only once a load has started the periodic tasks,
     * and shutting down cancels it: before the start and after a shutdown a
     * run does nothing at all.
     */
    method DayTick(clock: Option<int>, settings: DayClock.Settings) returns (t: DayClock.Tick)
      modifies this`hasConsumedToday, this`hasWorkedToday, this`running
      ensures old(running) && tasksArranged ==>
        t == DayClock.Step(DayClock.Flags(old(hasConsumedToday), old(hasWorkedToday)), clock, settings)
      ensures !(old(running) && tasksArranged) ==>
        t == DayClock.Tick(DayClock.Cancelled, DayClock.Flags(old(hasConsumedToday), old(hasWorkedToday)), false, None, false)
      ensures hasConsumedToday == t.flags.consumedToday && hasWorkedToday == t.flags.workedToday
      ensures running == (old(running) && (clock.Some? || !tasksArranged))
    {
      if !running || !tasksArranged {
        return DayClock.Tick(DayClock.Cancelled, DayClock.Flags(hasConsumedToday, hasWorkedToday), false, None, false);
      }
      if clock.Some? {
        var time := clock.value;
        if time < DayClock.ConsumeBefore && !hasConsumedToday {
          hasConsumedToday := true;
          var dispatch := if settings.enableScheduleSystem then Some(DayClock.ConsumeSweep) else None;
          t := DayClock.Tick(DayClock.Consumed, DayClock.Flags(hasConsumedToday, hasWorkedToday),
                             settings.AdvancesSeason(), dispatch, false);
        } else if DayClock.WorkAfter < time < DayClock.WorkBefore && !hasWorkedToday {
          hasWorkedToday := true;
          var dispatch := if settings.enableScheduleSystem then Some(DayClock.SprinklerSweep) else None;
          t := DayClock.Tick(DayClock.Worked, DayClock.Flags(hasConsumedToday, hasWorkedToday), false, dispatch, false);
        } else if time > DayClock.RearmAfter {
          hasConsumedToday := false;
          hasWorkedToday := false;
          t := DayClock.Tick(DayClock.Rearmed, DayClock.Flags(false, false), false, None, false);
        } else {
          t := DayClock.Tick(DayClock.Quiet, DayClock.Flags(hasConsumedToday, hasWorkedToday), false, None, false);
        }
      } else {
        running := false;
        t := DayClock.Tick(DayClock.WorldGone, DayClock.Flags(hasConsumedToday, hasWorkedToday), false, None, true);
      }
    }

    // ------------------------------------------------------ sprinkler check

    /** Everything the world holds at `q` except its pot. */
    function NonPotView(q: Location): (Option<GrowingCrop>, Option<Sprinkler>, bool, bool)
      reads this
    {
      (GetCropData(q), GetSprinklerData(q), IsGreenhouse(q), HasScarecrow(q))
    }

    /**
     * The inner loop of the sprinkler check: one water for every pot of row
     * `i` of the square of range `r` below `p`.
     */
    method WaterRow(p: Location, r: int, i: int)
      requires -r <= i <= r
      modifies this`chunkMap
      ensures forall q :: (GetPotData(q) ==
        (if InSquare(q, p, r) && q.x - p.x == i then Watered(old(GetPotData(q))) else old(GetPotData(q))))
      ensures forall q :: NonPotView(q) == old(NonPotView(q))
      ensures old(chunkMap).Keys <= chunkMap.Keys
      ensures forall k :: k in chunkMap && k !in old(chunkMap) ==> chunkMap[k] == EmptyChunk
      ensures forall k :: k in old(chunkMap) ==> SameShape(old(chunkMap)[k], chunkMap[k])
      ensures forall k :: k in old(chunkMap) && old(chunkMap)[k] == EmptyChunk ==> chunkMap[k] == EmptyChunk
      ensures forall q: Location :: InSquare(q, p, r) && q.x - p.x == i ==> chunkOf(q) in chunkMap
    {
      var j := -r;
      while j <= r
        invariant -r <= j && (r >= 0 ==> j <= r + 1) && (r < 0 ==> j == -r)
        invariant forall q :: (GetPotData(q) ==
          (if RowBefore(q, p, r, i, j) then Watered(old(GetPotData(q))) else old(GetPotData(q))))
        invariant forall q :: NonPotView(q) == old(NonPotView(q))
        invariant old(chunkMap).Keys <= chunkMap.Keys
        invariant forall k :: k in chunkMap && k !in old(chunkMap) ==> chunkMap[k] == EmptyChunk
        invariant forall k :: k in old(chunkMap) ==> SameShape(old(chunkMap)[k], chunkMap[k])
        invariant forall k :: k in old(chunkMap) && old(chunkMap)[k] == EmptyChunk ==> chunkMap[k] == EmptyChunk
        invariant forall q :: RowBefore(q, p, r, i, j) ==> chunkOf(q) in chunkMap
      {
        var cell := p.Add(i, -1, j);
        label Before:
        AddWaterToPot(cell, 1, None);
        forall q
          ensures GetPotData(q) ==
            (if RowBefore(q, p, r, i, j + 1) then Watered(old(GetPotData(q))) else old(GetPotData(q)))
        {
          if q == cell {
            assert RowBefore(q, p, r, i, j + 1) && !RowBefore(q, p, r, i, j);
          } else {
            assert GetPotData(q) == old@Before(GetPotData(q));
            assert RowBefore(q, p, r, i, j + 1) == RowBefore(q, p, r, i, j);
          }
        }
        KeylessWaterKeepsShape(ChunkOrEmpty(old@Before(chunkMap), chunkOf(cell)), cell, 1);
        j := j + 1;
      }
    }

    /** The outer loop of the sprinkler check: one water for every pot of the square of range `r` below `p`. */
    method WaterSquare(p: Location, r: int)
      modifies this`chunkMap
      ensures forall q :: (GetPotData(q) ==
        (if InSquare(q, p, r) then Watered(old(GetPotData(q))) else old(GetPotData(q))))
      ensures forall q :: NonPotView(q) == old(NonPotView(q))
      ensures old(chunkMap).Keys <= chunkMap.Keys
      ensures forall k :: k in chunkMap && k !in old(chunkMap) ==> chunkMap[k] == EmptyChunk
      ensures forall k :: k in old(chunkMap) ==> SameShape(old(chunkMap)[k], chunkMap[k])
      ensures forall q :: InSquare(q, p, r) ==> chunkOf(q) in chunkMap
    {
      var i := -r;
      while i <= r
        invariant -r <= i && (r >= 0 ==> i <= r + 1) && (r < 0 ==> i == -r)
        invariant forall q :: (GetPotData(q) ==
          (if InSquare(q, p, r) && q.x - p.x < i then Watered(old(GetPotData(q))) else old(GetPotData(q))))
        invariant forall q :: NonPotView(q) == old(NonPotView(q))
        invariant old(chunkMap).Keys <= chunkMap.Keys
        invariant forall k :: k in chunkMap && k !in old(chunkMap) ==> chunkMap[k] == EmptyChunk
        invariant forall k :: k in old(chunkMap) ==> SameShape(old(chunkMap)[k], chunkMap[k])
        invariant forall q :: InSquare(q, p, r) && q.x - p.x < i ==> chunkOf(q) in chunkMap
      {
        WaterRow(p, r, i);
        i := i + 1;
      }
    }

    /**
     * The sprinkler task for `p`: nothing when there is no sprinkler there;
     * otherwise one charge is used, the sprinkler is removed when its charge
     * runs out, and every pot of the square one block below gains one water.
     * A sprinkler without charge is removed and waters nothing.
     */
    method SprinklerCheck(p: Location) returns (delivered: bool)
      modifies this`chunkMap
      ensures old(GetSprinklerData(p)).None? ==> !delivered && chunkMap == old(chunkMap)
      ensures old(GetSprinklerData(p)).Some? ==> delivered == (old(GetSprinklerData(p)).value.water > 0)
      ensures old(GetSprinklerData(p)).Some? ==>
        var s := old(GetSprinklerData(p)).value;
        GetSprinklerData(p) == if s.water > 1 then Some(s.(water := s.water - 1)) else None
      ensures delivered ==>
        var s := old(GetSprinklerData(p)).value;
        forall q :: GetPotData(q) == (if InSquare(q, p, s.range) then Watered(old(GetPotData(q))) else old(GetPotData(q)))
      ensures !delivered ==> forall q :: GetPotData(q) == old(GetPotData(q))
      ensures forall q :: q != p ==> GetSprinklerData(q) == old(GetSprinklerData(q))
      ensures forall q :: GetCropData(q) == old(GetCropData(q))
      ensures forall q :: IsGreenhouse(q) == old(IsGreenhouse(q)) && HasScarecrow(q) == old(HasScarecrow(q))
      ensures old(chunkMap).Keys <= chunkMap.Keys
      ensures forall k :: k in old(chunkMap) ==> SameShapeExcept(old(chunkMap)[k], chunkMap[k], p)
      ensures forall k :: k in old(chunkMap) && k != chunkOf(p) ==> chunkMap[k].sprinklers == old(chunkMap)[k].sprinklers
      ensures forall k :: k in chunkMap && k !in old(chunkMap) ==> chunkMap[k] == EmptyChunk
      ensures delivered ==>
        var s := old(GetSprinklerData(p)).value;
        forall q :: InSquare(q, p, s.range) ==> chunkOf(q) in chunkMap
    {
      var found := GetSprinklerData(p);
      if found.None? {
        return false;
      }
      var sprinkler := found.value;
      var water := sprinkler.water;
      if water <= 0 {
        RemoveSprinklerData(p);
        assert forall q :: GetPotData(q) == old(GetPotData(q));
        return false;
      }
      water := water - 1;
      var c := chunkOf(p);
      var chunk := chunkMap[c];
      chunkMap := chunkMap[c := chunk.AddSprinklerData(p, sprinkler.(water := water))];
      if water == 0 {
        RemoveSprinklerData(p);
      }
      label Charged:
      assert chunkMap.Keys == old(chunkMap).Keys;
      assert chunkMap[c].sprinklers - {p} == chunk.sprinklers - {p};
      assert SameShapeExcept(chunk, chunkMap[c], p);
      assert forall k :: k in chunkMap && k != c ==> chunkMap[k] == old(chunkMap)[k];
      assert forall q :: GetPotData(q) == old(GetPotData(q));
      assert forall q :: q != p ==> GetSprinklerData(q) == old(GetSprinklerData(q));
      WaterSquare(p, sprinkler.range);
      forall q
        ensures GetSprinklerData(q) == old@Charged(GetSprinklerData(q)) && GetCropData(q) == old@Charged(GetCropData(q))
        ensures IsGreenhouse(q) == old@Charged(IsGreenhouse(q)) && HasScarecrow(q) == old@Charged(HasScarecrow(q))
      {
        assert NonPotView(q) == old@Charged(NonPotView(q));
      }
      forall k | k in old(chunkMap)
        ensures SameShapeExcept(old(chunkMap)[k], chunkMap[k], p)
        ensures k != c ==> chunkMap[k].sprinklers == old(chunkMap)[k].sprinklers
      {
        assert SameShape(old@Charged(chunkMap)[k], chunkMap[k]);
      }
      delivered := true;
    }

    // ---------------------------------------------------- consumption check

    /**
     * The consumption task for `p`: nothing when there is no pot there;
     * otherwise the pot goes through one day of consumption. Returns whether
     * the host must refresh the pot's appearance.
     */
    method ConsumeCheck(p: Location, fertilizers: map<string, FertilizerConfig>, retainRoll: bool) returns (refresh: bool)
      modifies this`chunkMap
      ensures old(GetPotData(p)).None? ==> !refresh && chunkMap == old(chunkMap)
      ensures old(GetPotData(p)).Some? ==>
        var pot := old(GetPotData(p)).value;
        var r := Checks.Consume(pot, FertilizerConfigOf(fertilizers, pot.fertilizer), retainRoll);
        && refresh == r.1
        && chunkMap == old(chunkMap)[chunkOf(p) := old(chunkMap)[chunkOf(p)].AddPotData(p, r.0)]
        && GetPotData(p) == Some(r.0)
    {
      var found := GetPotData(p);
      if found.None? {
        return false;
      }
      var pot := found.value;
      if IsWet(pot) && FertilizerConfigOf(fertilizers, pot.fertilizer) == Some(SoilRetain) && retainRoll {
        pot := pot.(water := pot.water + 1);
      }
      var dried := ReduceWater(pot);
      var used := ReduceFertilizer(dried.0);
      pot := used.0;
      refresh := dried.1 || used.1;
      var c := chunkOf(p);
      chunkMap := chunkMap[c := chunkMap[c].AddPotData(p, pot)];
    }

    // ---------------------------------------------------------- growth step

    /**
     * Give `points` points to the crop at `p` (which the caller has just
     * resolved). The stages reached are scanned first; a variation reporting
     * true ends the step with nothing committed. Otherwise the points are
     * committed, the crop is removed once it reaches the configuration's
     * maximum, and a model swap is requested when a stage named a model and
     * the host world is loaded.
     */
    method AddCropPoint(points: int, config: CropConfig, p: Location, mode: ItemMode,
                        variation: Growth.VariationOracle, hostWorldLoaded: bool)
      returns (scan: Growth.Scan, swap: Option<ModelSwap>)
      requires GetCropData(p).Some?
      modifies this`chunkMap
      ensures var crop := old(GetCropData(p)).value;
        scan == Growth.ScanUpTo(config.stages, variation, crop.points + 1, crop.points + points)
      ensures scan.aborted ==> chunkMap == old(chunkMap) && swap == None
      ensures !scan.aborted ==>
        var crop := old(GetCropData(p)).value;
        chunkMap == old(chunkMap)[chunkOf(p) := CommitPoints(old(chunkMap)[chunkOf(p)], p, crop, crop.points + points, config.maxPoints)]
      ensures !scan.aborted ==>
        var crop := old(GetCropData(p)).value;
        GetCropData(p) == if crop.points + points >= config.maxPoints then None else Some(crop.(points := crop.points + points))
      ensures swap == if !scan.aborted && scan.nextModel.Some? && hostWorldLoaded
                      then Some(ModelSwap(p, scan.nextModel.value, mode)) else None
    {
      var crop := GetCropData(p).value;
      var current := crop.points;
      scan := Growth.ScanStages(config.stages, variation, current, points);
      if scan.aborted {
        return scan, None;
      }
      var c := chunkOf(p);
      chunkMap := chunkMap[c := chunkMap[c].AddCropData(p, crop.(points := current + points))];
      if current + points >= config.maxPoints {
        RemoveCropData(p);
      }
      if scan.nextModel.None? || !hostWorldLoaded {
        return scan, None;
      }
      swap := Some(ModelSwap(p, scan.nextModel.value, mode));
    }

    /**
     * The host's answer to a model swap: when the old model could be removed
     * the new one is placed; when it was already gone the crop record is
     * dropped instead.
     */
    method CompleteModelSwap(swap: ModelSwap, oldModelRemoved: bool) returns (placed: bool)
      modifies this`chunkMap
      ensures placed == oldModelRemoved
      ensures oldModelRemoved ==> chunkMap == old(chunkMap)
      ensures !oldModelRemoved ==> chunkMap == old(WithoutCrop(swap.location))
    {
      if oldModelRemoved {
        return true;
      }
      RemoveCropData(swap.location);
      return false;
    }

    /**
     * Give `points` points to the crop at `p` from outside the periodic
     * checks. False, with no change, when there is no crop; false, removing
     * the crop, when its configuration is gone; true with no change for zero
     * points; otherwise true after the growth step.
     */
    method AddCropPointAt(p: Location, points: int, configs: map<string, CropConfig>,
                          variation: Growth.VariationOracle, hostWorldLoaded: bool)
      returns (ok: bool, swap: Option<ModelSwap>)
      modifies this`chunkMap
      ensures old(GetCropData(p)).None? ==> !ok && chunkMap == old(chunkMap) && swap == None
      ensures old(GetCropData(p)).Some? && old(ConfigOf(p, configs)).None? ==>
        !ok && chunkMap == old(WithoutCrop(p)) && swap == None
      ensures old(ConfigOf(p, configs)).Some? ==> ok
      ensures old(ConfigOf(p, configs)).Some? && points == 0 ==> chunkMap == old(chunkMap) && swap == None
      ensures old(ConfigOf(p, configs)).Some? && points != 0 ==>
        var crop := old(GetCropData(p)).value;
        var config := old(ConfigOf(p, configs)).value;
        var scan := Growth.ScanUpTo(config.stages, variation, crop.points + 1, crop.points + points);
        && (scan.aborted ==> chunkMap == old(chunkMap) && swap == None)
        && (!scan.aborted ==>
              chunkMap == old(chunkMap)[chunkOf(p) := CommitPoints(old(chunkMap)[chunkOf(p)], p, crop, crop.points + points, config.maxPoints)])
        && swap == if !scan.aborted && scan.nextModel.Some? && hostWorldLoaded
                   then Some(ModelSwap(p, scan.nextModel.value, config.mode)) else None
    {
      var crop := GetCropData(p);
      if crop.None? {
        return false, None;
      }
      if crop.value.key !in configs {
        RemoveCropData(p);
        return false, None;
      }
      var config := configs[crop.value.key];
      if points == 0 {
        return true, None;
      }
      var scan;
      scan, swap := AddCropPoint(points, config, p, config.mode, variation, hostWorldLoaded);
      ok := true;
    }

    // ------------------------------------------------------------ crop check

    /**
     * The crop task for `p`. With no crop there, nothing. A crop whose
     * configuration is gone is removed. Otherwise the first death condition
     * that reports a delay other than -1 decides: delay 0 removes the crop
     * now, any other delay defers its removal. Without a death, an unmet grow
     * condition skips this round; when all hold the crop grows by one point
     * plus the speed-grow bonus of the pot below it.
     */
    method CropCheck(p: Location, configs: map<string, CropConfig>, fertilizers: map<string, FertilizerConfig>,
                     deathDelay: Checks.DeathOracle, conditionMet: Checks.ConditionOracle,
                     variation: Growth.VariationOracle, hostWorldLoaded: bool)
      returns (v: CropVerdict)
      modifies this`chunkMap
      ensures match v
        case NoCrop =>
          old(GetCropData(p)).None? && chunkMap == old(chunkMap)
        case ConfigMissing =>
          old(GetCropData(p)).Some? && old(ConfigOf(p, configs)).None? && chunkMap == old(WithoutCrop(p))
        case DiedNow(i, condition, mode) =>
          && old(ConfigOf(p, configs)).Some?
          && var config := old(ConfigOf(p, configs)).value;
          && Checks.IsFirstDeath(config.deathConditions, deathDelay, i)
          && condition == config.deathConditions[i] && deathDelay(i) == 0 && mode == config.mode
          && chunkMap == old(WithoutCrop(p))
        case DiesLater(i, condition, location, mode, delay) =>
          && old(ConfigOf(p, configs)).Some?
          && var config := old(ConfigOf(p, configs)).value;
          && Checks.IsFirstDeath(config.deathConditions, deathDelay, i)
          && condition == config.deathConditions[i] && delay == deathDelay(i) && delay != 0
          && location == p && mode == config.mode
          && chunkMap == old(chunkMap)
        case GrowthSkipped(j) =>
          && old(ConfigOf(p, configs)).Some?
          && var config := old(ConfigOf(p, configs)).value;
          && Checks.NoDeath(config.deathConditions, deathDelay)
          && Checks.IsFirstUnmet(config.growConditions, conditionMet, j)
          && chunkMap == old(chunkMap)
        case Grew(points, scan, swap) =>
          && old(ConfigOf(p, configs)).Some?
          && var config := old(ConfigOf(p, configs)).value;
          && var crop := old(GetCropData(p)).value;
          && Checks.NoDeath(config.deathConditions, deathDelay)
          && Checks.AllMet(config.growConditions, conditionMet)
          && points == Checks.GrowPoints(old(GetPotData(p.Add(0, -1, 0))), fertilizers)
          && scan == Growth.ScanUpTo(config.stages, variation, crop.points + 1, crop.points + points)
          && (scan.aborted ==> chunkMap == old(chunkMap))
          && (!scan.aborted ==>
                chunkMap == old(chunkMap)[chunkOf(p) := CommitPoints(old(chunkMap)[chunkOf(p)], p, crop, crop.points + points, config.maxPoints)])
          && swap == if !scan.aborted && scan.nextModel.Some? && hostWorldLoaded
                     then Some(ModelSwap(p, scan.nextModel.value, config.mode)) else None
    {
      var crop := GetCropData(p);
      if crop.None? {
        return NoCrop;
      }
      if crop.value.key !in configs {
        RemoveCropData(p);
        return ConfigMissing;
      }
      var config := configs[crop.value.key];
      var mode := config.mode;
      var death := Checks.FirstDeath(config.deathConditions, deathDelay);
      if death.Some? {
        var i := death.value;
        var condition := config.deathConditions[i];
        var delay := deathDelay(i);
        if delay == 0 {
          RemoveCropData(p);
          return DiedNow(i, condition, mode);
        }
        return DiesLater(i, condition, p, mode, delay);
      }
      var unmet := Checks.FirstUnmet(config.growConditions, conditionMet);
      if unmet.Some? {
        return GrowthSkipped(unmet.value);
      }
      var points := Checks.GrowPoints(GetPotData(p.Add(0, -1, 0)), fertilizers);
      var scan, swap := AddCropPoint(points, config, p, mode, variation, hostWorldLoaded);
      v := Grew(points, scan, swap);
    }

    /** The deferred half of a delayed death: the crop record at the copied location is removed. */
    method FireDeferredDeath(location: Location)
      modifies this`chunkMap
      ensures chunkMap == old(WithoutCrop(location))
      ensures GetCropData(location) == None
    {
      RemoveCropData(location);
    }

    // ---------------------------------------------------------- persistence

    /**
     * Load the world's chunk files in order (`listing` is None when the
     * chunk folder cannot be listed, and nothing happens). A file holding a
     * useless chunk is deleted, an unreadable one or one whose name gives no
     * coordinate is skipped, and every other chunk is installed under its
     * coordinate. A file that aborts the load leaves the rest unread. Returns
     * the positions of the deleted files and whether the world's periodic
     * tasks were started, which happens only when the load got to its end.
     */
    method Load(listing: Option<seq<Persistence.ChunkFile>>) returns (deleted: set<nat>, started: bool)
      modifies this`chunkMap, this`tasksArranged
      ensures tasksArranged == (old(tasksArranged) || started)
      ensures listing.None? ==> chunkMap == old(chunkMap) && deleted == {} && !started
      ensures listing.Some? ==>
        var files := listing.value;
        && chunkMap == Persistence.LoadInto(old(chunkMap), files).chunks
        && started == Persistence.LoadInto(old(chunkMap), files).completed
        && deleted == set i: nat | i < |files| && Persistence.NoAbortBefore(files, i) && Persistence.DeletedOnLoad(files[i])
    {
      deleted := {};
      if listing.None? {
        return deleted, false;
      }
      var files := listing.value;
      var i := 0;
      while i < |files|
        invariant 0 <= i <= |files|
        invariant Persistence.NoAbortBefore(files, i)
        invariant tasksArranged == old(tasksArranged)
        invariant Persistence.LoadInto(old(chunkMap), files[..i]).completed
        invariant chunkMap == Persistence.LoadInto(old(chunkMap), files[..i]).chunks
        invariant deleted == set k: nat | k < i && Persistence.DeletedOnLoad(files[k])
      {
        var file := files[i];
        assert files[..i + 1][..i] == files[..i];
        if |file.name| < Persistence.ExtensionLength || file.content.NotAChunk? {
          Persistence.AbortIgnoresRest(old(chunkMap), files, i);
          assert deleted == set k: nat | k < |files| && Persistence.NoAbortBefore(files, k) && Persistence.DeletedOnLoad(files[k]) by {
            forall k: nat | k < |files| && Persistence.NoAbortBefore(files, k) && Persistence.DeletedOnLoad(files[k])
              ensures k < i
            {
            }
          }
          return deleted, false;
        }
        if file.content.Holds? {
          var chunk := file.content.chunk;
          if chunk.IsUseless() {
            deleted := deleted + {i};
          } else if file.coordinate.Some? {
            chunkMap := chunkMap[file.coordinate.value := chunk];
          }
        }
        i := i + 1;
      }
      assert files[..|files|] == files;
      started := true;
      tasksArranged := true;
    }

    /**
     * Unload the world: the scheduler is shut down, then every chunk is saved,
     * except that a useless chunk whose file already exists has that file
     * deleted instead. A useless chunk without a file is still written.
     */
    method Unload(existingFiles: set<ChunkCoordinate>) returns (deleted: set<ChunkCoordinate>, written: set<ChunkCoordinate>)
      modifies this`running
      ensures !running
      ensures deleted == set c | c in chunkMap && chunkMap[c].IsUseless() && c in existingFiles
      ensures written == chunkMap.Keys - deleted
    {
      running := false;
      deleted, written := {}, {};
      var todo := chunkMap.Keys;
      while todo != {}
        invariant todo <= chunkMap.Keys
        invariant deleted == set c | c in chunkMap.Keys - todo && chunkMap[c].IsUseless() && c in existingFiles
        invariant written == (chunkMap.Keys - todo) - deleted
        decreases |todo|
      {
        var c :| c in todo;
        if chunkMap[c].IsUseless() && c in existingFiles {
          deleted := deleted + {c};
        } else {
          written := written + {c};
        }
        todo := todo - {c};
      }
    }
  }
}
