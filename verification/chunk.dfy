/**
 * A chunk's state (CCChunk). Its class is not part of this model; it is
 * reduced to the five collections it holds, and its operations to the map
 * and set updates the world relies on.
 */
module Chunks {
  import opened Wrappers
  import opened Records

  datatype Chunk = Chunk(
    crops: map<Location, GrowingCrop>,
    pots: map<Location, Pot>,
    sprinklers: map<Location, Sprinkler>,
    greenhouses: set<Location>,
    scarecrows: set<Location>)
  {
    /** A chunk with nothing in it, which is dropped instead of being kept on disk. */
    predicate IsUseless() {
      crops == map[] && pots == map[] && sprinklers == map[] && greenhouses == {} && scarecrows == {}
    }

    function GetCropData(p: Location): Option<GrowingCrop> {
      if p in crops then Some(crops[p]) else None
    }

    function GetPotData(p: Location): Option<Pot> {
      if p in pots then Some(pots[p]) else None
    }

    function GetSprinklerData(p: Location): Option<Sprinkler> {
      if p in sprinklers then Some(sprinklers[p]) else None
    }

    function AddCropData(p: Location, c: GrowingCrop): Chunk {
      this.(crops := crops[p := c])
    }

    function RemoveCropData(p: Location): Chunk {
      this.(crops := crops - {p})
    }

    function AddPotData(p: Location, pot: Pot): Chunk {
      this.(pots := pots[p := pot])
    }

    function RemovePotData(p: Location): Chunk {
      this.(pots := pots - {p})
    }

    function AddSprinklerData(p: Location, s: Sprinkler): Chunk {
      this.(sprinklers := sprinklers[p := s])
    }

    function RemoveSprinklerData(p: Location): Chunk {
      this.(sprinklers := sprinklers - {p})
    }

    function AddGreenhouse(p: Location): Chunk {
      this.(greenhouses := greenhouses + {p})
    }

    function RemoveGreenhouse(p: Location): Chunk {
      this.(greenhouses := greenhouses - {p})
    }

    function AddScarecrow(p: Location): Chunk {
      this.(scarecrows := scarecrows + {p})
    }

    function RemoveScarecrow(p: Location): Chunk {
      this.(scarecrows := scarecrows - {p})
    }

    /** Whether any scarecrow stands anywhere in the chunk. */
    predicate HasScarecrow() {
      scarecrows != {}
    }

    function CropAmount(): nat {
      |crops|
    }

    /**
     * Water for the pot at `p`: an existing pot gains `amount`; a missing pot
     * is created with that water only when a pot key is given.
     */
    function AddWaterToPot(p: Location, amount: int, potKey: Option<string>): Chunk {
      if p in pots then this.(pots := pots[p := pots[p].(water := pots[p].water + amount)])
      else if potKey.Some? then this.(pots := pots[p := Pot(potKey.value, None, amount)])
      else this
    }

    /** Fertilizer for the pot at `p`; a missing pot is created, dry, with that fertilizer. */
    function AddFertilizerToPot(p: Location, f: Fertilizer, potKey: string): Chunk {
      if p in pots then this.(pots := pots[p := pots[p].(fertilizer := Some(f))])
      else this.(pots := pots[p := Pot(potKey, Some(f), 0)])
    }
  }

  const EmptyChunk: Chunk := Chunk(map[], map[], map[], {}, {})

  /** The chunk under `c`, or a new empty one when there is none. */
  function ChunkOrEmpty(m: map<ChunkCoordinate, Chunk>, c: ChunkCoordinate): Chunk {
    if c in m then m[c] else EmptyChunk
  }

  /** Adding any record to a chunk makes it useful, so it is kept, not deleted, by the load rule. */
  lemma AddedRecordMakesUseful(c: Chunk, p: Location, crop: GrowingCrop, pot: Pot, s: Sprinkler)
    ensures !c.AddCropData(p, crop).IsUseless() && !c.AddPotData(p, pot).IsUseless()
    ensures !c.AddSprinklerData(p, s).IsUseless()
    ensures !c.AddGreenhouse(p).IsUseless() && !c.AddScarecrow(p).IsUseless()
  {
    assert p in c.AddCropData(p, crop).crops && p in c.AddPotData(p, pot).pots;
    assert p in c.AddSprinklerData(p, s).sprinklers;
    assert p in c.AddGreenhouse(p).greenhouses && p in c.AddScarecrow(p).scarecrows;
  }

  /**
   * The two chunks hold records at the same places: the same crops,
   * greenhouses and scarecrows, and pots at the same locations, whose
   * contents may differ. Sprinklers are compared apart from `p`.
   */
  predicate SameShapeExcept(a: Chunk, b: Chunk, p: Location) {
    && a.crops == b.crops && a.greenhouses == b.greenhouses && a.scarecrows == b.scarecrows
    && a.pots.Keys == b.pots.Keys && a.sprinklers - {p} == b.sprinklers - {p}
  }

  /** The two chunks hold the same records everywhere, except possibly the contents of their pots. */
  predicate SameShape(a: Chunk, b: Chunk) {
    && a.crops == b.crops && a.greenhouses == b.greenhouses && a.scarecrows == b.scarecrows
    && a.pots.Keys == b.pots.Keys && a.sprinklers == b.sprinklers
  }

  /**
   * Water without a pot key only changes the water of a pot already there:
   * it adds no record, and a useless chunk (one created only to receive such
   * water) stays exactly as it was.
   */
  lemma KeylessWaterKeepsShape(c: Chunk, p: Location, amount: int)
    ensures SameShape(c, c.AddWaterToPot(p, amount, None))
    ensures c.IsUseless() ==> c.AddWaterToPot(p, amount, None) == c
  {
    if p in c.pots {
      assert c.AddWaterToPot(p, amount, None).pots.Keys == c.pots.Keys;
    }
  }
}
