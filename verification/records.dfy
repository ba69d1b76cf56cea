/**
 * The per-location records the world keeps (crops, pots, sprinklers) and the
 * configuration objects it consults. Their own classes are not part of this
 * model: each is reduced to the fields the world's rules read or write.
 */
module Records {
  import opened Wrappers

  /** A block position in a named world (SimpleLocation). */
  datatype Location = Location(world: string, x: int, y: int, z: int) {

    /** The position offset by (dx, dy, dz) in the same world (SimpleLocation.add). */
    function Add(dx: int, dy: int, dz: int): Location {
      Location(world, x + dx, y + dy, z + dz)
    }
  }

  /** The key of the chunk map (ChunkCoordinate). */
  datatype ChunkCoordinate = ChunkCoordinate(x: int, z: int)

  /** A planted crop: the key of its crop configuration and its growth points (GrowingCrop). */
  datatype GrowingCrop = GrowingCrop(key: string, points: int)

  /** A fertilizer applied to a pot and the number of uses it has left. */
  datatype Fertilizer = Fertilizer(key: string, times: int)

  /** A pot: its configuration key, its optional fertilizer and its water level. */
  datatype Pot = Pot(key: string, fertilizer: Option<Fertilizer>, water: int)

  /** A sprinkler: its configuration key, its remaining water charge and its range. */
  datatype Sprinkler = Sprinkler(key: string, water: int, range: int)

  /** The configuration a fertilizer resolves to; only the two kinds the world inspects are told apart. */
  datatype FertilizerConfig = SpeedGrow(pointBonus: int) | SoilRetain | OtherFertilizer

  /** How a crop is shown in the host world (ItemMode); the world only passes it on. */
  datatype ItemMode = ItemMode(name: string)

  /** A growth action of a stage; `Variation` is the kind that can end the growth step. */
  datatype Action = Variation(name: string) | OtherAction(name: string)

  /** One growth stage: the model it switches to, if any, and its growth actions. */
  datatype StageConfig = StageConfig(model: Option<string>, growActions: seq<Action>)

  /** A death condition and a grow condition, as opaque names; their verdicts are inputs. */
  datatype DeathCondition = DeathCondition(name: string)
  datatype Condition = Condition(name: string)

  /**
   * A crop configuration (CropConfig): display mode, death and grow conditions
   * (a `null` array is the empty sequence), the stage table as a partial map
   * from point index to stage, and the points at which growth is complete.
   */
  datatype CropConfig = CropConfig(
    mode: ItemMode,
    deathConditions: seq<DeathCondition>,
    growConditions: seq<Condition>,
    stages: map<int, StageConfig>,
    maxPoints: int)

  /** The fertilizer configuration a pot's fertilizer resolves to, if any. */
  function FertilizerConfigOf(configs: map<string, FertilizerConfig>, f: Option<Fertilizer>): Option<FertilizerConfig> {
    if f.Some? && f.value.key in configs then Some(configs[f.value.key]) else None
  }

  /** Pot.isWet, as assumed by this model. */
  predicate IsWet(p: Pot) {
    p.water > 0
  }

  /** Pot.reduceWater, as assumed by this model: one water less, reporting whether the pot just dried out. */
  function ReduceWater(p: Pot): (Pot, bool) {
    if p.water <= 0 then (p, false) else (p.(water := p.water - 1), p.water - 1 == 0)
  }

  /** Pot.reduceFertilizer, as assumed by this model: one use less, dropping it and reporting when used up. */
  function ReduceFertilizer(p: Pot): (Pot, bool) {
    match p.fertilizer
    case None => (p, false)
    case Some(f) =>
      if f.times - 1 <= 0 then (p.(fertilizer := None), true)
      else (p.(fertilizer := Some(f.(times := f.times - 1))), false)
  }
}
