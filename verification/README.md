# CustomCrops world state, in Dafny

This project models `CCWorld`, the per-world state holder of the CustomCrops
Minecraft plugin. A `CCWorld` keeps a map from chunk coordinates to chunks.
Each chunk records the growing crops, pots, sprinklers, greenhouse glass and
scarecrows at block locations. On top of that store, the world runs a set of
rules:

- a day-boundary detector that, from the world clock, fires the consumption
  sweep just after sunrise and the sprinkler sweep a little later in the
  morning, each once per game day, and re-arms both late at night;
- the sprinkler check: one charge is used and every pot of the square below
  the sprinkler gains one water;
- the consumption check: a pot loses one water and one fertilizer use per day,
  unless a soil-retaining fertilizer keeps the water;
- the crop check: death conditions, then grow conditions, then growth by one
  point plus the speed-grow bonus of the pot below the crop;
- the growth step: stage actions run for every point gained, a variation ends
  the step, points are committed, fully grown crops are dropped, and a model
  swap is requested;
- loading chunk files (useless chunks are deleted) and saving them on unload.

Files:

- `records.dfy` holds the per-location records and configuration objects,
  reduced to the fields these rules touch.
- `chunk.dfy` holds a chunk as a value.
- `day_clock.dfy` holds the detector as a pure step function, with lemmas
  over runs of clock readings.
- `growth.dfy` holds the stage scan of the growth step.
- `checks.dfy` holds the decision procedures of the checks.
- `persistence.dfy` holds the load rule.
- `world.dfy` holds the `CCWorld` class. Its `chunkMap` field is reassigned by
  every store method, and each periodic rule is one method whose `ensures`
  ties the new store to the pure definitions above.

The host server, the configuration managers and the random rolls are all
inputs:

- the world clock (`None` once the world is gone);
- the verdicts of death and grow conditions;
- the outcomes of variation actions;
- the soil-retain roll;
- whether the host world is loaded;
- whether the host could remove the old crop model.

What the source hands to the scheduler or to the host is returned as a value:

- a sweep tag;
- a deferred-death verdict;
- a model swap;
- a refresh flag.

On unload, a useless chunk's file is deleted only if it already exists
(lines 136-139 of `CCWorld.java`). A useless chunk without a file is written
like any other chunk, and `Unload` states exactly that. On load, two failures
escape the exception handler: a file name shorter than the extension (line
101), and a file whose object is not a chunk (line 103). Either one ends the
load at that file, before the periodic tasks are started. `Load` models both.

## Model

| member | source | states |
|---|---|---|
| World.CCWorld.constructor | src/main/java/net/momirealms/customcrops/api/object/world/CCWorld.java:73-92 | A new world has an empty chunk map, both day flags cleared, its scheduler running and no periodic task started yet |
| World.CCWorld.GetCropData | src/main/java/net/momirealms/customcrops/api/object/world/CCWorld.java:593-599 | There is a crop at p exactly when p's chunk exists and holds one, and it is that record; a missing chunk means no crop |
| World.CCWorld.GetPotData | src/main/java/net/momirealms/customcrops/api/object/world/CCWorld.java:694-698 | There is a pot at p exactly when p's chunk exists and holds one, and it is that record |
| World.CCWorld.GetSprinklerData | src/main/java/net/momirealms/customcrops/api/object/world/CCWorld.java:667-672 | There is a sprinkler at p exactly when p's chunk exists and holds one, and it is that record |
| World.CCWorld.IsGreenhouse | src/main/java/net/momirealms/customcrops/api/object/world/CCWorld.java:623-627 | True exactly when p's chunk exists and marks p as greenhouse glass |
| World.CCWorld.HasScarecrow | src/main/java/net/momirealms/customcrops/api/object/world/CCWorld.java:645-649 | True exactly when p's chunk exists and holds at least one scarecrow anywhere |
| World.CCWorld.ScarecrowIsChunkWide | src/main/java/net/momirealms/customcrops/api/object/world/CCWorld.java:645-649 | Two locations of the same chunk get the same scarecrow answer: the position inside the chunk is ignored |
| World.CCWorld.GetChunkCropAmount | src/main/java/net/momirealms/customcrops/api/object/world/CCWorld.java:601-605 | Zero for a missing chunk, otherwise the number of crop locations in p's chunk |
| World.CCWorld.ConfigOf | src/main/java/net/momirealms/customcrops/api/object/world/CCWorld.java:384-388 | A configuration is found exactly when there is a crop at p and its key is registered |
| World.CCWorld.CreateNewChunk | src/main/java/net/momirealms/customcrops/api/object/world/CCWorld.java:710-714 | An empty chunk is installed under p's coordinate, replacing whatever was there, and returned |
| World.CCWorld.AddCropData | src/main/java/net/momirealms/customcrops/api/object/world/CCWorld.java:583-591 | Only p's chunk changes (created empty first when missing); afterwards the crop at p is the one added |
| World.CCWorld.RemoveCropData | src/main/java/net/momirealms/customcrops/api/object/world/CCWorld.java:577-581 | A missing chunk is left missing; otherwise only p's crop is dropped; afterwards there is no crop at p and the key set is unchanged |
| World.CCWorld.AddPotData | src/main/java/net/momirealms/customcrops/api/object/world/CCWorld.java:700-708 | Only p's chunk changes (created when missing); afterwards the pot at p is the one added |
| World.CCWorld.RemovePotData | src/main/java/net/momirealms/customcrops/api/object/world/CCWorld.java:571-575 | No change for a missing chunk, otherwise only p's pot is dropped; afterwards there is no pot at p |
| World.CCWorld.AddSprinklerData | src/main/java/net/momirealms/customcrops/api/object/world/CCWorld.java:657-665 | Only p's chunk changes (created when missing); afterwards the sprinkler at p is the one added |
| World.CCWorld.RemoveSprinklerData | src/main/java/net/momirealms/customcrops/api/object/world/CCWorld.java:651-655 | No change for a missing chunk, otherwise only p's sprinkler is dropped; afterwards there is none at p |
| World.CCWorld.AddGreenhouse | src/main/java/net/momirealms/customcrops/api/object/world/CCWorld.java:613-621 | Only p's chunk changes (created when missing); afterwards p is greenhouse glass |
| World.CCWorld.RemoveGreenhouse | src/main/java/net/momirealms/customcrops/api/object/world/CCWorld.java:607-611 | No change for a missing chunk, otherwise only p's mark is dropped; afterwards p is not greenhouse glass |
| World.CCWorld.AddScarecrow | src/main/java/net/momirealms/customcrops/api/object/world/CCWorld.java:635-643 | Only p's chunk changes (created when missing); afterwards p's chunk has a scarecrow |
| World.CCWorld.RemoveScarecrow | src/main/java/net/momirealms/customcrops/api/object/world/CCWorld.java:629-633 | No change for a missing chunk, otherwise only p's scarecrow is dropped from its chunk |
| World.CCWorld.AddWaterToPot | src/main/java/net/momirealms/customcrops/api/object/world/CCWorld.java:674-682 | An existing pot at p gains `amount` water. A missing pot is created with that water only when a pot key is given. No other pot and no crop, sprinkler, greenhouse or scarecrow changes. p's chunk always exists afterwards |
| World.CCWorld.AddFertilizerToPot | src/main/java/net/momirealms/customcrops/api/object/world/CCWorld.java:684-692 | The pot at p carries the fertilizer afterwards; a missing pot is created dry under the given key |
| DayClock.Step | src/main/java/net/momirealms/customcrops/api/object/world/CCWorld.java:169-204 | The arm taken is characterised: consume exactly for a reading below 100 with its flag clear, water exactly for a reading in (1950, 2050) with its flag clear, re-arm exactly for a reading above 23900, shutdown exactly when the world is gone. Each flag after the step is a closed formula of the time and the old flag: set in its window, kept until a reading after 23900. Each sweep is dispatched exactly when its window is hit with the flag clear and scheduling on. The date advances exactly when consumption fires with automatic season change |
| World.CCWorld.DayTick | src/main/java/net/momirealms/customcrops/api/object/world/CCWorld.java:169-204 | Once a load has started the tasks and while the scheduler runs, the flags and result follow DayClock.Step, and the scheduler stops exactly when the clock reading is absent. Before the start or after a shutdown, a run is cancelled: no flag changes, nothing is dispatched and the date does not advance |
| DayClock.AtMostOncePerDay | src/main/java/net/momirealms/customcrops/api/object/world/CCWorld.java:164-199 | Over any readings that do not pass 23900, consumption and sprinkler arms each fire at most once, and never when their flag was already set |
| DayClock.ConsumesExactlyOnce | src/main/java/net/momirealms/customcrops/api/object/world/CCWorld.java:173-185 | With the consumption flag clear and some reading below 100 before the re-arm time, consumption fires exactly once |
| DayClock.WorksExactlyOnce | src/main/java/net/momirealms/customcrops/api/object/world/CCWorld.java:186-195 | With the sprinkler flag clear and some reading strictly between 1950 and 2050 before the re-arm time, the sprinkler arm fires exactly once |
| DayClock.EarlyReadingsIdleOnceConsumed | src/main/java/net/momirealms/customcrops/api/object/world/CCWorld.java:173-199 | Once consumed today, a reading below 100 changes no flag and dispatches nothing |
| DayClock.SampleDay | src/main/java/net/momirealms/customcrops/api/object/world/CCWorld.java:169-204 | Readings 50, 2000, 24000, 50 take the consume, water, re-arm and consume arms in that order |
| World.CCWorld.WaterRow | src/main/java/net/momirealms/customcrops/api/object/world/CCWorld.java:356-358 | Every pot in row i of the square gains one water. All other pots and records are unchanged per location, and every existing chunk keeps the same crops, sprinklers, greenhouses, scarecrows and pot locations. No chunk is lost, and any chunk created is empty |
| World.CCWorld.WaterSquare | src/main/java/net/momirealms/customcrops/api/object/world/CCWorld.java:355-359 | Every pot in the (2r+1)² square one block below p gains exactly one water. Every existing chunk keeps the same crops, sprinklers, greenhouses, scarecrows and pot locations. Chunks created on the way are empty |
| World.CCWorld.SprinklerCheck | src/main/java/net/momirealms/customcrops/api/object/world/CCWorld.java:347-364 | No sprinkler: no change. A charged sprinkler loses one charge (removed when it reaches 0) and waters its whole square. An uncharged one is removed and waters nothing. Every existing chunk keeps the same crops, greenhouses, scarecrows and pot locations, and the same sprinklers apart from the one at p. Chunks created are empty |
| Checks.Consume | src/main/java/net/momirealms/customcrops/api/object/world/CCWorld.java:317-329 | A wet pot loses one water unless soil-retain fires. The fertilizer loses one use, and is dropped at its last. Refresh exactly when the pot dried out or the fertilizer ran out, both reductions always applied |
| World.CCWorld.ConsumeCheck | src/main/java/net/momirealms/customcrops/api/object/world/CCWorld.java:317-329 | No pot: no change and no refresh. Otherwise the stored pot becomes the Checks.Consume result and the refresh flag is its verdict |
| Checks.FirstDeath | src/main/java/net/momirealms/customcrops/api/object/world/CCWorld.java:392-409 | Returns the index of the first death condition whose delay is not -1; None exactly when every condition reports -1 |
| Checks.FirstUnmet | src/main/java/net/momirealms/customcrops/api/object/world/CCWorld.java:411-418 | Returns the index of the first grow condition that fails; None exactly when all hold |
| Checks.GrowPoints | src/main/java/net/momirealms/customcrops/api/object/world/CCWorld.java:420-427 | One point, plus the bonus when the pot below has a speed-grow fertilizer |
| Growth.ScanStages | src/main/java/net/momirealms/customcrops/api/object/world/CCWorld.java:451-469 | The nested stage/action loop yields exactly the scan ScanUpTo defines over stages current+1 .. current+points |
| Growth.RunActionsStopped | src/main/java/net/momirealms/customcrops/api/object/world/CCWorld.java:459-467 | Once a variation ended the step, later actions of the stage are not run |
| Growth.RunActionsStopsIff | src/main/java/net/momirealms/customcrops/api/object/world/CCWorld.java:459-467 | Running a stage's actions ends the step exactly when one of them is a variation that reports true |
| Growth.ScanStopped | src/main/java/net/momirealms/customcrops/api/object/world/CCWorld.java:453-469 | After an aborted stage, later stages add nothing to the scan |
| Growth.AbortedIffVariationFires | src/main/java/net/momirealms/customcrops/api/object/world/CCWorld.java:453-469 | The growth step is aborted exactly when some stage in range has a variation that reports true |
| Growth.NextModelIsHighestStage | src/main/java/net/momirealms/customcrops/api/object/world/CCWorld.java:452-456 | For a completed scan, the requested model is that of the highest stage in range that names one, and there is none exactly when no stage in range names a model |
| Growth.CompletedScanRanEverything | src/main/java/net/momirealms/customcrops/api/object/world/CCWorld.java:453-469 | In a completed scan every action of every stage in range was run |
| Growth.AbortedScanRanPrefix | src/main/java/net/momirealms/customcrops/api/object/world/CCWorld.java:453-469 | Let j be the first stage in range with a firing variation, and k the first firing action of j. Then the step is aborted. Every action of the earlier stages has run, and so have the actions of stage j up to k. Nothing after that has run |
| Growth.RunActionsRanAll | src/main/java/net/momirealms/customcrops/api/object/world/CCWorld.java:459-467 | When no variation fired, every action of the stage prefix was run |
| Growth.SampleStagesThreeAndFive | src/main/java/net/momirealms/customcrops/api/object/world/CCWorld.java:453-469 | Stages 3 and 5 with models and no actions: a scan of 3..5 completes and requests stage 5's model |
| World.CCWorld.AddCropPoint | src/main/java/net/momirealms/customcrops/api/object/world/CCWorld.java:450-507 | The scan is ScanUpTo over the points gained. An aborted scan changes nothing and asks for no swap. Otherwise the points are committed and the crop is removed once it reaches the maximum. A swap is requested exactly when a model was seen and the host world is loaded |
| World.CCWorld.CompleteModelSwap | src/main/java/net/momirealms/customcrops/api/object/world/CCWorld.java:488-492 | The new model is placed exactly when the old one was removed; otherwise the crop record is dropped |
| World.CCWorld.AddCropPointAt | src/main/java/net/momirealms/customcrops/api/object/world/CCWorld.java:437-448 | False with no change when there is no crop; false, dropping the crop, when its configuration is gone; true otherwise, with no change for zero points and the growth step for any other amount |
| World.CCWorld.CropCheck | src/main/java/net/momirealms/customcrops/api/object/world/CCWorld.java:382-429 | Each verdict comes with the state it leaves. No crop: no change. Missing configuration: crop dropped. First death with delay 0: crop dropped now. Another delay: a deferred death at p. No death and the first unmet grow condition: no change. Otherwise growth by GrowPoints of the pot below |
| World.CCWorld.FireDeferredDeath | src/main/java/net/momirealms/customcrops/api/object/world/CCWorld.java:400-404 | The deferred death removes only the crop at the copied location |
| World.CCWorld.Load | src/main/java/net/momirealms/customcrops/api/object/world/CCWorld.java:95-124 | An unlistable folder changes nothing and starts nothing. A completed load records that the periodic tasks are started. Otherwise the chunk map becomes Persistence.LoadInto of the files in order. The tasks start exactly when no file aborted the load. The deleted files are exactly those holding a readable useless chunk that come before any aborting file |
| Persistence.CompletedIffNoAbort | src/main/java/net/momirealms/customcrops/api/object/world/CCWorld.java:100-112 | The load reaches its end exactly when no file has a name shorter than the extension or holds a non-chunk object |
| Persistence.AbortIgnoresRest | src/main/java/net/momirealms/customcrops/api/object/world/CCWorld.java:100-112 | After an aborting file nothing more is loaded: the result is the load of the files before it, marked incomplete |
| Persistence.LoadKeepsOnlyUsefulChunks | src/main/java/net/momirealms/customcrops/api/object/world/CCWorld.java:100-108 | Loading never installs a useless chunk, and every new entry is the content of a loaded file naming that coordinate |
| Persistence.LoadedFilesArePresent | src/main/java/net/momirealms/customcrops/api/object/world/CCWorld.java:100-108 | Every loadable file that comes before any aborting file leaves its coordinate present in the chunk map |
| World.CCWorld.Unload | src/main/java/net/momirealms/customcrops/api/object/world/CCWorld.java:127-145 | The scheduler stops. Exactly the useless chunks whose file exists are deleted, and every other chunk is written, useless or not |
| Chunks.AddedRecordMakesUseful | src/main/java/net/momirealms/customcrops/api/object/world/CCWorld.java:104-108 | A chunk that has received a crop, pot, sprinkler, greenhouse or scarecrow is not useless, so loading keeps it |
| Chunks.KeylessWaterKeepsShape | src/main/java/net/momirealms/customcrops/api/object/world/CCWorld.java:674-682 | Water without a pot key adds no record and keeps every chunk's record locations, and leaves a useless chunk exactly as it was, so the chunks the sprinkler creates stay empty |

## Left out

- Thread pools, the scheduled executor and its discard policy, the pooled task objects and their factories (lines 66-89, 213-230, 232-305, 509-561). Each rule is one sequential method. The sweeps over all chunks and the queueing of per-location tasks (`CCChunk.schedule*Task`, `pushCropTask` and its siblings) are not modelled; a sweep is returned as a tag.
- The growth-pass timer of `arrangeTask` (lines 206-210) and the configured intervals, because they are timing only.
- Season data files read in `load` and written in `unload` (lines 113-122, 146-161), and the chunk files' serialization. A file is modelled by its name, the coordinate its name decodes to, and what deserializing it yields.
- World.CCWorld.Load: a failure in the season block of `load` (for example an unknown season name at line 117) also ends it before the tasks are started. The season block is not modelled, so `started` can be true where such a failure would have stopped the start.
- The host server: the weak world reference, entity loading, and the placing and removing of models and dead models. These become inputs (`hostWorldLoaded`, `oldModelRemoved`) and outputs (`ModelSwap`, `CropVerdict`). `getWorldName` and `getWorld` are plain getters and are left out.
- The death and grow conditions, variations and other growth actions are not modelled. Only their verdicts enter, as oracles keyed by position, so two equal conditions can still give different verdicts. The side effects of non-variation actions are recorded in `Scan.ran` but not performed.
- `CCChunk`, `Pot`, `Sprinkler`, `GrowingCrop`, `Fertilizer` and the configuration classes are not part of this model. Their behaviour is assumed:
  - a chunk is a set of maps and sets keyed by location;
  - a pot is wet when its water is positive;
  - `reduceWater` takes one water and reports reaching zero;
  - `reduceFertilizer` takes one use and drops the fertilizer, reporting it, at zero;
  - adding water to a missing pot creates one only when a pot key is given;
  - adding fertilizer to a missing pot creates a dry pot (water 0) under the given key;
  - `getCropAmount` is the number of crop locations in the chunk;
  - `hasScarecrow` holds when the chunk's scarecrow set is non-empty;
  - a chunk is useless when it holds no record of any kind;
  - there is no cap on a pot's water.
- World.CCWorld.CropCheck: the pot below the crop is read from this world's store. The source asks the global world manager (line 421), which resolves to this world for locations in it.
- The early returns of the scheduled tasks (lines 252, 274, 296) skip returning the pooled object. Only their effect on the store is modelled.
- The sprinkler loop's `addWaterToPot` creates an empty chunk for every missing chunk it touches. The model keeps this, and states only that such chunks are empty.
- Records are values. The source mutates the crop, pot and sprinkler objects in place, shared with the chunk; the model writes the updated record back into its chunk instead.
- Java's 32-bit `int` overflow of points, water and charges is not modelled; integers are unbounded.
- The debug log line (line 472) is left out.
