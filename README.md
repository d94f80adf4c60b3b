# BigWarp nail flattening — a Dafny model

BigWarp lets a user place landmarks ("nails") on a volume. For the flattening workflow, each
nail pins the height of a surface that is being fitted to a cost volume. After every edit a
background solver thread runs these steps:

- It computes a padded bounding box around all nails, clamped to the cost volume.
- It picks the minimum or maximum heightmap by where the box lies in z.
- It pins the box border to the existing heightmap.
- It pins each nail's column so that only the nail's height is free.
- It runs a graph-cut surface search on the box and copies the resulting patch back into the heightmap.
- It takes the mean height of both heightmaps and uses it to parameterise the flattening transform and its crop range.

Around that solve sit small rules:

- the single-slot request mailbox between the editor and the solver thread;
- the gate that decides whether a re-solve is needed;
- assembling homogeneous affine matrices;
- landmark-table row navigation and selection;
- the undo/redo and visualisation action names;
- generating a regular grid of nails;
- the "magic nails" heuristics: the layout of a feature vector sampled along z, the layout of a training set built from all nails, and a bounded descent that relaxes a heightmap value towards the zero crossing of a learned score.

The model is organised by source file:

- `common.dfy` (`Common`) holds Java's `Math.round` and `(long)` conversions, and the `Option`/`Result` types.
- `solve_thread.dfy` (`SolveThreadModel`) holds the mailbox as a class with `RequestResolve`/`Take`/`ShouldWait`, and the `restimateTransformation` gate.
- `flatten_solve.dfy` (`FlattenSolve`) holds the solve step. It is a `Flattener` class over the cost volume (`array3`) and the two heightmaps (`array2`), with the in-place border pinning, nail pinning and patch copy as methods.
- `bigwarp_helpers.dfy` (`BigWarpHelpers`) holds the remaining `BigWarp` helpers.
- `bigwarp_actions.dfy` (`BigWarpActions`) holds the row, selection, naming and grid-nail rules of the actions.
- `magic_nails.dfy` (`MagicNails`) holds the feature/training layouts and the relaxation loop.
- `sema_utils.dfy` (`SemaUtils`) holds both `getAvgValue` overloads.

Each imperative method is proved against a specification function. What the source promises is proved as lemmas about those functions.

## Model

| member | source | states |
|---|---|---|
| Common.JavaRound | src/main/java/bigwarp/BigWarp.java:3802 | `Math.round` returns the integer within half a unit, ties going up |
| Common.Trunc | src/main/java/bigwarp/BigWarpActions.java:1515 | the `(long)` cast truncates towards zero: never past the value, and within one of it |
| Common.JavaRoundUnique | src/main/java/bigwarp/BigWarp.java:3802 | the rounding is the unique integer in [x - 0.5, x + 0.5) |
| SemaUtils.SumAppend | src/main/java/bigwarp/SemaUtils.java:72-76 | the accumulator over a concatenation is the sum of the two accumulations |
| SemaUtils.SumBounds | src/main/java/bigwarp/SemaUtils.java:72-76 | the accumulated sum of n elements lies between n·lo and n·hi |
| SemaUtils.MeanBounds | src/main/java/bigwarp/SemaUtils.java:77 | sum divided by count lies between any lower and upper bound of the elements |
| SemaUtils.AvgValue | src/main/java/bigwarp/SemaUtils.java:63-79 | fails exactly on an empty input; otherwise returns the sum of the elements divided by their count |
| SemaUtils.CellsLength | src/main/java/bigwarp/SemaUtils.java:47-56 | the cells visited by the nested loop number dimension(0)·dimension(1) |
| SemaUtils.GridAvgValue | src/main/java/bigwarp/SemaUtils.java:40-61 | visiting every cell row by row gives the mean of all cells; an empty grid gives no value (0/0) |
| SemaUtils.GridAvgAsWrittenNeverLeavesRow | src/main/java/bigwarp/SemaUtils.java:44-56 | as written, `localize` resets `pos[1]` to 0 on every pass, so the inner loop never ends on a grid two or more cells tall |
| SolveThreadModel.AfterRequestsShape | src/main/java/bigwarp/BigWarp.java:3603-3615 | after any batch of requests the slot is pending with the last request's side and row, and the last point supplied (else the old one) |
| SolveThreadModel.Coalescing | src/main/java/bigwarp/BigWarp.java:3372-3376 | a take after any non-empty batch hands over exactly one request (the coalesced last one) and empties the slot |
| SolveThreadModel.WaitsOnlyWhenIdle | src/main/java/bigwarp/BigWarp.java:3588-3599 | after a take the worker waits exactly when no request arrived during its pass |
| SolveThreadModel.SolveThread.RequestResolve | src/main/java/bigwarp/BigWarp.java:3603-3615 | sets pending, overwrites side and row, and replaces the point only when one is given |
| SolveThreadModel.SolveThread.Take | src/main/java/bigwarp/BigWarp.java:3372-3376 | reads and clears the flag in one step; a request is returned exactly when one was pending |
| SolveThreadModel.SolveThread.ShouldWait | src/main/java/bigwarp/BigWarp.java:3588-3599 | wait only when nothing is pending |
| SolveThreadModel.AnyChangedMeaning | src/main/java/bigwarp/BigWarp.java:2521-2522 | the `||` reduction is empty exactly for no flags, and otherwise true exactly when some flag is set |
| SolveThreadModel.NeedsResolveMeaning | src/main/java/bigwarp/BigWarp.java:2524 | re-solve exactly when there are no flags, some flag is set, or the active row count changed |
| SolveThreadModel.ResolveGate.RestimateTransformation | src/main/java/bigwarp/BigWarp.java:2517-2535 | when the gate opens, issues a global request (row -1, no point) and records the row count; otherwise changes nothing; always returns true |
| FlattenSolve.NailToGrid | src/main/java/bigwarp/BigWarp.java:3799-3805 | each grid coordinate is within half a unit of the nail's coordinate on the same axis |
| FlattenSolve.GridNails | src/main/java/bigwarp/BigWarp.java:3403 | every nail is snapped, in order |
| FlattenSolve.RegionMinIsLeast | src/main/java/bigwarp/BigWarp.java:3398-3408 | `regionMin[d]` is the least of `dims[d]-1` and every nail's clamped lower end, and equals one of them |
| FlattenSolve.RegionMaxIsGreatest | src/main/java/bigwarp/BigWarp.java:3398-3409 | `regionMax[d]` is the greatest of 0 and every nail's clamped upper end, and equals one of them |
| FlattenSolve.RegionWithinVolume | src/main/java/bigwarp/BigWarp.java:3398-3411 | with at least one nail, 0 <= regionMin[d] <= regionMax[d] <= dims[d]-1 |
| FlattenSolve.RegionCoversNails | src/main/java/bigwarp/BigWarp.java:3398-3411 | every nail coordinate inside the volume lies inside the region |
| FlattenSolve.RegionOrderIndependent | src/main/java/bigwarp/BigWarp.java:3398-3411 | the region depends only on the set of nails, not their order or repetition |
| FlattenSolve.RegionStep | src/main/java/bigwarp/BigWarp.java:3407-3410 | one more nail takes the min/max with that nail's clamped ends |
| FlattenSolve.NailRegion | src/main/java/bigwarp/BigWarp.java:3398-3411 | the bounding-box loop computes exactly the region fold |
| FlattenSolve.ChooseHeightmap | src/main/java/bigwarp/BigWarp.java:3436-3448 | the max heightmap is chosen exactly when both region z ends exceed half the depth |
| FlattenSolve.PatchOffset | src/main/java/bigwarp/BigWarp.java:3436-3448 | the offset is the region's max z for the max heightmap and its min z otherwise, so it lies in the region's z range |
| FlattenSolve.ChooseHeightmapOfInterval | src/main/java/bigwarp/BigWarp.java:3436 | for a proper interval the choice depends on the lower end alone |
| FlattenSolve.NailRegionBorder | src/main/java/bigwarp/BigWarp.java:3625-3699 | exactly the border cells (y = min/max over x in [min0, max0), x = min/max over y in [min1, max1), z in [min2, max2)) are written, 0 where z is the rounded height and the penalty elsewhere; every other cell is unchanged |
| FlattenSolve.PinAlongX | src/main/java/bigwarp/BigWarp.java:3633-3663 | one x of the first pass writes the two cells per z at min/max y and nothing else |
| FlattenSolve.PinAlongY | src/main/java/bigwarp/BigWarp.java:3666-3696 | one y of the second pass writes the two cells per z at min/max x and nothing else |
| FlattenSolve.NailWindowAsWritten | src/main/java/bigwarp/BigWarp.java:3814-3821 | as written, the z window is the lower or upper half of [0, dimension(2)) |
| FlattenSolve.NailWindowAsWrittenMissesNail | src/main/java/bigwarp/BigWarp.java:3807-3834 | a nail at z 120 with region z range [100, 140] gets the window [20, 41), which misses the nail and the region |
| FlattenSolve.NailWindow | src/main/java/bigwarp/BigWarp.java:3814-3821 | the corrected window stays inside the region's z range and holds the nail's height whenever that lies in the region |
| FlattenSolve.ApplyNail | src/main/java/bigwarp/BigWarp.java:3807-3834 | only the nail's column inside the window changes: 0 at the nail's z, the penalty elsewhere |
| FlattenSolve.NailCellZeroed | src/main/java/bigwarp/BigWarp.java:3455-3461 | after all nails, a nail in the region whose column no later nail shares has zero cost at its height |
| FlattenSolve.AfterNailsOffColumns | src/main/java/bigwarp/BigWarp.java:3455-3461 | nails change nothing outside their own columns |
| FlattenSolve.AfterNailsOffBox | src/main/java/bigwarp/BigWarp.java:3455-3461 | nails inside the region's rectangle change no cell outside the region box |
| FlattenSolve.PinnedCostOffBox | src/main/java/bigwarp/BigWarp.java:3451-3461 | with every nail inside the rectangle, a cell outside the region box keeps its old cost through the border-then-nails pinning |
| FlattenSolve.GridNailsInRegion | src/main/java/bigwarp/BigWarp.java:3398-3411 | every nail lies in the x-y rectangle of the region bounded around the nails |
| FlattenSolve.ApplyNails | src/main/java/bigwarp/BigWarp.java:3455-3461 | applying the nails in order leaves each cell at the fold of the nails over its old cost |
| FlattenSolve.PatchHeightmap | src/main/java/bigwarp/BigWarp.java:3476-3498 | heightmap cells inside the solved x-y rectangle take the patch value and all others are unchanged |
| FlattenSolve.CropParams | src/main/java/bigwarp/BigWarp.java:3528-3532 | the crop range is the rounded means widened by `flattenPadding` on each side |
| FlattenSolve.Flattener.Solve | src/main/java/bigwarp/BigWarp.java:3393-3532 | no nails: cost volume and heightmaps unchanged; otherwise the box is the nail region, every cost cell is the border-then-nails pinning of its old value and every cell outside the box keeps its old value, the chosen heightmap is patched inside the rectangle and the other one is unchanged; then the means and crop range of both heightmaps |
| FlattenSolve.Flattener.SolveNails | src/main/java/bigwarp/BigWarp.java:3393-3498 | with nails, the box is the nail region inside the volume, and the pinning, search and patch effect holds for the heightmap chosen for it |
| FlattenSolve.Flattener.SolveRegion | src/main/java/bigwarp/BigWarp.java:3451-3498 | every cost cell is the border-then-nails pinning of its old value, the chosen heightmap holds the search result inside the rectangle and its old values outside, and the other heightmap is unchanged |
| FlattenSolve.Flattener.Means | src/main/java/bigwarp/BigWarp.java:3505-3532 | the crop parameters are built from the mean of all cells of each heightmap; an empty heightmap gives none |
| BigWarpHelpers.AffinePartOfTpsHC | src/main/java/bigwarp/BigWarp.java:1430-1471 | the n x (n+1) matrix maps every x to x + A·x + t, the spline's affine part with the identity put back |
| BigWarpHelpers.AffineMatrix2DtoAffineMatrix3D | src/main/java/bigwarp/BigWarp.java:1006-1014 | the 2D linear part and translation are copied into rows 0-1 (columns 0, 1, 3); every other entry keeps its old value |
| BigWarpHelpers.Lift2DAsWrittenCollapsesZ | src/main/java/bigwarp/BigWarp.java:945-993 | as written, the target is zero-initialised, so the lifted transform sends every point to z = 0: the 2D identity moves (0, 0, 5) to the origin |
| BigWarpHelpers.Lift2DKeepsZ | src/main/java/bigwarp/BigWarp.java:974-993 | the corrected lift acts as the 2D transform on (x, y) and keeps z |
| BigWarpHelpers.MovingToFixedAffine3D | src/main/java/bigwarp/BigWarp.java:945-1004 | the 2D branch with an identity-initialised target yields the corrected lift |
| BigWarpHelpers.UpdateRowSelection | src/main/java/bigwarp/BigWarp.java:1558-1571 | selects the next row when it exists, else the last edited row when it is in range, else nothing; any selected row lies in [0, rowCount) |
| BigWarpHelpers.GetSelectedUnpairedRow | src/main/java/bigwarp/BigWarp.java:1579-1586 | returns the selected row exactly when it lacks the point of the given side, else -1 |
| BigWarpHelpers.BinarySearch | src/main/java/bigwarp/BigWarp.java:2007 | on a sorted array: a non-negative result holds the key, a negative one means the key is absent |
| BigWarpHelpers.WrapSourcesAsTransformed | src/main/java/bigwarp/BigWarp.java:2001-2020 | keeps order and length; source i is wrapped under the name "xfm_i" exactly when i is listed |
| BigWarpHelpers.DetectNumDims | src/main/java/bigwarp/BigWarp.java:2590-2610 | 3 exactly when some source is more than one voxel deep, else 2 |
| BigWarpHelpers.ModeAfterProperties | src/main/java/bigwarp/BigWarp.java:1473-1495 | the mode ends as requested, handlers and cursors stay consistent with it, a repeated call changes nothing, and a call changes the state exactly when the mode differs |
| BigWarpHelpers.Viewer.SetInLandmarkMode | src/main/java/bigwarp/BigWarp.java:1473-1495 | the viewer state becomes the mode transition of the old state, and consistency is preserved |
| BigWarpActions.NextRow | src/main/java/bigwarp/BigWarpActions.java:969-982 | for a non-empty table the next row is always in [0, rowCount) |
| BigWarpActions.NextRowWraps | src/main/java/bigwarp/BigWarpActions.java:975-981 | stepping past the end gives 0, before the start gives rowCount-1, otherwise ±1; a step forward then back returns to the start row |
| BigWarpActions.TableSelection | src/main/java/bigwarp/BigWarpActions.java:797-803 | an out-of-range request clears the selection, otherwise exactly that row is selected |
| BigWarpActions.NextRowSelectable | src/main/java/bigwarp/BigWarpActions.java:984 | the row moved to is one the table selects as a single row |
| BigWarpActions.UndoRedoAction.constructor | src/main/java/bigwarp/BigWarpActions.java:364-374 | the action redoes exactly when its name is "redo" |
| BigWarpActions.GetName | src/main/java/bigwarp/BigWarpActions.java:771-779 | the name ends with the format text "set warp vis type " followed by the type's name, and has no prefix for a null frame, "p " for the moving frame and "q " for the fixed one |
| BigWarpActions.GetNameInjective | src/main/java/bigwarp/BigWarpActions.java:771-779 | different (type, frame) pairs never share a name |
| BigWarpActions.AxisCountMeaning | src/main/java/bigwarp/BigWarpActions.java:1240 | the i-th coordinate c - r + i·f is visited exactly when i·f <= 2r |
| BigWarpActions.AxisIncreasing | src/main/java/bigwarp/BigWarpActions.java:1240 | visited coordinates increase strictly |
| BigWarpActions.AxisWithin | src/main/java/bigwarp/BigWarpActions.java:1240 | visited coordinates stay within c ± r |
| BigWarpActions.AxisHasCentre | src/main/java/bigwarp/BigWarpActions.java:1240 | the centre is visited exactly when the radius is a non-negative multiple of the step |
| BigWarpActions.AxisDistinct | src/main/java/bigwarp/BigWarpActions.java:1240 | no coordinate is visited twice |
| BigWarpActions.AxisFirst | src/main/java/bigwarp/BigWarpActions.java:1240 | the loop starts at c - r, entered exactly when r >= 0 |
| BigWarpActions.AxisNext | src/main/java/bigwarp/BigWarpActions.java:1240 | each later coordinate is the previous plus the step, and the loop exits after the last |
| BigWarpActions.NailPairsShape | src/main/java/bigwarp/BigWarpActions.java:1246-1261 | each cell adds exactly two points: the moving one (the fixed one mapped back) first, then the fixed one at the scaled cell and heightmap height |
| BigWarpActions.AxisStepped | src/main/java/bigwarp/BigWarpActions.java:1240-1242 | the visited coordinates are exactly what a loop from c - r to c + r by the step visits: first c - r, each next one a step further, none past c + r, and the step after the last passes it |
| BigWarpActions.NailColumn | src/main/java/bigwarp/BigWarpActions.java:1242-1264 | one inner pass over any stepped y axis adds the point pairs of the column's cells, skipping the centre |
| BigWarpActions.NailRows | src/main/java/bigwarp/BigWarpActions.java:1240-1265 | the outer loop over any stepped x axis adds the column passes one after another, x outermost |
| BigWarpActions.GenerateNailGrid | src/main/java/bigwarp/BigWarpActions.java:1240-1265 | the points added are the pairs of all grid cells, x outermost, skipping the centre |
| BigWarpActions.RowCellsLength | src/main/java/bigwarp/BigWarpActions.java:1242-1246 | a column has one cell per visited y, less the centre when it is visited |
| BigWarpActions.RowCellsContents | src/main/java/bigwarp/BigWarpActions.java:1242-1246 | a column holds every visited y except the centre's, each once |
| BigWarpActions.GridCellsMembers | src/main/java/bigwarp/BigWarpActions.java:1240-1246 | the grid holds exactly the visited (x, y) pairs other than the centre |
| BigWarpActions.GridCellsCount | src/main/java/bigwarp/BigWarpActions.java:1240-1246 | the grid has |xs|·|ys| cells, less one when the centre is visited |
| BigWarpActions.NailGridCount | src/main/java/bigwarp/BigWarpActions.java:1240-1265 | the action adds 2·(n² − [centre visited]) points, never at the centre, all within the radius |
| MagicNails.FeatureIndexBijection | src/main/java/bigwarp/BigWarpActions.java:1508-1517 | each (dz, mipmap) pair has a slot in [0, numFeatures), which decodes back to the pair |
| MagicNails.FeatureIndexBound | src/main/java/bigwarp/BigWarpActions.java:1508-1517 | the first slot of every z offset, and the slot after the last offset, lie within the vector |
| MagicNails.FeatureIndexOnto | src/main/java/bigwarp/BigWarpActions.java:1508-1517 | every slot of the vector is the slot of some pair |
| MagicNails.FeaturesLayout | src/main/java/bigwarp/BigWarpActions.java:1514-1521 | slot (dz + rfs)·numMipmaps + mipmap holds that level's voxel at the halved, rounded nail x, y and truncated shifted z |
| MagicNails.FeatureVector | src/main/java/bigwarp/BigWarpActions.java:1507-1526 | the loops fill the whole vector with the specified layout |
| MagicNails.TrainingRowBijection | src/main/java/bigwarp/BigWarpActions.java:1360-1362 | each (nail, ztrain) pair has a row in [0, numTrainingPoints), which decodes back to the pair |
| MagicNails.TrainingRowOnto | src/main/java/bigwarp/BigWarpActions.java:1360-1362 | every row belongs to some pair, so every row is written |
| MagicNails.Target | src/main/java/bigwarp/BigWarpActions.java:1388 | the target ztrain / zTraining lies in [-1, 1] with the sign of ztrain; a zero radius gives 0/0 |
| MagicNails.TrainingSet | src/main/java/bigwarp/BigWarpActions.java:1377-1390 | the row of each (nail, ztrain) pair holds the features of the shifted nail and its target |
| MagicNails.Move | src/main/java/bigwarp/BigWarpActions.java:1464-1498 | moves down only when the score below is positive and up only when the score above is negative; a sign change between the scores below and above, in either direction, stops it; a score positive (negative) at all three heights moves down (up) |
| MagicNails.Step | src/main/java/bigwarp/BigWarpActions.java:1461-1501 | one corrected iteration moves by at most one and keeps the cached scores those of the heights around the position |
| MagicNails.StepAsWritten | src/main/java/bigwarp/BigWarpActions.java:1461-1501 | one iteration as written moves the position by at most one |
| MagicNails.RunBounded | src/main/java/bigwarp/BigWarpActions.java:1461-1501 | the loop runs at most maxSteps iterations and each moves the position by at most one |
| MagicNails.RunCoherent | src/main/java/bigwarp/BigWarpActions.java:1461-1501 | without the position bug the cached scores stay those of the current height |
| MagicNails.RunSettles | src/main/java/bigwarp/BigWarpActions.java:1461-1501 | after at least one iteration the loop stops out of steps or where no move applies |
| MagicNails.RelaxSpec | src/main/java/bigwarp/BigWarpActions.java:1433-1505 | the relaxed height is within maxSteps of the start and, unless steps ran out or the start is the -1 sentinel, no move applies at it |
| MagicNails.RelaxAsWrittenBounded | src/main/java/bigwarp/BigWarpActions.java:1433-1505 | as written the result is within maxSteps of start - 1 |
| MagicNails.StepAsWrittenUpReadsStale | src/main/java/bigwarp/BigWarpActions.java:1472-1488 | as written, an up move caches the score one below the new height as the score above it (start 10, score z - 20: height 10's score instead of 12's); the corrected step caches height 12's |
| MagicNails.RelaxAsWrittenOffByOne | src/main/java/bigwarp/BigWarpActions.java:1441-1451 | with a zero score, as written returns start - 1 while the corrected loop returns start |
| MagicNails.RelaxHeightmapAsWritten | src/main/java/bigwarp/BigWarpActions.java:1433-1505 | the loop as written computes the as-written relaxation |
| MagicNails.RelaxHeightmap | src/main/java/bigwarp/BigWarpActions.java:1433-1505 | the corrected loop computes the specified relaxation |

## Left out

- Swing/AWT wiring is not modelled: frames, dialogs, listeners, repaints, log output, and the viewer messages and cursors beyond the state they set. Dialog inputs (grid factor and radius, training radius, max steps) become parameters.
- Thin-plate-spline and affine fitting, `FlattenTransform`, and the foreign transforms are not modelled. They are foreign library code; the transform inverse is a function parameter (`MapBack`).
- The graph-cut surface search is not modelled. It is a function parameter whose one assumed property is the output shape (`ShapedSearch`).
- The SVD training solve and `directionToSurface` are not modelled: they are library linear algebra. The relaxation takes the score as an abstract function of z.
- N5/HDF5 I/O (`saveFlatten`, `loadNails`, `makeFlatAndOriginalSource`, `main`) is not modelled, nor are NailFlat.java, ViewSlab.java, NailTest.java and WarpMagnitudeSource.java.
- The rebuild of the sources after a solve is not modelled: the `index < 0` branch, `setPoint` and the repaints of lines 3536-3579 call foreign code.
- Concurrency is not modelled: each mailbox method is one critical section, and interruption is left out.
- Floating point is modelled as exact reals: rounding error, NaN, infinities, and the float casts of the training targets are left out. `Math.round` is modelled exactly, without its clamping at the ends of the long range. Java's 32- and 64-bit overflow is not modelled.
- The placement loop of `GenerateMagicNailsAction` is modelled only through `RelaxHeightmap`. Its region scan (lines 1319-1352) and the grid walk that calls the relaxation (lines 1406-1429) are not modelled, because they depend on the SVD solution.
- `getNextRow`, `getCostStep`, `getCorrespondingHeightmap`, `getActiveRowCount` and the landmark table are not part of this model; their results are parameters.
- Sources are modelled by their depth alone (`DetectNumDims`), or as opaque values (`WrapSourcesAsTransformed`).
- The `Localizable` overload of `getFeatureVector` is not modelled; it only forwards the coordinates.
- FlattenSolve.ApplyNail: writes through an interval view with absolute coordinates. The model uses the corrected window and does not model the writes the as-written window makes outside the region.
- FlattenSolve.NailRegionBorder, FlattenSolve.ApplyNail, FlattenSolve.ApplyNails, FlattenSolve.PatchHeightmap, FlattenSolve.Flattener.Solve, FlattenSolve.Flattener.SolveNails and FlattenSolve.Flattener.SolveRegion: model the intended writable volume of reals. In the source, the cost volume is an 8-bit `UnsignedByteType` image (BigWarp.java:348). Every pinning write goes through the `Converters.convert` view of `getCostImg()` (BigWarp.java:3701-3704), which rebuilds each sample from the 8-bit image on every `get()`. Those writes therefore do not reach the volume, and an 8-bit cell could not hold `Double.MAX_VALUE` anyway. The same holds for the heightmap patch when NailFlat.java installs converted heightmaps (NailFlat.java:140, 158). These semantics belong to the imglib2 library, which is not part of this model.
- FlattenSolve.Flattener.Solve: requires every nail's grid x and y to lie inside the volume, and a non-empty volume when there are nails. The source then writes outside the cost image or builds an empty interval.
- BigWarpHelpers.UpdateRowSelection: requires nextRow >= 0. `getNextRow` returns a row index; with a negative one the source's `setRowSelectionInterval` would throw.
- BigWarpActions.GenerateNailGrid: requires a positive grid factor. With a factor of 0 or less and a radius of 0 or more the source loop never ends. With a factor of 0 or less and a negative radius the source loop ends at once and adds no nail; that case is not modelled.
- BigWarpActions.TableSelection: on an empty table the source calls `removeRowSelectionInterval(0, -1)`, which throws `IllegalArgumentException` (BigWarpActions.java:800); the model returns the empty selection instead and does not model the exception.
- MagicNails.FeatureVector: requires numMipmaps > 0 and receptiveFieldSize >= 0. The only caller passes 3 and 50.
- MagicNails.TrainingSet: requires zTraining >= 0, because a negative radius makes the source allocate an array of negative size.
- FlattenSolve.Flattener.Means: uses the grid overload with every cell visited. The heightmaps are `DoubleType` images, whose mean the iterable overload computes over the same cells, and a sum of reals does not depend on the visiting order.

## Findings

| source | as written | input that shows it | evidently intended | confidence | as-written member | corrected member |
|---|---|---|---|---|---|---|
| src/main/java/bigwarp/BigWarp.java:3814-3821 | the `applyNail` window is a half of [0, dimension(2)), the region's depth, but is used as absolute z | nail (5, 5, 120) in a 10 x 10 x 200 volume: region z range [100, 140], window [20, 41); the nail's cell is never zeroed | the lower or upper half of the region's own z range | medium, not executed | FlattenSolve.NailWindowAsWrittenMissesNail | FlattenSolve.NailWindow |
| src/main/java/bigwarp/SemaUtils.java:51 | `ra.localize(pos)` copies the accessor's position into `pos` instead of moving the accessor | a grid with dimension(0) >= 1 and dimension(1) >= 2: `pos[1]` returns to 1 after every pass, so the inner loop never ends (a grid one cell tall and at least two wide also never ends, through `pos[0]` in the outer loop; that case is not modelled) | `ra.setPosition(pos)`, visiting every cell once | high, not executed | SemaUtils.GridAvgAsWrittenNeverLeavesRow | SemaUtils.GridAvgValue |
| src/main/java/bigwarp/BigWarpActions.java:1449-1451 | after the priming reads `pos[2]` stays at start - 1 while `solHere` is the score at start | a score of 0 everywhere, any start: the result is start - 1 although no move applies | `pos[2]` reset to the start height before the loop, and each move reading the score one further in its direction (at `pos[2] - 1` after a down move, `pos[2] + 1` after an up move), so that the cached scores stay those below, at and above the current height | high, not executed | MagicNails.RelaxAsWrittenOffByOne | MagicNails.RelaxSpec |
| src/main/java/bigwarp/BigWarpActions.java:1472-1488 | after an up move the score above is read at the moved `pos[2]`, which with the start offset is the new height minus one; down moves read the right height only because of that offset | start 10 and score(z) = z - 20: all three scores are negative, the loop moves up to height 11 and caches score(10) = -10 as the score above instead of score(12) = -8 | each move reading the score one further in its direction from the new height | high, not executed | MagicNails.StepAsWrittenUpReadsStale | MagicNails.RunCoherent |
| src/main/java/bigwarp/BigWarp.java:947-977 | the 2D-to-3D lift writes only rows 0-1 of a zero-initialised 3 x 4 matrix, so row 2 is zero | the 2D identity: the lifted transform sends (0, 0, 5) to (0, 0, 0) | the identity on z (target initialised to the 3D identity) | medium, not executed | BigWarpHelpers.Lift2DAsWrittenCollapsesZ | BigWarpHelpers.Lift2DKeepsZ |
