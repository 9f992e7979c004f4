# Particle worker physics kernel

A model of the physics kernel of the particle simulation's web worker. It
covers `resolveCollision` (worker.js:40-75), the pair resolver, and
`runPhysics` (worker.js:77-188), which runs four sub-steps per call. Each
sub-step has four stages:

1. A collision sweep over a uniform bucket grid. The sweep goes backwards
   on even sub-steps and forwards on odd ones. It pairs every stored
   particle with the later ones of its cell and with every stored particle
   of the clipped 3x3 neighbourhood.
2. A clear of the grid.
3. A Verlet update of every particle: gravity, the four walls, the
   pointer's pull, then a damping blend.
4. A rebuild of the grid, in particle index order.

The worker keeps its state in three typed arrays: `spheres` (four reals
per particle: X, Y, OLD_X, OLD_Y), `grid` (`maxParticlesPerCell` slots per
cell) and `nextInCell` (one counter per cell). The model follows that:

- `Kernel.Worker` is a class holding the configuration and the three
  arrays. Its methods follow the source's loops one by one and are proved
  against pure definitions.
- `Particles` reads the flat buffer as a sequence of `Particle` values
  (`View`). It also holds the configuration, including an abstract square
  root.
- `Collision` is the pair resolver on that view, with its geometric
  properties.
- `Grid` covers the bucket grid: the truncating `| 0` cell computation,
  inserts, and what a rebuild leaves in every cell.
- `Sweep` covers the visiting order and the neighbourhood, the sequence
  of pairs one sweep resolves, and resolving pairs in order (`Swept`).
- `Integrator` covers the per-particle update.
- `Kernel` composes the sub-step (`SubStep`, `Stepped`) and holds the
  worker class.

The worker model follows the source's wall response as written, including
the sign of its far-wall term (see Findings below); the intended response is
modelled beside it as `TargetCorrected` and `IntegratedCorrected`. The
sweep reads each cell's counter capped at its capacity (see Left out below).

A result the worker would fill with NaN is `None`. This covers a pair of
coincident particles (zero divided by zero) and a particle index read as
`undefined`. The methods that run a sweep require the outcome to be
defined and ensure the arrays then read as that outcome.

## Model

| member | source | states |
|---|---|---|
| Particles.View | worker.js:129-137 | the flat buffer read as particles: particle `i` is the four entries from `4 i` in the order X, Y, OLD_X, OLD_Y, and a trailing partial group is not a particle |
| Particles.ViewSetPosition | worker.js:59-62 | writing the X and Y entries of particle `i` changes only that particle's position in the view |
| Particles.ViewSetParticle | worker.js:170-175 | writing OLD_X, OLD_Y, then X and Y of particle `i` replaces exactly that particle in the view |
| Collision.Distance | worker.js:53-55 | the distance is the non-negative square root of the squared separation |
| Collision.Normal | worker.js:55-58 | the half-overlap correction `overlap * dist / distance` along the line between the centres |
| Collision.InvDistance | worker.js:69 | the damping `1 / (100 (distance + 0.1))` of the attraction between separated particles |
| Collision.Damped | worker.js:69-73 | the normal scaled by `InvDistance` |
| Collision.Correction | worker.js:54-73 | the displacement of the pair: the normal when the squared separation is below `sumOfRadiiSquared`, the damped normal otherwise |
| Collision.Resolved | worker.js:40-75 | resolving a pair changes only the two particles' current positions; their OLD fields and every other particle stay as they were; the sum of the two positions is unchanged, so the midpoint stays put |
| Collision.Separation2 | worker.js:51-53 | the squared separation of two particles' current positions; stated by `Collision.SeparationTerms` and `Collision.Separation2NonNegative` |
| Collision.SeparationTerms | worker.js:51-53 | the squared distance the worker computes from `xDist` and `yDist` is the pair's squared separation |
| Collision.NormalUnfolds | worker.js:55-58 | the correction vector is half the overlap times the separation divided by the distance |
| Collision.OverlappingCorrection | worker.js:50-62 | for an overlapping pair, the values the worker computes give the displacement `Correction`, which is the normal |
| Collision.WorkerNormal | worker.js:50-58 | the squared distance, distance and normal the worker computes from the two positions are the pair's `Separation2`, `Distance` and `Normal`, whichever branch it then takes |
| Collision.DampedIsCorrection | worker.js:63-73 | past contact distance, the correction is the normal scaled by `InvDistance`, that is by 1 / (100 (distance + 0.1)) |
| Collision.SeparatedCorrection | worker.js:63-73 | for a separated pair, the values the worker computes give `Correction`, which is the normal damped by `invDistance` |
| Collision.ViewPushed | worker.js:59-62 | writing the moved X and Y entries of two distinct particles into the buffer moves exactly those two particles in the view |
| Collision.ViewResolved | worker.js:59-73 | writing the four corrected entries into the buffer gives `Resolved` on its view |
| Collision.OverlapRestoresContact | worker.js:53-62 | an overlapping pair ends exactly `cellSize` apart; the new separation is the old one scaled by the positive factor `cellSize / distance`, so the pair moves apart along the line between the centres |
| Collision.NormalScales | worker.js:56-62 | twice the overlap correction added to the separation scales it by `cellSize / distance` |
| Collision.DistanceAtLeastCell | worker.js:54-65 | with `sumOfRadiiSquared = cellSize^2`, a pair that takes the separated branch is at least `cellSize` apart |
| Collision.DampedNormalScales | worker.js:55-69 | twice the normal scaled by `InvDistance`, added to the separation, scales it by `NudgeFactor`, in each coordinate |
| Collision.DampedScales | worker.js:63-73 | twice the damped correction `Damped` added to the separation scales it by `NudgeFactor` |
| Collision.NudgeScales | worker.js:65-73 | for a separated pair, twice the damped correction added to the separation scales it by `NudgeFactor` |
| Collision.Pushed | worker.js:59-73 | particle `i` moved by `-n` and particle `j` by `+n`, the writes of both branches; stated by `Collision.PushedApart` and `Collision.ViewPushed` |
| Collision.PushedApart | worker.js:70-73 | moving the pair by `-n` and `+n` scales the separation by `k` whenever twice `n` added to it does |
| Collision.NudgedSeparation | worker.js:63-73 | after the nudge, a separated pair's separation is the old one scaled by `NudgeFactor`, coordinate by coordinate |
| Collision.FactorInUnitInterval | worker.js:65-69 | when the distance is at least `cellSize`, the nudge factor lies in (0, 1] |
| Collision.SeparatedPairNudged | worker.js:63-73 | with `sumOfRadiiSquared = cellSize^2`, a separated pair is drawn together along the line between the centres by a factor in (0, 1], so the two never pass each other |
| Collision.SeparatedPairNotFurther | worker.js:63-73 | the nudged pair never ends further apart than it started |
| Collision.ScaledPairCloser | worker.js:70-73 | a pair whose separation is scaled by a factor in (0, 1] ends no further apart |
| Grid.Trunc | worker.js:178-179 | the truncation toward zero inside `| 0`; stated by `Grid.TruncTowardZero` |
| Grid.TruncTowardZero | worker.js:178-179 | truncation never moves away from zero and is off by less than one; values in (-1, 1) truncate to 0 |
| Grid.ToInt32 | worker.js:178-179 | the wrap `| 0` applies lands in the signed 32-bit range, is congruent to its input modulo 2^32 and leaves values already in range unchanged |
| Grid.GridCoord | worker.js:178-179 | the column or row `(v * invCellSize) | 0` of a coordinate is a signed 32-bit integer |
| Grid.ToInt32TruncFloor | worker.js:178-179 | a scaled coordinate in `[0, bound)` becomes its floor |
| Grid.GridCoordFloor | worker.js:178-179 | a coordinate whose scaled value is in `[0, bound)` gets column `floor(v * invCellSize)`, which lies in `[0, bound)` |
| Grid.CellOf | worker.js:178-180 | the cell index `gridY * gridWidth + gridX` of a particle's position, without a bounds check |
| Grid.CellOfInsideGrid | worker.js:178-180 | a particle whose scaled position lies inside the grid lands in a cell of the grid |
| Grid.CellOfWrapsRow | worker.js:178-180 | with no bounds check, a particle one column right of the grid lands in column 0 of the next row |
| Grid.CellInRange | worker.js:88-89 | `gy * gridWidth + gx` of a cell of the grid lies in `[0, gridWidth * gridHeight)` |
| Grid.SlotInRange | worker.js:181-184 | every slot of every cell lies inside `grid` |
| Grid.SlotsDisjoint | worker.js:181-184 | no two cells share a slot, and a cell's slots are distinct |
| Grid.Empty | worker.js:125-126 | after the two `fill(0)` calls the arrays have their allocated sizes and every counter is 0 |
| Grid.Inserted | worker.js:177-185 | an insert into a cell of the grid raises that cell's counter by exactly 1, also when the cell is full. The particle goes into the slot at the old count, and only while that count is below capacity. No other slot or counter changes. An index outside the grid changes nothing |
| Grid.InsertedInside | worker.js:182-185 | the same insert spelled out as the two array updates, for a cell with room and for a full cell |
| Grid.Bucketed | worker.js:125-185 | the rebuild leaves arrays of the allocated sizes with non-negative counters |
| Grid.Members | worker.js:128-184 | the particles of a cell in index order: exactly those that fall into it, strictly increasing |
| Grid.Occupancy | worker.js:88-90 | the number of a cell's slots the sweep reads, stated by `Grid.OccupancyCapped` |
| Grid.OccupancyCapped | worker.js:88-90 | the slots read are the cell's counter capped at `maxParticlesPerCell`: never more than either, and equal to one of them |
| Grid.BucketedHolds | worker.js:125-185 | after the rebuild every cell's counter is the number of particles that fell into it. Its slots hold the first `maxParticlesPerCell` of them in index order, and its other slots hold 0 |
| Grid.InsertedCellHolds | worker.js:182-185 | one insert carries that description from the first `n` particles to the first `n + 1` |
| Grid.BucketedStoresFirstArrivals | worker.js:125-185 | after the rebuild, at most `maxParticlesPerCell` slots of a cell are read. They hold strictly increasing indices of particles lying in that cell. Every particle of the cell is stored unless the cell is full and it arrived after all stored ones |
| Integrator.StepTime | worker.js:79 | the length `deltaTime / 4` of one sub-step; stated by `Integrator.StepTimesCover` |
| Integrator.StepTimesCover | worker.js:78-79 | the four sub-steps together cover `deltaTime` |
| Integrator.GravMult | worker.js:80 | the displacement gravity adds in one sub-step, `0.5 * gravity * stepTime^2`; its sign is stated by `Integrator.GravMultNonNegative` |
| Integrator.GravMultNonNegative | worker.js:80 | gravity's displacement per sub-step is non-negative when gravity points down |
| Integrator.Reflected | worker.js:143-154 | the intended wall response along one axis, stated by `Integrator.ReflectedClear`, `Integrator.ReflectedInside` and `Integrator.FarWallShift` |
| Integrator.ReflectedAsWritten | worker.js:143-154 | the worker's wall response along one axis, stated by `Integrator.ReflectedClear`, `Integrator.ReflectedAsWrittenDiffers`, `Integrator.FarWallShift` and `Integrator.ReflectedAsWrittenInside` |
| Integrator.ReflectedClear | worker.js:143-154 | a coordinate clear of both walls is left as it is by both responses |
| Integrator.ReflectedAsWrittenDiffers | worker.js:143-154 | the worker's response equals the intended one or lies exactly `2 d restitution` beyond it |
| Integrator.FarWallShift | worker.js:146-154 | past the far wall and clear of the near one, the worker's response is `extent - r + d * restitution`, `2 d restitution` beyond the intended one |
| Integrator.ReflectedInside | worker.js:143-154 | with the intended far wall, a particle moving into a wall, not so fast that its reflection crosses the plane, ends inside `[r, extent - r]` |
| Integrator.ReflectedAsWrittenInside | worker.js:143-154 | as written, a coordinate whose step crosses a wall only while it is not moving into the far wall, and whose reflection does not cross the plane, ends inside `[r, extent - r]` |
| Integrator.FarWallAsWrittenEscapes | worker.js:146-154 | the far-wall response as written puts a particle moving into the far wall beyond `extent - r`, while the intended response keeps it inside |
| Integrator.FarWallExample | worker.js:146-148 | a concrete instance: as written the particle lands at 9.5 beyond the limit 9, with the intended response at 8.5 |
| Integrator.Attraction | worker.js:156-168 | the pointer moves a particle only while it is down and the particle is within squared distance 40000 |
| Integrator.Tentative | worker.js:138-141 | the Verlet step repeats the last displacement, plus gravity's displacement vertically; used by the target lemmas below |
| Integrator.Target | worker.js:138-168 | the worker's target: the tentative position through the walls as written, then the pointer's pull; stated by `Integrator.TargetClearOfWalls` and the lemmas below |
| Integrator.TargetCorrected | worker.js:138-168 | the target with the intended far walls; stated by `Integrator.TargetClearOfWalls` and the corrected lemmas below |
| Integrator.TargetClearOfWalls | worker.js:138-168 | with the pointer up, a tentative position clear of all four walls is both the worker's and the intended target |
| Integrator.Blend | worker.js:172-173 | the damping blend of target and current coordinate, stated by `Integrator.BlendEndpoints`, `Integrator.BlendBetween` and `Integrator.BlendShift` |
| Integrator.BlendEndpoints | worker.js:172-173 | the blend gives the target when `lerpFactor = 1` and the current coordinate when it is 0 |
| Integrator.BlendShift | worker.js:172-173 | moving the target by `2 e` moves the blend by `2 lerpFactor e` |
| Integrator.BlendBetween | worker.js:172-173 | with `lerpFactor` in [0, 1] the blend lies between the current and the target coordinate |
| Integrator.Settled | worker.js:170-175 | the blended position with the pre-step position as OLD fields; stated by `Integrator.SettledBetween` |
| Integrator.Integrated | worker.js:137-175 | after the worker's update, a particle's OLD fields equal its pre-step position |
| Integrator.IntegratedCorrected | worker.js:137-175 | the same for the update with the intended far walls |
| Integrator.SettledBetween | worker.js:170-175 | with `lerpFactor` in [0, 1] the settled position lies between the pre-step position and the target, coordinate by coordinate |
| Integrator.IntegratedBetween | worker.js:170-175 | with `lerpFactor` in [0, 1] the new position lies between the pre-step position and the worker's target, coordinate by coordinate |
| Integrator.TargetXInside | worker.js:138-148 | with the pointer up, the worker's horizontal target stays inside the plane when the step crosses a wall only while the particle is not moving right, under the speed bound |
| Integrator.TargetYInside | worker.js:139-154 | with the pointer up, the worker's vertical target stays inside the plane when the gravity-shifted step crosses a wall only while the particle is not falling, as for a particle at rest on the floor |
| Integrator.IntegratedStaysInside | worker.js:137-175 | with the pointer up and `lerpFactor` in [0, 1], the worker's update keeps a particle inside the plane under those two conditions |
| Integrator.TargetPastRightWall | worker.js:138-168 | with the pointer up, a step crossing the right wall while moving right gives a worker's target `2 xDiff restitution` right of the intended one and beyond `width - r` |
| Integrator.TargetBelowFloor | worker.js:139-168 | the same for a step crossing the floor while falling: `2 yDiff restitution` below the intended target and beyond `height - r` |
| Integrator.IntegratedPastRightWall | worker.js:137-175 | a particle whose step crosses the right wall while moving right ends `2 lerpFactor xDiff restitution` further right than the intended update puts it |
| Integrator.IntegratedEscapesRightWall | worker.js:137-175 | with `lerpFactor = 1` such a particle ends beyond `width - r` |
| Integrator.IntegratedBelowFloor | worker.js:139-175 | a particle whose step crosses the floor while falling ends `2 lerpFactor yDiff restitution` lower than the intended update puts it |
| Integrator.IntegratedEscapesFloor | worker.js:139-175 | with `lerpFactor = 1` such a particle ends beyond `height - r` |
| Integrator.IntegratedFarWallExample | worker.js:137-175 | a particle at `x = 8.5`, previously at 7.5, in a plane 10 wide with `r = 1` and restitution 0.5, pointer up and `lerpFactor = 1`: inside the plane before, at 9.5 after the worker's update, past the limit 9; at 8.5 after the intended one |
| Integrator.TargetCorrectedXInside | worker.js:138-148 | with the intended far wall and the pointer up, the horizontal target of a particle inside the plane stays inside, under the speed bound |
| Integrator.TargetCorrectedYInside | worker.js:139-154 | with the intended floor and the pointer up, the vertical target stays inside when the particle moves into any wall its gravity-shifted step crosses |
| Integrator.IntegratedCorrectedStaysInside | worker.js:137-175 | with the intended far walls, the pointer up and `lerpFactor` in [0, 1], a particle inside the plane moving into the walls it crosses stays inside, under the speed bound |
| Integrator.AttractionCanLeavePlane | worker.js:155-175 | the attraction comes after the walls, so with the pointer down a particle at rest against a wall can be pulled out of the plane |
| Sweep.CellIndex | worker.js:88-89 | the index of a cell of the grid lies below the number of cells |
| Sweep.Swept | worker.js:92-121 | resolving pairs in order keeps the number of particles |
| Sweep.SweptKeeps | worker.js:40-75 | any sequence of resolved pairs leaves every OLD field unchanged and keeps the sum of positions, so the centroid stays put |
| Sweep.ResolvedKeepsSums | worker.js:59-73 | one resolved pair keeps the sum of all positions |
| Sweep.Resolvable | worker.js:40-58 | a pair the worker resolves without NaN: both indices name particles and the particles do not coincide; stated by `Sweep.SweptSingle` |
| Sweep.SweptSingle | worker.js:40-75 | resolving a single pair is defined exactly when both indices name particles that do not coincide, and then it is `Resolved` |
| Sweep.SweptAppend | worker.js:92-121 | resolving `a + b` is resolving `a`, then `b` from its result |
| Sweep.SweptCons | worker.js:98 | a defined sequence starting with a pair starts with a resolvable pair |
| Sweep.Visit | worker.js:84-87 | the `k`-th visited cell lies inside the grid |
| Sweep.VisitPosition | worker.js:86-87 | every cell has a visit number, and the visit at that number is the cell |
| Sweep.PositionOfVisit | worker.js:86-87 | the visit number of the `k`-th visited cell is `k` |
| Sweep.VisitsEveryCellOnce | worker.js:84-87 | in either direction the sweep visits every cell of the grid, and none twice |
| Sweep.VisitReversed | worker.js:84-87 | the even-step order is the odd-step order backwards |
| Sweep.NeighbourRow | worker.js:108-111 | the inner neighbour loop visits cells of the grid in one row, adjacent to the base cell, never the base cell, left to right |
| Sweep.NeighbourRows | worker.js:107-111 | the outer neighbour loop visits adjacent cells of the grid other than the base cell, in row-major order, at most three per row |
| Sweep.Neighbours | worker.js:102-111 | the cells the neighbour loops visit for a base cell; stated by `Sweep.NeighboursBounded` and `Sweep.NeighboursComplete` |
| Sweep.NeighboursBounded | worker.js:102-111 | the neighbourhood lies inside the grid and never wraps around an edge. It never contains the base cell, has no cell twice and has at most 8 cells |
| Sweep.NeighboursComplete | worker.js:102-111 | every cell of the grid adjacent to the base cell is in its neighbourhood |
| Sweep.NeighbourRowContains | worker.js:108-111 | an adjacent cell of the row at or right of `adjX` is visited by the inner loop from `adjX` |
| Sweep.NeighbourRowsContain | worker.js:107-111 | an adjacent cell in row `adjY` or below is visited by the loops from `adjY` |
| Sweep.NeighbourPairsAppend | worker.js:107-120 | the pairs with two lists of cells are the pairs with the first, then with the second |
| Sweep.RowPairs | worker.js:108-120 | the pairs the inner neighbour loop forms from column `adjX` on; stated by `Sweep.RowPairsMatch` |
| Sweep.RowsPairs | worker.js:107-121 | the pairs the outer neighbour loop forms from row `adjY` on; stated by `Sweep.RowsPairsMatch` |
| Sweep.RowPairsMatch | worker.js:108-120 | the inner neighbour loop pairs `sphere1` with the cells of the neighbourhood's row, in its order |
| Sweep.RowsPairsMatch | worker.js:107-121 | the neighbour loops pair `sphere1` with the cells of the neighbourhood in order |
| Sweep.IntraPairs | worker.js:96-99 | the pairs of slot `idx1` with the cell's slots from `idx2` on; stated by `Sweep.IntraPairsEnumerate` |
| Sweep.IntraPairsEnumerate | worker.js:96-99 | slot `idx1` of a cell is paired with each later occupied slot exactly once, in increasing slot order |
| Sweep.AdjPairs | worker.js:116-119 | the pairs of `sphere1` with a neighbour cell's slots from `idxAdj` on; stated by `Sweep.AdjPairsContain` |
| Sweep.AdjPairsContain | worker.js:116-119 | `sphere1` is paired with the particle of every occupied slot of a neighbour cell |
| Sweep.NeighbourPairs | worker.js:107-120 | the pairs of `sphere1` with the stored particles of a list of cells, in order; stated by `Sweep.NeighbourPairsAppend`, `Sweep.NeighbourPairsContain` and `Sweep.RowsPairsMatch` |
| Sweep.NeighbourPairsContain | worker.js:107-120 | `sphere1` is paired with every stored particle of every cell in the list |
| Sweep.CellPairsContain | worker.js:92-121 | every stored particle of the base cell is paired with every stored particle of its neighbourhood |
| Sweep.SweepPairsContain | worker.js:86-124 | a pair of any visited cell is among the sweep's pairs |
| Sweep.OneSideResolved | worker.js:86-121 | a particle of a cell is paired, as first, with every stored particle of each adjacent cell |
| Sweep.CrossCellPairResolvedTwice | worker.js:102-121 | there is no half-neighbourhood: a pair across two adjacent cells is resolved from both sides in one sweep |
| Sweep.VisitAt | worker.js:86-88 | the loops reach cell `(gx, gy)` as visit `RowsDone * gridWidth + ColsDone` |
| Sweep.RowVisitsAt | worker.js:86-87 | every row takes `gridWidth` consecutive visits, after the rows before it |
| Sweep.CellPairs | worker.js:92-121 | the pairs of a base cell from slot `idx1`: each read slot with the later slots of its cell, then with the stored particles of its neighbourhood |
| Sweep.SweepPairs | worker.js:84-124 | the pairs of one sweep from the `k`-th visited cell on: the visited cells' pairs in visiting order |
| Sweep.SweepPairsVisit | worker.js:86-88 | the sweep from a cell's visit is that cell's pairs, then the rest |
| Sweep.RowsDoneAll | worker.js:86 | past the last row every cell has been visited |
| Sweep.NextRow | worker.js:86 | a finished row adds `gridWidth` visits |
| Sweep.RowSweep | worker.js:87-121 | the pairs of the loop over `gx` from column `gx` on, in the sweep's direction; stated by `Sweep.RowSweepCell` and `Sweep.RowSweepMatch` |
| Sweep.RowSweepCell | worker.js:87-88 | the row from column `gx` is that cell's pairs, then the row from the next column, one visit later |
| Sweep.RowSweepMatch | worker.js:87 | the loop over `gx` resolves the row's cells in visiting order; followed by the later rows, it is the rest of the visits |
| Sweep.RowSweepStep | worker.js:87-88 | one turn of the loop over `gx` keeps that match |
| Sweep.RowsSweep | worker.js:86-121 | the pairs of the loop over `gy` from row `gy` on; stated by `Sweep.RowsSweepMatch` |
| Sweep.RowsSweepMatch | worker.js:86 | the loop over `gy` from row `gy` is the rest of the visits |
| Sweep.SweepLoopsMatch | worker.js:86-124 | the two cell loops resolve exactly the pairs of the visiting order |
| Sweep.CellReadsAsWritten | worker.js:89-93 | looping to the raw counter reads as many slots as the counter, past the capacity |
| Sweep.CellReads | worker.js:89-93 | with the counter capped at the capacity, the sweep reads at most `maxParticlesPerCell` slots, all of the cell's own |
| Sweep.CellReadsBelong | worker.js:89-93 | with the cap, after a rebuild every particle read from a cell lies in that cell, and none is read twice |
| Sweep.OverfullCellReadsNextCell | worker.js:89-93 | without the cap, the sweep reads a particle of the next cell as a member of an overfull cell |
| Sweep.TwoCellsBucketed | worker.js:125-185 | the rebuild of the two-cell example: cell 0 counts two particles and stores particle 0, cell 1 counts one and stores particle 2 |
| Sweep.OverfullCellPairsItself | worker.js:89-121 | without the cap, the overfull cell yields particle 2 in slot 1, and its neighbour cell yields particle 2 again, so the neighbour loop pairs particle 2 with itself; no placement of the particles makes that pair resolvable, and the worker writes NaN |
| Kernel.Cells | worker.js:178-180 | the list of cells has one entry per particle, the cell the worker computes for it |
| Kernel.IntegratedAll | worker.js:128-175 | every particle updated, none added or dropped |
| Kernel.SubStep | worker.js:84-186 | a sub-step keeps the number of particles and leaves the grid describing the particles' new positions |
| Kernel.Stepped | worker.js:83-187 | the sub-steps keep the number of particles, and after at least one sub-step the grid describes the final positions |
| Kernel.Worker.constructor | worker.js:10-31 | the worker adopts the configuration and the three arrays it was sent |
| Kernel.Worker.ResolveCollision | worker.js:40-75 | the buffer afterwards reads as the pair resolved, and only the X and Y entries of the two particles change |
| Kernel.Worker.Displacement | worker.js:50-73 | the displacement computed from the four coordinates is `Correction` |
| Kernel.Worker.ResolveAgainstCell | worker.js:113-119 | the loop over a neighbour cell's slots resolves `sphere1` against its stored particles in slot order |
| Kernel.Worker.ResolveAgainstNeighbours | worker.js:102-121 | the neighbour loops resolve `sphere1` against the neighbourhood's stored particles in row-major order |
| Kernel.Worker.ResolveWithinCell | worker.js:93-99 | the inner loop resolves slot `idx1` against each later occupied slot of its cell in order |
| Kernel.Worker.BaseCell | worker.js:88-89 | the base cell's first slot index, and the number of its slots read |
| Kernel.Worker.SweepSlot | worker.js:92-121 | one turn of the loop over `idx1` resolves the slot's pairs within the cell, then around it |
| Kernel.Worker.SweepCell | worker.js:88-122 | all pairs of the base cell are resolved in order |
| Kernel.Worker.SweepRow | worker.js:87-123 | the cells of a row are resolved in the sweep's direction |
| Kernel.Worker.SweepCells | worker.js:84-124 | one sweep resolves the pairs of every cell in visiting order |
| Kernel.Worker.ClearGrid | worker.js:125-126 | the grid and counters are all 0 |
| Kernel.Worker.Bounce | worker.js:143-154 | the two wall branches along one axis compute `ReflectedAsWritten`: reflected off the wall at 0, then placed at `extent - r + d * restitution` past the wall at `extent` |
| Kernel.Worker.NewPosition | worker.js:137-168 | the position before damping is `Target`: Verlet step, gravity, the walls as written, then the pointer's pull |
| Kernel.Worker.IntegrateParticle | worker.js:128-175 | particle `i` becomes `Integrated`, no other particle changes, and `finalX`, `finalY` are its new position |
| Kernel.Worker.InsertParticle | worker.js:177-185 | the grid afterwards is `Inserted` with the particle's computed cell |
| Kernel.Worker.IntegrateNext | worker.js:128-185 | one turn of the rebuild loop extends the integrated and bucketed prefix by one particle |
| Kernel.Worker.IntegrateAndRebuild | worker.js:125-186 | every particle is integrated and the grid is the rebuild over their new cells |
| Kernel.Worker.RunSubStep | worker.js:83-186 | one sub-step is the sweep with the grid it starts with, then the integration and rebuild |
| Kernel.Worker.RunPhysics | worker.js:77-188 | the four sub-steps, each sweeping with the grid the previous one left |
| Kernel.SteppedSome | worker.js:83 | a run of sub-steps that does not fail starts with a sub-step that does not fail |
| Kernel.SteppedNext | worker.js:83 | and it continues from the state that sub-step leaves |
| Kernel.RebuildStep | worker.js:128-185 | integrating particle `i` extends the integrated prefix by one particle, and inserting it extends the bucketed prefix by its cell |
| Kernel.IntraPairsStep | worker.js:96-99 | the inner loop pairs slot `idx1` with slot `idx2` first, then with the later slots |
| Kernel.CellPairsDone | worker.js:92 | past the read slots, a base cell has no pairs left |
| Kernel.CellPairsStep | worker.js:92-121 | the pairs of slot `idx1` are those within the cell, then those around it, then those of the later slots |
| Kernel.RowBegins | worker.js:107-108 | before the inner neighbour loop, the row's pairs come first, then the later rows' |
| Kernel.CellBegins | worker.js:108-119 | before a cell of the inner loop, a cell other than the base cell is in the grid and its pairs resolve |
| Kernel.CellEnds | worker.js:108-120 | after a cell of the inner loop, the rest of the row and the later rows lead to the same end state |

## Left out

- IEEE-754 arithmetic: coordinates are unbounded reals. NaN results (a coincident pair dividing zero by zero, a particle index read as `undefined`) are `None`. Rounding, infinities and overflow are not modelled.
- `Math.sqrt` is the `sqrt` field of `Config`. Only its defining property is known: the non-negative root of a non-negative real.
- `Math.pow(0.999, stepTime / 0.002)` (worker.js:81) is the `lerpFactor` field of `Frame`. `Integrator.IntegratedBetween` assumes it lies in [0, 1].
- The attraction force law (worker.js:161-166) is the `pull` field of `Frame`. Only its gating by `mouseDown` and the reach `40000` is modelled. The law itself also divides by zero on a particle exactly under the pointer.
- The message plumbing (worker.js:1, 9-38): `importScripts`, the `onmessage` dispatch and `postMessage`. The `init` branch is the `Kernel.Worker` constructor. The update branch is a call of `RunPhysics` with a `Frame`.
- main.js (rendering, UI, the random initial placement) is not part of this model. Only its constants are used: four fields per particle, `sumOfRadiiSquared = cellSize * cellSize` as an explicit precondition where needed.
- Concurrency between the main thread and the worker, and the buffer handoff.
- The particle count `numSpheres`, `sphereFields` and the field offsets are fixed: four fields in the order X, Y, OLD_X, OLD_Y.
- The element type of `nextInCell` is not in the source: worker.js only receives the array (worker.js:3, 15) and main.js never allocates it. Counters are unbounded integers, so any wrap-around or saturation of a fixed-width array is not modelled.
- Kernel.Worker: the three arrays are `const` fields. The worker only ever assigns them once, at `init`.
- Kernel.Worker.RunPhysics, RunSubStep, SweepCells, SweepRow, SweepCell, SweepSlot, ResolveWithinCell, ResolveAgainstNeighbours, ResolveAgainstCell: these require that the sweep's outcome is defined (no coincident pair, every index names a particle). The worker runs on in those cases and writes NaN. The model does not follow it there.
- Kernel.Worker.ResolveCollision: requires both indices to name particles with nonzero separation, for the same reason.
- Integrator.IntegratedStaysInside: there is no unconditional boundary invariant. The far walls as written put a particle moving into them past the limit (`Integrator.IntegratedPastRightWall`, `Integrator.IntegratedBelowFloor`). So containment of the worker's update is stated only with the pointer up, under the speed bound, for particles that cross a wall only while not moving into the far wall. Containment for every particle moving into the walls holds only with the intended far walls (`Integrator.IntegratedCorrectedStaysInside`). The pointer's pull also comes after the walls (`Integrator.AttractionCanLeavePlane`).
- Kernel.Worker.BaseCell, SweepCell, ResolveWithinCell, ResolveAgainstCell: these cap the per-cell counter at `maxParticlesPerCell` and never read past the cell's own block. The worker loops to the raw counter (worker.js:89-93, 114-117). For an overfull cell it reads slots of the next cell's block, which hold that cell's particles or the 0 left by the clear, or lie past the end of `grid` for the last cell. That read forms pairs the capped read does not. They are ordinary extra resolutions unless they pair a particle with itself (`Sweep.OverfullCellPairsItself`) or with a coincident one, or read past the end of `grid`; those write NaN. The model keeps the intended, capped read, so the worker methods do not capture the extra pairs of an overfull cell. The uncapped read is modelled separately (`Sweep.CellReadsAsWritten`).
- Kernel.Worker.NewPosition: the attraction offset is computed from the particle's current position. The worker reads it from `spheres` before it writes anything, so this is the same value.
- The grid is stale by design. Each sweep uses the grid rebuilt at the end of the previous sub-step (or the previous call) and moves particles without updating it. `Kernel.SubStep` states this; no property claims the grid matches the positions during the sweep.
- Cross-cell pairs are resolved twice per sweep, once from each side (`Sweep.CrossCellPairResolvedTwice`). No property assumes a half-neighbourhood.
- Convergence, stability and non-overlap over many steps are not claimed. The code does not promise them.

## Findings

| source | as written | input that shows it | evidently intended | confidence | as-written member | corrected member |
|---|---|---|---|---|---|---|
| worker.js:89-93 | the sweep loops `idx1` up to the raw counter `nextInCell[cell]`, which counts dropped particles too, so slots past `maxParticlesPerCell` are read from the next cell's block (also worker.js:114-117 for neighbour cells) | two cells with capacity 1, particles 0 and 1 in cell 0 and particle 2 in cell 1: the sweep reads particles 0 and 2 as members of cell 0, then reads particle 2 again from neighbour cell 1 and resolves it against itself, which writes NaN | read at most `maxParticlesPerCell` slots, the cell's own | not executed | Sweep.OverfullCellReadsNextCell | Sweep.CellReadsBelong |
| worker.js:146-154 | the far-wall response is `width - sphereRadius + xDiff * restitution` (and the same vertically), the near wall's formula without the sign flip, so a particle moving into the far wall is placed beyond it | `r = 1`, `restitution = 0.5`, `width = 10`, pointer up, `lerpFactor = 1`, a particle at `x = 8.5` previously at 7.5: as written it lands at 9.5, beyond the limit 9 | `width - sphereRadius - xDiff * restitution`, reflecting the velocity as at the near wall | not executed | Integrator.IntegratedFarWallExample | Integrator.IntegratedCorrectedStaysInside |
