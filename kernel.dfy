/** The worker's physics kernel: `resolveCollision` and `runPhysics`
  * (worker.js:40-188) working in place on the worker's three typed arrays.
  *
  * Each method is proved against the pure definitions of the other
  * modules: the particle buffer is read through `View`, the grid through
  * `Buckets`.
  */
module Kernel {
  import opened Particles
  import opened Collision
  import opened Grid
  import opened Sweep
  import opened Integrator

  /** The cell of every particle, in index order. */
  function Cells(cfg: Config, ps: seq<Particle>): (cs: seq<int>)
    ensures |cs| == |ps| && forall i :: 0 <= i < |ps| ==> cs[i] == CellOf(cfg, ps[i])
  {
    seq(|ps|, i requires 0 <= i < |ps| => CellOf(cfg, ps[i]))
  }

  /** Every particle integrated. */
  function IntegratedAll(cfg: Config, f: Frame, ps: seq<Particle>): (qs: seq<Particle>)
    ensures |qs| == |ps| && forall i :: 0 <= i < |ps| ==> qs[i] == Integrated(cfg, f, ps[i])
  {
    seq(|ps|, i requires 0 <= i < |ps| => Integrated(cfg, f, ps[i]))
  }

  /** Particles and grid between sub-steps. */
  datatype State = State(particles: seq<Particle>, buckets: Buckets)

  /** Sub-step `step` of `runPhysics` (worker.js:84-186): sweep with the
    * grid left by the previous sub-step, clear the grid, integrate every
    * particle and insert it again.  The grid it leaves describes the
    * particles' positions after integration, which is what the next
    * sub-step's sweep reads even though that sweep moves them first. */
  function SubStep(cfg: Config, f: Frame, s: State, step: nat): (r: Option<State>)
    requires IsSqrt(cfg.sqrt) && Shaped(cfg, s.buckets)
    ensures r.Some? ==> |r.value.particles| == |s.particles|
    ensures r.Some? ==> Holds(cfg, r.value.buckets, Cells(cfg, r.value.particles))
  {
    match Swept(cfg, s.particles, SweepPairs(cfg, s.buckets, step % 2 == 0, 0))
    case None => None
    case Some(qs) =>
      var rs := IntegratedAll(cfg, f, qs);
      BucketedHolds(cfg, Cells(cfg, rs));
      Some(State(rs, Bucketed(cfg, Cells(cfg, rs))))
  }

  /** Sub-steps `step` to `Steps - 1` of one `runPhysics` call. */
  function Stepped(cfg: Config, f: Frame, s: State, step: nat): (r: Option<State>)
    requires IsSqrt(cfg.sqrt) && Shaped(cfg, s.buckets)
    ensures r.Some? ==> |r.value.particles| == |s.particles|
    ensures r.Some? && step < Steps ==> Holds(cfg, r.value.buckets, Cells(cfg, r.value.particles))
    decreases Steps - step
  {
    if step >= Steps then
      Some(s)
    else
      match SubStep(cfg, f, s, step)
      case None => None
      case Some(t) => Stepped(cfg, f, t, step + 1)
  }

  /** The worker's state (worker.js:3-7): the configuration it was sent and
    * the three typed arrays. */
  class Worker {
    const cfg: Config
    const spheres: array<real>
    const grid: array<int>
    const nextInCell: array<int>

    ghost predicate Valid() {
      spheres.Length == 4 * cfg.numSpheres &&
      grid.Length == NumCells(cfg) * cfg.maxParticlesPerCell &&
      nextInCell.Length == NumCells(cfg) &&
      grid != nextInCell &&
      IsSqrt(cfg.sqrt)
    }

    function Particles(): seq<Particle>
      reads spheres
    {
      View(spheres[..])
    }

    function GridState(): Buckets
      reads grid, nextInCell
    {
      Buckets(grid[..], nextInCell[..])
    }

    function Current(): State
      reads spheres, grid, nextInCell
    {
      State(Particles(), GridState())
    }

    /** The `init` message (worker.js:10-31): the worker adopts the
      * configuration and the three arrays the main thread allocated. */
    constructor (config: Config, spheres: array<real>, grid: array<int>, nextInCell: array<int>)
      requires IsSqrt(config.sqrt) && grid != nextInCell
      requires spheres.Length == 4 * config.numSpheres
      requires grid.Length == NumCells(config) * config.maxParticlesPerCell
      requires nextInCell.Length == NumCells(config)
      ensures Valid()
      ensures this.cfg == config && this.spheres == spheres
      ensures this.grid == grid && this.nextInCell == nextInCell
    {
      cfg := config;
      this.spheres := spheres;
      this.grid := grid;
      this.nextInCell := nextInCell;
    }

    /** `resolveCollision(sphere1, sphere2)` (worker.js:40-75): the buffer
      * afterwards reads as the pair resolved (`Resolved`, by `SweptSingle`),
      * and only the X and Y entries of the two particles change. */
    method ResolveCollision(sphere1: int, sphere2: int)
      requires Valid() && Resolvable(Particles(), Pair(sphere1, sphere2))
      modifies spheres
      ensures Valid()
      ensures Swept(cfg, old(Particles()), [Pair(sphere1, sphere2)]) == Some(Particles())
      ensures forall k :: 0 <= k < spheres.Length ==>
                (k != 4 * sphere1 && k != 4 * sphere1 + 1 && k != 4 * sphere2 && k != 4 * sphere2 + 1 ==>
                   spheres[k] == old(spheres[k]))
    {
      ghost var s := spheres[..];
      var sphere1XIndex := sphere1 * 4 + 0;
      var sphere1YIndex := sphere1 * 4 + 1;
      var sphere2XIndex := sphere2 * 4 + 0;
      var sphere2YIndex := sphere2 * 4 + 1;
      var sphere1X := spheres[sphere1XIndex];
      var sphere1Y := spheres[sphere1YIndex];
      var sphere2X := spheres[sphere2XIndex];
      var sphere2Y := spheres[sphere2YIndex];
      var nx, ny := Displacement(View(s)[sphere1], View(s)[sphere2], sphere1X, sphere1Y, sphere2X, sphere2Y);
      spheres[sphere1XIndex] := sphere1X - nx;
      ghost var s1 := s[4 * sphere1 := sphere1X - nx];
      assert spheres[..] == s1;
      spheres[sphere1YIndex] := sphere1Y - ny;
      ghost var s2 := s1[4 * sphere1 + 1 := sphere1Y - ny];
      assert spheres[..] == s2;
      spheres[sphere2XIndex] := sphere2X + nx;
      ghost var s3 := s2[4 * sphere2 := sphere2X + nx];
      assert spheres[..] == s3;
      spheres[sphere2YIndex] := sphere2Y + ny;
      assert spheres[..] == s3[4 * sphere2 + 1 := sphere2Y + ny];
      ViewResolved(cfg, s, sphere1, sphere2, nx, ny);
      SweptSingle(cfg, View(s), Pair(sphere1, sphere2));
    }

    /** The displacement `resolveCollision` computes for particles `a` and
      * `b` from their coordinates (worker.js:50-73): `Correction`. */
    method Displacement(ghost a: Particle, ghost b: Particle, sphere1X: real, sphere1Y: real, sphere2X: real, sphere2Y: real)
      returns (nx: real, ny: real)
      requires IsSqrt(cfg.sqrt) && Separation2(a, b) != 0.0
      requires sphere1X == a.x && sphere1Y == a.y && sphere2X == b.x && sphere2Y == b.y
      ensures Vec(nx, ny) == Correction(cfg, a, b)
    {
      var xDist := sphere2X - sphere1X;
      var yDist := sphere2Y - sphere1Y;
      var distance := xDist * xDist + yDist * yDist;
      ghost var sep := distance;
      if distance < cfg.sumOfRadiiSquared {
        distance := cfg.sqrt(distance);
        var overlap := 0.5 * (cfg.cellSize - distance);
        var normalX := overlap * xDist / distance;
        var normalY := overlap * yDist / distance;
        OverlappingCorrection(cfg, a, b, xDist, yDist, sep, distance, overlap, normalX, normalY);
        nx, ny := normalX, normalY;
      } else {
        // Move the spheres towards each other
        distance := cfg.sqrt(distance);
        var overlap := 0.5 * (cfg.cellSize - distance);
        var normalX := overlap * xDist / distance;
        var normalY := overlap * yDist / distance;
        var invDistance := 1.0 / (100.0 * (distance + 0.1));
        SeparatedCorrection(cfg, a, b, xDist, yDist, sep, distance, overlap, normalX, normalY, invDistance);
        nx, ny := invDistance * normalX, invDistance * normalY;
      }
    }

    /** The pairs of `sphere1` with the stored particles of cell
      * `(adjX, adjY)` (worker.js:113-119). */
    method ResolveAgainstCell(sphere1: int, adjX: int, adjY: int)
      requires Valid() && InGrid(cfg, Coord(adjX, adjY))
      requires Swept(cfg, Particles(), AdjPairs(cfg, GridState(), sphere1, CellIndex(cfg, Coord(adjX, adjY)), 0)).Some?
      modifies spheres
      ensures Valid()
      ensures Swept(cfg, old(Particles()), AdjPairs(cfg, GridState(), sphere1, CellIndex(cfg, Coord(adjX, adjY)), 0))
           == Some(Particles())
    {
      ghost var B := GridState();
      ghost var cell := CellIndex(cfg, Coord(adjX, adjY));
      ghost var target := Swept(cfg, Particles(), AdjPairs(cfg, B, sphere1, cell, 0));
      assert adjY * cfg.gridWidth + adjX == cell;
      var adjGridIndex := (adjY * cfg.gridWidth + adjX) * cfg.maxParticlesPerCell;
      var count := nextInCell[adjY * cfg.gridWidth + adjX];
      var particlesInAdjCell := if count < cfg.maxParticlesPerCell then count else cfg.maxParticlesPerCell;
      assert particlesInAdjCell == Occupancy(cfg, B, cell);
      var idxAdj := 0;
      while idxAdj < particlesInAdjCell
        invariant 0 <= idxAdj
        invariant Valid()
        invariant Swept(cfg, Particles(), AdjPairs(cfg, B, sphere1, cell, idxAdj)) == target
        decreases particlesInAdjCell - idxAdj
      {
        SlotInRange(cfg, cell, idxAdj);
        assert adjGridIndex + idxAdj == SlotIndex(cfg, cell, idxAdj);
        var sphere2 := grid[adjGridIndex + idxAdj];
        ghost var rest := AdjPairs(cfg, B, sphere1, cell, idxAdj + 1);
        assert AdjPairs(cfg, B, sphere1, cell, idxAdj) == [Pair(sphere1, sphere2)] + rest;
        SweptCons(cfg, Particles(), Pair(sphere1, sphere2), rest);
        ResolveCollision(sphere1, sphere2);
        idxAdj := idxAdj + 1;
      }
    }

    /** The pairs of `sphere1` with every stored particle of the clipped 3x3
      * neighbourhood of `(gx, gy)`, base cell excepted (worker.js:102-121). */
    method ResolveAgainstNeighbours(sphere1: int, gx: int, gy: int)
      requires Valid() && InGrid(cfg, Coord(gx, gy))
      requires Swept(cfg, Particles(), RowsPairs(cfg, GridState(), sphere1, Coord(gx, gy), StartY(Coord(gx, gy)))).Some?
      modifies spheres
      ensures Valid()
      ensures Swept(cfg, old(Particles()), RowsPairs(cfg, GridState(), sphere1, Coord(gx, gy), StartY(Coord(gx, gy))))
           == Some(Particles())
    {
      ghost var B := GridState();
      ghost var base := Coord(gx, gy);
      ghost var target := Swept(cfg, Particles(), RowsPairs(cfg, B, sphere1, base, StartY(base)));
      var startX := Max(gx - 1, 0);
      var endX := Min(gx + 1, cfg.gridWidth - 1);
      var startY := Max(gy - 1, 0);
      var endY := Min(gy + 1, cfg.gridHeight - 1);
      var adjY := startY;
      while adjY <= endY
        invariant startY <= adjY <= endY + 1
        invariant Valid()
        invariant Swept(cfg, Particles(), RowsPairs(cfg, B, sphere1, base, adjY)) == target
        decreases endY + 1 - adjY
      {
        ghost var later := RowsPairs(cfg, B, sphere1, base, adjY + 1);
        RowBegins(cfg, B, sphere1, base, adjY, Particles());
        var adjX := startX;
        while adjX <= endX
          invariant startX <= adjX <= endX + 1
          invariant Valid()
          invariant SweptThen(cfg, Swept(cfg, Particles(), RowPairs(cfg, B, sphere1, base, adjY, adjX)), later) == target
          decreases endX + 1 - adjX
        {
          ghost var ps, x := Particles(), adjX;
          CellBegins(cfg, B, sphere1, base, adjY, adjX, ps, later, target);
          if adjX == gx && adjY == gy {
            // the base cell is skipped
          } else {
            ResolveAgainstCell(sphere1, adjX, adjY);
          }
          adjX := adjX + 1;
          CellEnds(cfg, B, sphere1, base, adjY, x, adjX, ps, Particles(), later, target);
        }
        adjY := adjY + 1;
      }
    }

    /** The pairs of the particle in slot `idx1` of base cell `(gx, gy)`
      * with the particles in the later slots (worker.js:94-100). */
    method ResolveWithinCell(gx: int, gy: int, idx1: int, sphere1: int)
      requires Valid() && InGrid(cfg, Coord(gx, gy))
      requires 0 <= idx1 < Occupancy(cfg, GridState(), CellIndex(cfg, Coord(gx, gy)))
      requires sphere1 == Slot(cfg, GridState(), CellIndex(cfg, Coord(gx, gy)), idx1)
      requires Swept(cfg, Particles(), IntraPairs(cfg, GridState(), CellIndex(cfg, Coord(gx, gy)), idx1, idx1 + 1)).Some?
      modifies spheres
      ensures Valid()
      ensures Swept(cfg, old(Particles()), IntraPairs(cfg, GridState(), CellIndex(cfg, Coord(gx, gy)), idx1, idx1 + 1))
           == Some(Particles())
    {
      ghost var B := GridState();
      ghost var cell := CellIndex(cfg, Coord(gx, gy));
      ghost var target := Swept(cfg, Particles(), IntraPairs(cfg, B, cell, idx1, idx1 + 1));
      assert gy * cfg.gridWidth + gx == cell;
      var baseGridIndex := (gy * cfg.gridWidth + gx) * cfg.maxParticlesPerCell;
      var count := nextInCell[gy * cfg.gridWidth + gx];
      var particlesInBaseCell := if count < cfg.maxParticlesPerCell then count else cfg.maxParticlesPerCell;
      assert particlesInBaseCell == Occupancy(cfg, B, cell);
      var idx2 := idx1 + 1;
      while idx2 < particlesInBaseCell
        invariant idx1 + 1 <= idx2
        invariant Valid()
        invariant Swept(cfg, Particles(), IntraPairs(cfg, B, cell, idx1, idx2)) == target
        decreases particlesInBaseCell - idx2
      {
        SlotInRange(cfg, cell, idx2);
        assert baseGridIndex + idx2 == SlotIndex(cfg, cell, idx2);
        var sphere2 := grid[baseGridIndex + idx2];
        ghost var rest := IntraPairs(cfg, B, cell, idx1, idx2 + 1);
        IntraPairsStep(cfg, B, cell, idx1, idx2, sphere1, sphere2);
        SweptCons(cfg, Particles(), Pair(sphere1, sphere2), rest);
        ResolveCollision(sphere1, sphere2);
        idx2 := idx2 + 1;
      }
    }

    /** All pairs of base cell `(gx, gy)` (worker.js:88-122). */
    method SweepCell(gx: int, gy: int)
      requires Valid() && InGrid(cfg, Coord(gx, gy))
      requires Swept(cfg, Particles(), CellPairs(cfg, GridState(), Coord(gx, gy), 0)).Some?
      modifies spheres
      ensures Valid()
      ensures Swept(cfg, old(Particles()), CellPairs(cfg, GridState(), Coord(gx, gy), 0)) == Some(Particles())
    {
      ghost var B := GridState();
      ghost var base := Coord(gx, gy);
      ghost var target := Swept(cfg, Particles(), CellPairs(cfg, B, base, 0));
      var baseGridIndex, particlesInBaseCell := BaseCell(gx, gy);
      var idx1 := 0;
      while idx1 < particlesInBaseCell
        invariant 0 <= idx1
        invariant Valid() && GridState() == B
        invariant Swept(cfg, Particles(), CellPairs(cfg, B, base, idx1)) == target
        decreases particlesInBaseCell - idx1
      {
        SweepSlot(gx, gy, baseGridIndex, idx1, B, target);
        idx1 := idx1 + 1;
      }
      CellPairsDone(cfg, B, base, idx1);
    }

    /** Where the base cell's slots start in `grid`, and how many of them
      * are occupied: its count, capped at the cell's capacity
      * (worker.js:88-90). */
    method BaseCell(gx: int, gy: int) returns (baseGridIndex: int, particlesInBaseCell: int)
      requires Valid() && InGrid(cfg, Coord(gx, gy))
      ensures baseGridIndex == CellIndex(cfg, Coord(gx, gy)) * cfg.maxParticlesPerCell
      ensures particlesInBaseCell == Occupancy(cfg, GridState(), CellIndex(cfg, Coord(gx, gy)))
    {
      var cell := gy * cfg.gridWidth + gx;
      assert cell == CellIndex(cfg, Coord(gx, gy));
      baseGridIndex := cell * cfg.maxParticlesPerCell;
      var count := nextInCell[cell];
      particlesInBaseCell := if count < cfg.maxParticlesPerCell then count else cfg.maxParticlesPerCell;
    }

    /** The particle in slot `idx1` of base cell `(gx, gy)` against the
      * later particles of its cell, then against those of the neighbour
      * cells (worker.js:89-121). */
    method SweepSlot(gx: int, gy: int, baseGridIndex: int, idx1: int, ghost B: Buckets, ghost target: Option<seq<Particle>>)
      requires Valid() && InGrid(cfg, Coord(gx, gy)) && B == GridState()
      requires baseGridIndex == CellIndex(cfg, Coord(gx, gy)) * cfg.maxParticlesPerCell
      requires 0 <= idx1 < Occupancy(cfg, B, CellIndex(cfg, Coord(gx, gy)))
      requires target.Some? && Swept(cfg, Particles(), CellPairs(cfg, B, Coord(gx, gy), idx1)) == target
      modifies spheres
      ensures Valid() && GridState() == B
      ensures Swept(cfg, Particles(), CellPairs(cfg, B, Coord(gx, gy), idx1 + 1)) == target
    {
      ghost var base := Coord(gx, gy);
      SlotInRange(cfg, CellIndex(cfg, base), idx1);
      assert baseGridIndex + idx1 == SlotIndex(cfg, CellIndex(cfg, base), idx1);
      var sphere1 := grid[baseGridIndex + idx1];
      ghost var intra := IntraPairs(cfg, B, CellIndex(cfg, base), idx1, idx1 + 1);
      ghost var around := RowsPairs(cfg, B, sphere1, base, StartY(base));
      ghost var rest := CellPairs(cfg, B, base, idx1 + 1);
      CellPairsStep(cfg, B, base, idx1, sphere1);
      ghost var ps := Particles();
      SweptPrefix(cfg, ps, intra, around + rest);
      ResolveWithinCell(gx, gy, idx1, sphere1);
      SweptRest(cfg, ps, Particles(), intra, around + rest);
      ps := Particles();
      SweptPrefix(cfg, ps, around, rest);
      ResolveAgainstNeighbours(sphere1, gx, gy);
      SweptRest(cfg, ps, Particles(), around, rest);
    }

    /** The cells of row `gy`, from right to left when `reverse` and from
      * left to right otherwise (worker.js:87-123). */
    method SweepRow(reverse: bool, gy: int)
      requires Valid() && 0 <= gy < cfg.gridHeight
      requires Swept(cfg, Particles(), RowSweep(cfg, GridState(), reverse, gy, FirstCol(cfg, reverse))).Some?
      modifies spheres
      ensures Valid()
      ensures Swept(cfg, old(Particles()), RowSweep(cfg, GridState(), reverse, gy, FirstCol(cfg, reverse))) == Some(Particles())
    {
      ghost var B := GridState();
      ghost var target := Swept(cfg, Particles(), RowSweep(cfg, B, reverse, gy, FirstCol(cfg, reverse)));
      var gx := if reverse then cfg.gridWidth - 1 else 0;
      while Within(reverse, gx, cfg.gridWidth)
        invariant if reverse then -1 <= gx < cfg.gridWidth else 0 <= gx <= cfg.gridWidth
        invariant Valid()
        invariant Swept(cfg, Particles(), RowSweep(cfg, B, reverse, gy, gx)) == target
        decreases if reverse then gx + 1 else cfg.gridWidth - gx
      {
        ghost var here, later := CellPairs(cfg, B, Coord(gx, gy), 0), RowSweep(cfg, B, reverse, gy, Next(reverse, gx));
        assert RowSweep(cfg, B, reverse, gy, gx) == here + later;
        ghost var ps := Particles();
        SweptPrefix(cfg, ps, here, later);
        SweepCell(gx, gy);
        SweptRest(cfg, ps, Particles(), here, later);
        gx := Next(reverse, gx);
      }
    }

    /** One sweep over all cells, backwards on even sub-steps and forwards
      * on odd ones (worker.js:84-124): the pairs of every cell in visiting
      * order (`SweepLoopsMatch`). */
    method SweepCells(reverse: bool)
      requires Valid()
      requires Swept(cfg, Particles(), SweepPairs(cfg, GridState(), reverse, 0)).Some?
      modifies spheres
      ensures Valid()
      ensures Swept(cfg, old(Particles()), SweepPairs(cfg, GridState(), reverse, 0)) == Some(Particles())
    {
      ghost var B := GridState();
      SweepLoopsMatch(cfg, B, reverse);
      ghost var target := Swept(cfg, Particles(), RowsSweep(cfg, B, reverse, FirstRow(cfg, reverse)));
      var gy := if reverse then cfg.gridHeight - 1 else 0;
      while Within(reverse, gy, cfg.gridHeight)
        invariant if reverse then -1 <= gy < cfg.gridHeight else 0 <= gy <= cfg.gridHeight
        invariant Valid()
        invariant Swept(cfg, Particles(), RowsSweep(cfg, B, reverse, gy)) == target
        decreases if reverse then gy + 1 else cfg.gridHeight - gy
      {
        ghost var here, later := RowSweep(cfg, B, reverse, gy, FirstCol(cfg, reverse)), RowsSweep(cfg, B, reverse, Next(reverse, gy));
        assert RowsSweep(cfg, B, reverse, gy) == here + later;
        ghost var ps := Particles();
        SweptPrefix(cfg, ps, here, later);
        SweepRow(reverse, gy);
        SweptRest(cfg, ps, Particles(), here, later);
        gy := Next(reverse, gy);
      }
    }

    /** Clearing the grid and integrating and re-inserting every particle
      * (worker.js:125-186). */
    method IntegrateAndRebuild(f: Frame, gravMult: real, lerpFactor: real)
      requires Valid() && gravMult == GravMult(cfg, f) && lerpFactor == f.lerpFactor
      modifies spheres, grid, nextInCell
      ensures Valid()
      ensures Particles() == IntegratedAll(cfg, f, old(Particles()))
      ensures GridState() == Bucketed(cfg, Cells(cfg, Particles()))
    {
      ghost var ps := Particles();
      ClearGrid();
      assert ps[..0] == [] && ps[0..] == ps;
      var i := 0;
      while i < cfg.numSpheres
        invariant 0 <= i <= cfg.numSpheres
        invariant Valid()
        invariant Rebuilt(f, ps, i)
        decreases cfg.numSpheres - i
      {
        IntegrateNext(f, gravMult, lerpFactor, ps, i);
        i := i + 1;
      }
      assert ps[..i] == ps && ps[i..] == [];
    }

    /** The rebuild loop has integrated and inserted particles `0 .. i - 1`
      * of `ps` and left the others as they were. */
    ghost predicate Rebuilt(f: Frame, ps: seq<Particle>, i: nat)
      reads spheres, grid, nextInCell
    {
      i <= |ps| &&
      Particles() == IntegratedAll(cfg, f, ps[..i]) + ps[i..] &&
      GridState() == Bucketed(cfg, Cells(cfg, IntegratedAll(cfg, f, ps[..i])))
    }

    /** One turn of the rebuild loop (worker.js:128-185). */
    method IntegrateNext(f: Frame, gravMult: real, lerpFactor: real, ghost ps: seq<Particle>, i: int)
      requires Valid() && gravMult == GravMult(cfg, f) && lerpFactor == f.lerpFactor
      requires 0 <= i < cfg.numSpheres && Rebuilt(f, ps, i)
      modifies spheres, grid, nextInCell
      ensures Valid() && Rebuilt(f, ps, i + 1)
    {
      RebuildStep(cfg, f, ps, i, Particles());
      var finalX, finalY := IntegrateParticle(i, f, gravMult, lerpFactor);
      InsertParticle(i, finalX, finalY, Integrated(cfg, f, ps[i]));
    }

    /** `grid.fill(0); nextInCell.fill(0)` (worker.js:125-126). */
    method ClearGrid()
      requires Valid()
      modifies grid, nextInCell
      ensures Valid()
      ensures GridState() == Empty(cfg)
    {
      forall k | 0 <= k < grid.Length {
        grid[k] := 0;
      }
      forall k | 0 <= k < nextInCell.Length {
        nextInCell[k] := 0;
      }
      assert GridState() == Empty(cfg);
    }

    /** The update of particle `i` (worker.js:128-176): its entries become
      * `Integrated` of the particle, and `finalX`, `finalY` are its new
      * position. */
    method IntegrateParticle(i: int, f: Frame, gravMult: real, lerpFactor: real) returns (finalX: real, finalY: real)
      requires Valid() && 0 <= i < cfg.numSpheres
      requires gravMult == GravMult(cfg, f) && lerpFactor == f.lerpFactor
      modifies spheres
      ensures Valid()
      ensures Particles() == old(Particles())[i := Integrated(cfg, f, old(Particles())[i])]
      ensures finalX == Particles()[i].x && finalY == Particles()[i].y
    {
      ghost var before := spheres[..];
      ghost var p := View(before)[i];
      var index := i * 4;
      var currX := spheres[index + 0];
      var currY := spheres[index + 1];
      var oldX := spheres[index + 2];
      var oldY := spheres[index + 3];
      assert Particle(currX, currY, oldX, oldY) == p;
      var newX, newY := NewPosition(f, gravMult, currX, currY, oldX, oldY);
      spheres[index + 2] := currX;
      spheres[index + 3] := currY;
      finalX := Blend(lerpFactor, newX, currX);
      finalY := Blend(lerpFactor, newY, currY);
      spheres[index + 0] := finalX;
      spheres[index + 1] := finalY;
      ghost var q := Integrated(cfg, f, p);
      assert q == Particle(finalX, finalY, currX, currY);
      assert spheres[..] == before[4 * i + 2 := q.oldX][4 * i + 3 := q.oldY][4 * i := q.x][4 * i + 1 := q.y];
      ViewSetParticle(before, i, q);
    }

    /** The position a particle at `(currX, currY)`, previously at
      * `(oldX, oldY)`, heads for before damping (worker.js:137-168): the
      * Verlet step with gravity, the four walls, then the pointer's pull. */
    method NewPosition(f: Frame, gravMult: real, currX: real, currY: real, oldX: real, oldY: real)
      returns (newX: real, newY: real)
      requires gravMult == GravMult(cfg, f)
      ensures Vec(newX, newY) == Target(cfg, f, Particle(currX, currY, oldX, oldY))
    {
      var xDiff := currX - oldX;
      var yDiff := currY - oldY;
      newX := Bounce(f.width, currX + xDiff, xDiff);
      newY := Bounce(f.height, currY + yDiff + gravMult, yDiff);
      if f.mouseDown {
        var dx := f.mouseX - currX;
        var dy := f.mouseY - currY;
        var distance := dx * dx + dy * dy;
        if distance < ReachSquared {
          var pull := f.pull(dx, dy, f.deltaTime);
          newX := newX + pull.x;
          newY := newY + pull.y;
        }
      }
    }

    /** The walls along one axis (worker.js:143-154): the tentative
      * coordinate `v`, with implied velocity `d`, reflected off the wall at
      * `0`, then placed at the wall at `extent` shifted by `d * restitution`,
      * the sign as written. */
    method Bounce(extent: real, v: real, d: real) returns (w: real)
      ensures w == ReflectedAsWritten(cfg.sphereRadius, cfg.restitution, extent, v, d)
    {
      var r, restitution := cfg.sphereRadius, cfg.restitution;
      w := v;
      if w - r <= 0.0 {
        w := r - d * restitution;
      }
      if w + r >= extent {
        w := extent - r + d * restitution;
      }
    }

    /** Inserting particle `i` at position `(finalX, finalY)` into the grid
      * (worker.js:177-185). */
    method InsertParticle(i: int, finalX: real, finalY: real, ghost q: Particle)
      requires Valid() && 0 <= i && CountsNonNegative(GridState())
      requires q.x == finalX && q.y == finalY
      modifies grid, nextInCell
      ensures Valid()
      ensures GridState() == Inserted(cfg, old(GridState()), CellOf(cfg, q), i)
    {
      ghost var B := GridState();
      var gridX := GridCoord(cfg, finalX);
      var gridY := GridCoord(cfg, finalY);
      var gridXY := gridY * cfg.gridWidth + gridX;
      assert gridXY == CellOf(cfg, q);
      if 0 <= gridXY < nextInCell.Length {
        InsertedInside(cfg, B, gridXY, i);
        var gridIndex := gridXY * cfg.maxParticlesPerCell;
        var nextSlot := nextInCell[gridXY];
        nextInCell[gridXY] := nextSlot + 1;
        if nextSlot < cfg.maxParticlesPerCell {
          grid[gridIndex + nextSlot] := i;
        }
        assert GridState() == Inserted(cfg, B, gridXY, i);
      }
    }

    /** `runPhysics` (worker.js:77-188): four sub-steps, each a sweep over
      * the grid left by the previous one followed by integration and a
      * rebuild. */
    method RunPhysics(f: Frame)
      requires Valid() && Stepped(cfg, f, Current(), 0).Some?
      modifies spheres, grid, nextInCell
      ensures Valid()
      ensures Stepped(cfg, f, old(Current()), 0) == Some(Current())
    {
      ghost var target := Stepped(cfg, f, Current(), 0);
      var gravMult := GravMult(cfg, f);
      var lerpFactor := f.lerpFactor;
      var step := 0;
      while step < Steps
        invariant 0 <= step <= Steps
        invariant Valid()
        invariant Stepped(cfg, f, Current(), step) == target
        decreases Steps - step
      {
        ghost var s := Current();
        SteppedSome(cfg, f, s, step);
        RunSubStep(f, gravMult, lerpFactor, step);
        SteppedNext(cfg, f, s, Current(), step);
        step := step + 1;
      }
    }

    /** One sub-step (worker.js:83-186): the sweep, then the rebuild. */
    method RunSubStep(f: Frame, gravMult: real, lerpFactor: real, step: nat)
      requires Valid() && gravMult == GravMult(cfg, f) && lerpFactor == f.lerpFactor
      requires SubStep(cfg, f, Current(), step).Some?
      modifies spheres, grid, nextInCell
      ensures Valid()
      ensures SubStep(cfg, f, old(Current()), step) == Some(Current())
    {
      var reverse := step % 2 == 0;
      SweepCells(reverse);
      ghost var qs := Particles();
      IntegrateAndRebuild(f, gravMult, lerpFactor);
      assert Current() == State(IntegratedAll(cfg, f, qs), Bucketed(cfg, Cells(cfg, IntegratedAll(cfg, f, qs))));
    }
  }

  /** A run of sub-steps that does not fail starts with a sub-step that
    * does not fail ... */
  lemma SteppedSome(cfg: Config, f: Frame, s: State, step: nat)
    requires IsSqrt(cfg.sqrt) && Shaped(cfg, s.buckets) && step < Steps
    requires Stepped(cfg, f, s, step).Some?
    ensures SubStep(cfg, f, s, step).Some?
  {
  }

  /** ... and continues from the state that sub-step leaves. */
  lemma SteppedNext(cfg: Config, f: Frame, s: State, t: State, step: nat)
    requires IsSqrt(cfg.sqrt) && Shaped(cfg, s.buckets) && step < Steps
    requires SubStep(cfg, f, s, step) == Some(t)
    ensures Shaped(cfg, t.buckets)
    ensures Stepped(cfg, f, s, step) == Stepped(cfg, f, t, step + 1)
  {
  }

  /** One turn of the rebuild loop: integrating particle `i` extends the
    * integrated prefix by one particle, and inserting it extends the
    * bucketed prefix by its cell. */
  lemma RebuildStep(cfg: Config, f: Frame, ps: seq<Particle>, i: nat, current: seq<Particle>)
    requires i < |ps| && current == IntegratedAll(cfg, f, ps[..i]) + ps[i..]
    ensures i < |current| && current[i] == ps[i]
    ensures current[i := Integrated(cfg, f, ps[i])] == IntegratedAll(cfg, f, ps[..i + 1]) + ps[i + 1..]
    ensures Bucketed(cfg, Cells(cfg, IntegratedAll(cfg, f, ps[..i + 1])))
         == Inserted(cfg, Bucketed(cfg, Cells(cfg, IntegratedAll(cfg, f, ps[..i]))), CellOf(cfg, Integrated(cfg, f, ps[i])), i)
  {
    var q := Integrated(cfg, f, ps[i]);
    assert IntegratedAll(cfg, f, ps[..i + 1]) == IntegratedAll(cfg, f, ps[..i]) + [q];
    var cells := Cells(cfg, IntegratedAll(cfg, f, ps[..i]));
    assert Cells(cfg, IntegratedAll(cfg, f, ps[..i + 1])) == cells + [CellOf(cfg, q)];
    assert (cells + [CellOf(cfg, q)])[..i] == cells;
  }

  /** The inner loop of the base cell pairs slot `idx1` with slot `idx2`
    * first, then with the later slots. */
  lemma IntraPairsStep(cfg: Config, b: Buckets, cell: nat, idx1: nat, idx2: nat, s1: int, s2: int)
    requires Shaped(cfg, b) && cell < NumCells(cfg) && idx1 < idx2 < Occupancy(cfg, b, cell)
    requires s1 == Slot(cfg, b, cell, idx1)
    requires SlotIndex(cfg, cell, idx2) < |b.grid| && s2 == b.grid[SlotIndex(cfg, cell, idx2)]
    ensures IntraPairs(cfg, b, cell, idx1, idx2) == [Pair(s1, s2)] + IntraPairs(cfg, b, cell, idx1, idx2 + 1)
  {
  }

  /** The pairs of base cell `base` from slot `idx1` on: those of the slot
    * within the cell, then around it, then those of the later slots. */
  lemma CellPairsStep(cfg: Config, b: Buckets, base: Coord, idx1: nat, s1: int)
    requires Shaped(cfg, b) && InGrid(cfg, base) && idx1 < Occupancy(cfg, b, CellIndex(cfg, base))
    requires SlotIndex(cfg, CellIndex(cfg, base), idx1) < |b.grid| && s1 == b.grid[SlotIndex(cfg, CellIndex(cfg, base), idx1)]
    ensures CellPairs(cfg, b, base, idx1)
         == IntraPairs(cfg, b, CellIndex(cfg, base), idx1, idx1 + 1) +
            (RowsPairs(cfg, b, s1, base, StartY(base)) + CellPairs(cfg, b, base, idx1 + 1))
  {
  }

  /** Past the occupied slots, a base cell has no pairs left. */
  lemma CellPairsDone(cfg: Config, b: Buckets, base: Coord, idx1: nat)
    requires Shaped(cfg, b) && InGrid(cfg, base) && idx1 >= Occupancy(cfg, b, CellIndex(cfg, base))
    ensures CellPairs(cfg, b, base, idx1) == []
  {
  }

  // ---------------------------------------------------------------------
  // The neighbour loops of `ResolveAgainstNeighbours`, one step at a time

  /** Before the inner loop: the row's pairs come first, then the later rows'. */
  lemma RowBegins(cfg: Config, b: Buckets, s1: int, base: Coord, adjY: int, ps: seq<Particle>)
    requires IsSqrt(cfg.sqrt) && Shaped(cfg, b) && InGrid(cfg, base)
    requires StartY(base) <= adjY <= EndY(cfg, base)
    ensures Swept(cfg, ps, RowsPairs(cfg, b, s1, base, adjY))
         == SweptThen(cfg, Swept(cfg, ps, RowPairs(cfg, b, s1, base, adjY, StartX(base))), RowsPairs(cfg, b, s1, base, adjY + 1))
  {
    SweptAppend(cfg, ps, RowPairs(cfg, b, s1, base, adjY, StartX(base)), RowsPairs(cfg, b, s1, base, adjY + 1));
  }

  /** Before a cell of the inner loop: if it is not the base cell, its pairs
    * can be resolved. */
  lemma CellBegins(cfg: Config, b: Buckets, s1: int, base: Coord, adjY: int, adjX: int,
                   ps: seq<Particle>, later: seq<Pair>, target: Option<seq<Particle>>)
    requires IsSqrt(cfg.sqrt) && Shaped(cfg, b) && InGrid(cfg, base)
    requires StartY(base) <= adjY <= EndY(cfg, base) && StartX(base) <= adjX <= EndX(cfg, base)
    requires target.Some?
    requires SweptThen(cfg, Swept(cfg, ps, RowPairs(cfg, b, s1, base, adjY, adjX)), later) == target
    ensures InGrid(cfg, Coord(adjX, adjY))
    ensures Coord(adjX, adjY) != base ==> Swept(cfg, ps, AdjPairs(cfg, b, s1, CellIndex(cfg, Coord(adjX, adjY)), 0)).Some?
  {
    if Coord(adjX, adjY) != base {
      var cellPairs := AdjPairs(cfg, b, s1, CellIndex(cfg, Coord(adjX, adjY)), 0);
      SweptAppend(cfg, ps, cellPairs, RowPairs(cfg, b, s1, base, adjY, adjX + 1));
    }
  }

  /** After a cell of the inner loop: the particles `qs` it left still lead
    * to the same end state, by the rest of the row and then the later rows. */
  lemma CellEnds(cfg: Config, b: Buckets, s1: int, base: Coord, adjY: int, adjX: int, nextX: int,
                 ps: seq<Particle>, qs: seq<Particle>, later: seq<Pair>, target: Option<seq<Particle>>)
    requires IsSqrt(cfg.sqrt) && Shaped(cfg, b) && InGrid(cfg, base)
    requires StartY(base) <= adjY <= EndY(cfg, base) && StartX(base) <= adjX <= EndX(cfg, base) && nextX == adjX + 1
    requires SweptThen(cfg, Swept(cfg, ps, RowPairs(cfg, b, s1, base, adjY, adjX)), later) == target
    requires Coord(adjX, adjY) == base ==> qs == ps
    requires Coord(adjX, adjY) != base ==>
               InGrid(cfg, Coord(adjX, adjY)) &&
               Swept(cfg, ps, AdjPairs(cfg, b, s1, CellIndex(cfg, Coord(adjX, adjY)), 0)) == Some(qs)
    ensures SweptThen(cfg, Swept(cfg, qs, RowPairs(cfg, b, s1, base, adjY, nextX)), later) == target
  {
    var rest := RowPairs(cfg, b, s1, base, adjY, nextX);
    if Coord(adjX, adjY) != base {
      var cellPairs := AdjPairs(cfg, b, s1, CellIndex(cfg, Coord(adjX, adjY)), 0);
      assert RowPairs(cfg, b, s1, base, adjY, adjX) == cellPairs + rest;
      SweptAppend(cfg, ps, cellPairs, rest);
    } else {
      assert RowPairs(cfg, b, s1, base, adjY, adjX) == [] + rest == rest;
    }
  }
}
