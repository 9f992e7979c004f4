/** The bucket grid (worker.js:125-126, 177-185).
  *
  * Every cell owns `maxParticlesPerCell` consecutive slots of `grid`,
  * starting at `cell * maxParticlesPerCell`, and a counter in
  * `nextInCell`.  The grid is cleared and rebuilt from scratch, one
  * particle after another in index order; an insert always increments the
  * cell's counter and stores the particle only while the cell has room.
  */
module Grid {
  import opened Particles

  /** JavaScript's truncation toward zero of a finite number. */
  function Trunc(v: real): int {
    if 0.0 <= v then v.Floor else -((-v).Floor)
  }

  /** Truncation rounds toward zero: it never moves away from zero and is
    * off by less than one.  In particular every value in (-1, 1),
    * negative ones included, truncates to 0. */
  lemma TruncTowardZero(v: real)
    ensures 0.0 <= v ==> 0 <= Trunc(v) && Trunc(v) as real <= v < Trunc(v) as real + 1.0
    ensures v < 0.0 ==> Trunc(v) <= 0 && Trunc(v) as real - 1.0 < v <= Trunc(v) as real
    ensures -1.0 < v < 1.0 ==> Trunc(v) == 0
  {
  }

  /** The wrap to a signed 32-bit integer that JavaScript's `| 0` applies
    * after truncating: the result is in range, congruent to the input
    * modulo 2^32, and equal to it when the input already fits. */
  function ToInt32(t: int): (r: int)
    ensures -0x8000_0000 <= r < 0x8000_0000
    ensures (t - r) % 0x1_0000_0000 == 0
    ensures -0x8000_0000 <= t < 0x8000_0000 ==> r == t
  {
    var m := t % 0x1_0000_0000;
    if m < 0x8000_0000 then m else m - 0x1_0000_0000
  }

  /** The column (or row) `(v * invCellSize) | 0` of a coordinate. */
  function GridCoord(cfg: Config, v: real): (c: int)
    ensures -0x8000_0000 <= c < 0x8000_0000
  {
    ToInt32(Trunc(v * cfg.invCellSize))
  }

  /** The grid cell the worker computes for a particle (worker.js:178-180):
    * no bounds check, so a column or row outside the grid gives some other
    * index, possibly that of a cell in the next or previous row. */
  function CellOf(cfg: Config, p: Particle): int {
    GridCoord(cfg, p.y) * cfg.gridWidth + GridCoord(cfg, p.x)
  }

  /** A scaled coordinate `u` in `[0, bound)`, with `bound` within 32
    * bits, becomes the column `floor(u)`. */
  lemma ToInt32TruncFloor(u: real, bound: nat)
    requires bound <= 0x8000_0000
    requires 0.0 <= u < bound as real
    ensures ToInt32(Trunc(u)) == u.Floor
    ensures 0 <= u.Floor < bound
  {
  }

  /** A coordinate whose scaled value lies in `[0, bound)` with `bound`
    * within 32 bits gets the column `floor(v * invCellSize)`. */
  lemma GridCoordFloor(cfg: Config, v: real, bound: nat)
    requires bound <= 0x8000_0000
    requires 0.0 <= v * cfg.invCellSize < bound as real
    ensures GridCoord(cfg, v) == (v * cfg.invCellSize).Floor
    ensures 0 <= GridCoord(cfg, v) < bound
  {
    ToInt32TruncFloor(v * cfg.invCellSize, bound);
  }

  /** A particle whose scaled position lies inside the grid lands in a
    * cell of the grid (in column `floor(x / cellSize)` and row
    * `floor(y / cellSize)`, by `GridCoordFloor`). */
  lemma CellOfInsideGrid(cfg: Config, p: Particle)
    requires cfg.gridWidth <= 0x8000_0000 && cfg.gridHeight <= 0x8000_0000
    requires 0.0 <= p.x * cfg.invCellSize < cfg.gridWidth as real
    requires 0.0 <= p.y * cfg.invCellSize < cfg.gridHeight as real
    ensures 0 <= CellOf(cfg, p) < NumCells(cfg)
  {
    GridCoordFloor(cfg, p.x, cfg.gridWidth);
    GridCoordFloor(cfg, p.y, cfg.gridHeight);
    CellInRange(cfg, GridCoord(cfg, p.x), GridCoord(cfg, p.y));
  }

  /** With no bounds check, a particle one column right of the grid in row
    * `gy` lands in the cell of column 0 of row `gy + 1`. */
  lemma CellOfWrapsRow(cfg: Config, p: Particle)
    requires 0 < cfg.gridWidth < 0x8000_0000
    requires cfg.gridWidth as real <= p.x * cfg.invCellSize < cfg.gridWidth as real + 1.0
    ensures CellOf(cfg, p) == (GridCoord(cfg, p.y) + 1) * cfg.gridWidth
  {
    GridCoordFloor(cfg, p.x, cfg.gridWidth + 1);
    NextRowStart(GridCoord(cfg, p.y), cfg.gridWidth);
  }

  lemma NextRowStart(gy: int, width: int)
    ensures gy * width + width == (gy + 1) * width
  {
  }

  /** Cell `(gx, gy)` of a `gridWidth` by `gridHeight` grid has index
    * `gy * gridWidth + gx`, which lies in range. */
  lemma CellInRange(cfg: Config, gx: int, gy: int)
    requires 0 <= gx < cfg.gridWidth && 0 <= gy < cfg.gridHeight
    ensures 0 <= gy * cfg.gridWidth + gx < NumCells(cfg)
  {
    MulMonotone(gy + 1, cfg.gridHeight, cfg.gridWidth);
  }

  lemma MulMonotone(a: nat, b: nat, m: nat)
    requires a <= b
    ensures a * m <= b * m
  {
  }

  /** The grid and the per-cell counters. */
  datatype Buckets = Buckets(grid: seq<int>, counts: seq<int>)

  /** The sizes the worker allocates: `maxParticlesPerCell` slots and one counter per cell. */
  ghost predicate Shaped(cfg: Config, b: Buckets) {
    |b.grid| == NumCells(cfg) * cfg.maxParticlesPerCell && |b.counts| == NumCells(cfg)
  }

  /** Index in `grid` of slot `k` of cell `cell`. */
  function SlotIndex(cfg: Config, cell: nat, k: nat): nat {
    cell * cfg.maxParticlesPerCell + k
  }

  /** The slots of a cell lie inside the grid ... */
  lemma SlotInRange(cfg: Config, cell: nat, k: nat)
    requires cell < NumCells(cfg) && k < cfg.maxParticlesPerCell
    ensures SlotIndex(cfg, cell, k) < NumCells(cfg) * cfg.maxParticlesPerCell
  {
    MulMonotone(cell + 1, NumCells(cfg), cfg.maxParticlesPerCell);
  }

  /** ... and no two cells share a slot. */
  lemma SlotsDisjoint(cfg: Config, c1: nat, k1: nat, c2: nat, k2: nat)
    requires k1 < cfg.maxParticlesPerCell && k2 < cfg.maxParticlesPerCell
    requires SlotIndex(cfg, c1, k1) == SlotIndex(cfg, c2, k2)
    ensures c1 == c2 && k1 == k2
  {
    var m := cfg.maxParticlesPerCell;
    if c1 < c2 {
      MulMonotone(c1 + 1, c2, m);
    } else if c2 < c1 {
      MulMonotone(c2 + 1, c1, m);
    }
  }

  lemma SlotsApart(cfg: Config, c1: nat, k1: nat, c2: nat, k2: nat)
    requires k1 < cfg.maxParticlesPerCell && k2 < cfg.maxParticlesPerCell
    requires c1 != c2 || k1 != k2
    ensures SlotIndex(cfg, c1, k1) != SlotIndex(cfg, c2, k2)
  {
    if SlotIndex(cfg, c1, k1) == SlotIndex(cfg, c2, k2) {
      SlotsDisjoint(cfg, c1, k1, c2, k2);
    }
  }

  /** Slot `k` of cell `cell`. */
  function Slot(cfg: Config, b: Buckets, cell: nat, k: nat): int
    requires Shaped(cfg, b)
    requires cell < NumCells(cfg) && k < cfg.maxParticlesPerCell
  {
    SlotInRange(cfg, cell, k);
    b.grid[SlotIndex(cfg, cell, k)]
  }

  /** The state `grid.fill(0); nextInCell.fill(0)` leaves (worker.js:125-126). */
  function Empty(cfg: Config): (b: Buckets)
    ensures Shaped(cfg, b)
    ensures forall cell :: 0 <= cell < NumCells(cfg) ==> b.counts[cell] == 0
  {
    Buckets(seq(NumCells(cfg) * cfg.maxParticlesPerCell, _ => 0), seq(NumCells(cfg), _ => 0))
  }

  ghost predicate CountsNonNegative(b: Buckets) {
    forall cell :: 0 <= cell < |b.counts| ==> 0 <= b.counts[cell]
  }

  /** Inserting particle `i` into cell `cell` (worker.js:181-185).  A cell
    * index outside the typed array is a read of `undefined` and a write
    * the array ignores, so nothing changes. */
  function Inserted(cfg: Config, b: Buckets, cell: int, i: nat): (r: Buckets)
    requires Shaped(cfg, b) && CountsNonNegative(b)
    ensures Shaped(cfg, r) && CountsNonNegative(r)
    ensures 0 <= cell < NumCells(cfg) ==> r.counts == b.counts[cell := b.counts[cell] + 1]
    ensures !(0 <= cell < NumCells(cfg)) ==> r == b
    ensures forall c, k :: 0 <= c < NumCells(cfg) && 0 <= k < cfg.maxParticlesPerCell ==>
              Slot(cfg, r, c, k) == if c == cell && k == b.counts[cell] then i else Slot(cfg, b, c, k)
  {
    if 0 <= cell < NumCells(cfg) then
      var nextSlot := b.counts[cell];
      var grid := if nextSlot < cfg.maxParticlesPerCell then
                    SlotInRange(cfg, cell, nextSlot);
                    b.grid[SlotIndex(cfg, cell, nextSlot) := i]
                  else b.grid;
      var r := Buckets(grid, b.counts[cell := nextSlot + 1]);
      assert forall c, k :: 0 <= c < NumCells(cfg) && 0 <= k < cfg.maxParticlesPerCell ==>
               Slot(cfg, r, c, k) == if c == cell && k == nextSlot then i else Slot(cfg, b, c, k) by {
        forall c, k | 0 <= c < NumCells(cfg) && 0 <= k < cfg.maxParticlesPerCell
          ensures Slot(cfg, r, c, k) == if c == cell && k == nextSlot then i else Slot(cfg, b, c, k)
        {
          SlotInRange(cfg, c, k);
          if c == cell && k == nextSlot {
          } else if nextSlot < cfg.maxParticlesPerCell {
            SlotsApart(cfg, c, k, cell, nextSlot);
          }
        }
      }
      r
    else
      b
  }

  /** An insert into a cell of the grid, spelled out: the counter goes up
    * and, while the cell has room, the next free slot receives `i`. */
  lemma InsertedInside(cfg: Config, b: Buckets, cell: int, i: nat)
    requires Shaped(cfg, b) && CountsNonNegative(b) && 0 <= cell < NumCells(cfg)
    ensures b.counts[cell] < cfg.maxParticlesPerCell ==> SlotIndex(cfg, cell, b.counts[cell]) < |b.grid|
    ensures b.counts[cell] < cfg.maxParticlesPerCell ==>
              Inserted(cfg, b, cell, i)
              == Buckets(b.grid[SlotIndex(cfg, cell, b.counts[cell]) := i], b.counts[cell := b.counts[cell] + 1])
    ensures cfg.maxParticlesPerCell <= b.counts[cell] ==>
              Inserted(cfg, b, cell, i) == Buckets(b.grid, b.counts[cell := b.counts[cell] + 1])
  {
    if b.counts[cell] < cfg.maxParticlesPerCell {
      SlotInRange(cfg, cell, b.counts[cell]);
    }
  }

  /** The grid after the rebuild has inserted particles `0 .. |cells| - 1`,
    * particle `i` into cell `cells[i]`. */
  function Bucketed(cfg: Config, cells: seq<int>): (b: Buckets)
    ensures Shaped(cfg, b) && CountsNonNegative(b)
    decreases |cells|
  {
    if |cells| == 0 then
      Empty(cfg)
    else
      var n := |cells| - 1;
      Inserted(cfg, Bucketed(cfg, cells[..n]), cells[n], n)
  }

  /** The particles among `0 .. |cells| - 1` whose cell is `cell`, in index order. */
  function Members(cells: seq<int>, cell: int): (m: seq<nat>)
    ensures forall k :: 0 <= k < |m| ==> m[k] < |cells| && cells[m[k]] == cell
    ensures forall a, b :: 0 <= a < b < |m| ==> m[a] < m[b]
    ensures forall i :: 0 <= i < |cells| && cells[i] == cell ==> i in m
    decreases |cells|
  {
    if |cells| == 0 then
      []
    else
      var n := |cells| - 1;
      var prefix := Members(cells[..n], cell);
      assert forall i :: 0 <= i < n && cells[i] == cell ==> i in prefix by {
        forall i | 0 <= i < n && cells[i] == cell ensures i in prefix {
          assert cells[..n][i] == cell;
        }
      }
      prefix + if cells[n] == cell then [n] else []
  }

  /** What the rebuild leaves in a cell: its counter is the number of
    * particles that fell into it, its slots hold the first
    * `maxParticlesPerCell` of them in index order, and its other slots are
    * 0.  A particle beyond capacity is counted but not stored. */
  ghost predicate CellHolds(cfg: Config, b: Buckets, cells: seq<int>, cell: nat)
    requires Shaped(cfg, b) && cell < NumCells(cfg)
  {
    var m := Members(cells, cell);
    b.counts[cell] == |m| &&
    forall k :: 0 <= k < cfg.maxParticlesPerCell ==>
      Slot(cfg, b, cell, k) == if k < |m| then m[k] else 0
  }

  ghost predicate Holds(cfg: Config, b: Buckets, cells: seq<int>) {
    Shaped(cfg, b) &&
    forall cell :: 0 <= cell < NumCells(cfg) ==> CellHolds(cfg, b, cells, cell)
  }

  /** The rebuild leaves exactly the buckets `Holds` describes. */
  lemma {:induction false} BucketedHolds(cfg: Config, cells: seq<int>)
    ensures Holds(cfg, Bucketed(cfg, cells), cells)
    decreases |cells|
  {
    var b := Bucketed(cfg, cells);
    if |cells| == 0 {
      forall cell | 0 <= cell < NumCells(cfg) ensures CellHolds(cfg, b, cells, cell) {
        forall k | 0 <= k < cfg.maxParticlesPerCell ensures Slot(cfg, b, cell, k) == 0 {
          SlotInRange(cfg, cell, k);
        }
      }
    } else {
      var n := |cells| - 1;
      var prior := Bucketed(cfg, cells[..n]);
      BucketedHolds(cfg, cells[..n]);
      assert b == Inserted(cfg, prior, cells[n], n);
      forall cell | 0 <= cell < NumCells(cfg) ensures CellHolds(cfg, b, cells, cell) {
        InsertedCellHolds(cfg, prior, cells, cell);
      }
    }
  }

  /** One step of the rebuild: if a cell held the members among the first
    * `n` particles, then after inserting particle `n` it holds the members
    * among the first `n + 1`. */
  lemma InsertedCellHolds(cfg: Config, prior: Buckets, cells: seq<int>, cell: nat)
    requires |cells| > 0 && Shaped(cfg, prior) && CountsNonNegative(prior) && cell < NumCells(cfg)
    requires CellHolds(cfg, prior, cells[..|cells| - 1], cell)
    ensures CellHolds(cfg, Inserted(cfg, prior, cells[|cells| - 1], |cells| - 1), cells, cell)
  {
    var n := |cells| - 1;
    var b := Inserted(cfg, prior, cells[n], n);
    var old_ := Members(cells[..n], cell);
    var m := Members(cells, cell);
    assert m == old_ + if cells[n] == cell then [n] else [];
    forall k | 0 <= k < cfg.maxParticlesPerCell
      ensures Slot(cfg, b, cell, k) == if k < |m| then m[k] else 0
    {
      assert Slot(cfg, prior, cell, k) == if k < |old_| then old_[k] else 0;
    }
  }

  /** The number of slots of a cell the sweep reads: its counter, capped at
    * the capacity (the counters read at worker.js:89 and 114, which bound
    * the loops at 92, 96 and 116). */
  function Occupancy(cfg: Config, b: Buckets, cell: nat): int
    requires cell < |b.counts|
  {
    if b.counts[cell] < cfg.maxParticlesPerCell then b.counts[cell] else cfg.maxParticlesPerCell
  }

  /** The occupancy is the smaller of the counter and the capacity. */
  lemma OccupancyCapped(cfg: Config, b: Buckets, cell: nat)
    requires cell < |b.counts|
    ensures var o := Occupancy(cfg, b, cell);
            o <= b.counts[cell] && o <= cfg.maxParticlesPerCell &&
            (o == b.counts[cell] || o == cfg.maxParticlesPerCell)
  {
  }

  /** After the rebuild, the occupied slots of a cell hold, in increasing
    * order, indices of particles that lie in that cell, and every particle
    * of the cell that is not among them comes after all of them (the cell
    * was full when it arrived). */
  lemma BucketedStoresFirstArrivals(cfg: Config, cells: seq<int>, cell: nat)
    requires cell < NumCells(cfg)
    ensures var b := Bucketed(cfg, cells);
            0 <= Occupancy(cfg, b, cell) <= cfg.maxParticlesPerCell &&
            (forall k :: 0 <= k < Occupancy(cfg, b, cell) ==>
               0 <= Slot(cfg, b, cell, k) < |cells| && cells[Slot(cfg, b, cell, k)] == cell) &&
            (forall k1, k2 :: 0 <= k1 < k2 < Occupancy(cfg, b, cell) ==>
               Slot(cfg, b, cell, k1) < Slot(cfg, b, cell, k2)) &&
            (forall i :: 0 <= i < |cells| && cells[i] == cell ==>
               (exists k :: 0 <= k < Occupancy(cfg, b, cell) && Slot(cfg, b, cell, k) == i) ||
               (Occupancy(cfg, b, cell) == cfg.maxParticlesPerCell &&
                forall k :: 0 <= k < cfg.maxParticlesPerCell ==> Slot(cfg, b, cell, k) < i))
  {
    var b := Bucketed(cfg, cells);
    var m := Members(cells, cell);
    assert CellHolds(cfg, b, cells, cell) by {
      BucketedHolds(cfg, cells);
    }
    var stored := Occupancy(cfg, b, cell);
    assert forall k :: 0 <= k < stored ==> Slot(cfg, b, cell, k) == m[k];
    forall i | 0 <= i < |cells| && cells[i] == cell
      ensures (exists k :: 0 <= k < stored && Slot(cfg, b, cell, k) == i) ||
              (stored == cfg.maxParticlesPerCell &&
               forall k :: 0 <= k < cfg.maxParticlesPerCell ==> Slot(cfg, b, cell, k) < i)
    {
      var r :| 0 <= r < |m| && m[r] == i;
      if r < stored {
        assert Slot(cfg, b, cell, r) == i;
      }
    }
  }
}
