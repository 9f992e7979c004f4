/** The collision sweep of one sub-step (worker.js:84-124), as the sequence
  * of particle pairs it hands to `resolveCollision`, and the effect of
  * resolving them in that order.
  *
  * The sweep reads the grid but never writes it, so the pairs it resolves
  * are fixed by the grid before it starts; only the positions change as it
  * goes.  Each cell reads `Occupancy` slots: its counter capped at the
  * capacity (see `CellReadsAsWritten` for the uncapped read).
  */
module Sweep {
  import opened Particles
  import opened Collision
  import opened Grid

  /** An ordered pair of particle indices, as read from the grid. */
  datatype Pair = Pair(first: int, second: int)

  /** Column and row of a cell. */
  datatype Coord = Coord(gx: int, gy: int)

  ghost predicate InGrid(cfg: Config, c: Coord) {
    0 <= c.gx < cfg.gridWidth && 0 <= c.gy < cfg.gridHeight
  }

  /** Index of a cell of the grid, `gy * gridWidth + gx`. */
  function CellIndex(cfg: Config, c: Coord): (cell: nat)
    requires InGrid(cfg, c)
    ensures cell < NumCells(cfg)
  {
    CellInRange(cfg, c.gx, c.gy);
    c.gy * cfg.gridWidth + c.gx
  }

  // ---------------------------------------------------------------------
  // Resolving pairs one after another

  /** A pair `resolveCollision` can resolve: both indices name particles and
    * the particles do not coincide.  For any other pair the worker reads
    * `undefined` or divides zero by zero and writes NaN. */
  predicate Resolvable(ps: seq<Particle>, p: Pair) {
    0 <= p.first < |ps| && 0 <= p.second < |ps| &&
    Separation2(ps[p.first], ps[p.second]) != 0.0
  }

  function SumX(ps: seq<Particle>): real {
    if |ps| == 0 then 0.0 else SumX(ps[..|ps| - 1]) + ps[|ps| - 1].x
  }

  function SumY(ps: seq<Particle>): real {
    if |ps| == 0 then 0.0 else SumY(ps[..|ps| - 1]) + ps[|ps| - 1].y
  }

  /** The particles after resolving `pairs` in order, or `None` when some
    * pair is not resolvable by the time it comes up. */
  function Swept(cfg: Config, ps: seq<Particle>, pairs: seq<Pair>): (r: Option<seq<Particle>>)
    requires IsSqrt(cfg.sqrt)
    ensures r.Some? ==> |r.value| == |ps|
    decreases |pairs|, 1
  {
    if |pairs| == 0 then Some(ps) else SweptFrom(cfg, ps, pairs[0], pairs[1..])
  }

  /** `Swept` of a sequence starting with pair `p`. */
  function SweptFrom(cfg: Config, ps: seq<Particle>, p: Pair, rest: seq<Pair>): (r: Option<seq<Particle>>)
    requires IsSqrt(cfg.sqrt)
    ensures r.Some? ==> |r.value| == |ps|
    decreases |rest| + 1, 0
  {
    if Resolvable(ps, p) then Swept(cfg, Resolved(cfg, ps, p.first, p.second), rest) else None
  }

  /** Collisions move only current positions, never the positions of the
    * previous sub-step, and since every correction is symmetric the
    * centroid of the particles does not move. */
  lemma {:induction false} SweptKeeps(cfg: Config, ps: seq<Particle>, pairs: seq<Pair>)
    requires IsSqrt(cfg.sqrt) && Swept(cfg, ps, pairs).Some?
    ensures var r := Swept(cfg, ps, pairs).value;
            (forall k :: 0 <= k < |ps| ==> r[k].oldX == ps[k].oldX && r[k].oldY == ps[k].oldY) &&
            SumX(r) == SumX(ps) && SumY(r) == SumY(ps)
    decreases |pairs|
  {
    if |pairs| > 0 {
      var p := pairs[0];
      assert Resolvable(ps, p);
      ResolvedKeepsSums(cfg, ps, p.first, p.second);
      SweptKeeps(cfg, Resolved(cfg, ps, p.first, p.second), pairs[1..]);
    }
  }

  /** `Swept` continued from a result that may already be undefined. */
  function SweptThen(cfg: Config, o: Option<seq<Particle>>, pairs: seq<Pair>): Option<seq<Particle>>
    requires IsSqrt(cfg.sqrt)
  {
    match o
    case None => None
    case Some(ps) => Swept(cfg, ps, pairs)
  }

  /** Resolving `a + b` is resolving `a`, then `b`. */
  lemma {:induction false} SweptAppend(cfg: Config, ps: seq<Particle>, a: seq<Pair>, b: seq<Pair>)
    requires IsSqrt(cfg.sqrt)
    ensures Swept(cfg, ps, a + b) == SweptThen(cfg, Swept(cfg, ps, a), b)
    decreases |a|
  {
    if |a| == 0 {
      assert a + b == b;
    } else {
      assert (a + b)[0] == a[0] && (a + b)[1..] == a[1..] + b;
      if Resolvable(ps, a[0]) {
        SweptAppend(cfg, Resolved(cfg, ps, a[0].first, a[0].second), a[1..], b);
      }
    }
  }

  /** When resolving `head + rest` is defined, so is resolving `head` ... */
  lemma SweptPrefix(cfg: Config, ps: seq<Particle>, head: seq<Pair>, rest: seq<Pair>)
    requires IsSqrt(cfg.sqrt)
    requires Swept(cfg, ps, head + rest).Some?
    ensures Swept(cfg, ps, head).Some?
  {
    SweptAppend(cfg, ps, head, rest);
  }

  /** ... and once `head` has taken `ps` to `qs`, what is left is `rest`
    * from `qs`. */
  lemma SweptRest(cfg: Config, ps: seq<Particle>, qs: seq<Particle>, head: seq<Pair>, rest: seq<Pair>)
    requires IsSqrt(cfg.sqrt)
    requires Swept(cfg, ps, head) == Some(qs)
    ensures Swept(cfg, ps, head + rest) == Swept(cfg, qs, rest)
  {
    SweptAppend(cfg, ps, head, rest);
  }

  /** When a sequence starting with pair `p` resolves, `p` is resolvable
    * and the rest is resolved from the result of resolving `p` alone. */
  lemma SweptCons(cfg: Config, ps: seq<Particle>, p: Pair, rest: seq<Pair>)
    requires IsSqrt(cfg.sqrt)
    requires Swept(cfg, ps, [p] + rest).Some?
    ensures Resolvable(ps, p)
    ensures Swept(cfg, ps, [p] + rest) == SweptThen(cfg, Swept(cfg, ps, [p]), rest)
  {
    assert ([p] + rest)[0] == p && ([p] + rest)[1..] == rest;
    SweptAppend(cfg, ps, [p], rest);
  }

  /** Resolving the single pair `p` is defined exactly when `p` is
    * resolvable, and then it is `Resolved`. */
  lemma SweptSingle(cfg: Config, ps: seq<Particle>, p: Pair)
    requires IsSqrt(cfg.sqrt)
    ensures Swept(cfg, ps, [p]).Some? <==> Resolvable(ps, p)
    ensures Resolvable(ps, p) ==> Swept(cfg, ps, [p]) == Some(Resolved(cfg, ps, p.first, p.second))
  {
    assert [p][0] == p && [p][1..] == [];
    assert Swept(cfg, ps, [p]) == SweptFrom(cfg, ps, p, []);
  }

  /** Replacing one particle changes the sums by the difference. */
  lemma {:induction false} SumsUpdate(ps: seq<Particle>, i: nat, q: Particle)
    requires i < |ps|
    ensures SumX(ps[i := q]) == SumX(ps) - ps[i].x + q.x
    ensures SumY(ps[i := q]) == SumY(ps) - ps[i].y + q.y
    decreases |ps|
  {
    var n := |ps| - 1;
    if i < n {
      assert ps[i := q][..n] == ps[..n][i := q];
      SumsUpdate(ps[..n], i, q);
    } else {
      assert ps[i := q][..n] == ps[..n];
    }
  }

  /** One resolved pair leaves both sums of positions unchanged. */
  lemma ResolvedKeepsSums(cfg: Config, ps: seq<Particle>, i: nat, j: nat)
    requires IsSqrt(cfg.sqrt)
    requires i < |ps| && j < |ps|
    requires Separation2(ps[i], ps[j]) != 0.0
    ensures SumX(Resolved(cfg, ps, i, j)) == SumX(ps)
    ensures SumY(Resolved(cfg, ps, i, j)) == SumY(ps)
  {
    var r := Resolved(cfg, ps, i, j);
    var mid := ps[i := r[i]];
    assert r == mid[j := r[j]];
    SumsUpdate(ps, i, r[i]);
    SumsUpdate(mid, j, r[j]);
  }

  // ---------------------------------------------------------------------
  // The order in which cells are visited

  /** The `k`-th cell the sweep visits: row-major order on odd sub-steps,
    * the exact reverse of it on even ones (worker.js:84-87). */
  function Visit(cfg: Config, reverse: bool, k: nat): (c: Coord)
    requires k < NumCells(cfg)
    ensures InGrid(cfg, c)
  {
    var m := if reverse then NumCells(cfg) - 1 - k else k;
    var c := Coord(m % cfg.gridWidth, m / cfg.gridWidth);
    assert c.gy < cfg.gridHeight by {
      if cfg.gridHeight <= c.gy {
        MulMonotone(cfg.gridHeight, c.gy, cfg.gridWidth);
        assert false;
      }
    }
    c
  }

  /** Position of a cell in the visiting order; the loops reach cell
    * `(gx, gy)` after this many cells. */
  function Position(cfg: Config, reverse: bool, c: Coord): nat
    requires InGrid(cfg, c)
  {
    if reverse then NumCells(cfg) - 1 - CellIndex(cfg, c) else CellIndex(cfg, c)
  }

  lemma DivModUnique(a: nat, w: nat, q: nat, r: nat)
    requires r < w && a == q * w + r
    ensures a / w == q && a % w == r
  {
    var q', r' := a / w, a % w;
    if q' < q {
      MulMonotone(q' + 1, q, w);
      assert false;
    } else if q < q' {
      MulMonotone(q + 1, q', w);
      assert false;
    }
  }

  /** The visit at a cell's position is that cell: every cell is visited. */
  lemma VisitPosition(cfg: Config, reverse: bool, c: Coord)
    requires InGrid(cfg, c)
    ensures Position(cfg, reverse, c) < NumCells(cfg)
    ensures Visit(cfg, reverse, Position(cfg, reverse, c)) == c
  {
    DivModUnique(CellIndex(cfg, c), cfg.gridWidth, c.gy, c.gx);
  }

  /** The position of a visited cell is the visit's number. */
  lemma PositionOfVisit(cfg: Config, reverse: bool, k: nat)
    requires k < NumCells(cfg)
    ensures Position(cfg, reverse, Visit(cfg, reverse, k)) == k
  {
    var m := if reverse then NumCells(cfg) - 1 - k else k;
    assert m == (m / cfg.gridWidth) * cfg.gridWidth + m % cfg.gridWidth;
  }

  /** Each sub-step visits every cell of the grid exactly once, in either
    * direction. */
  lemma VisitsEveryCellOnce(cfg: Config, reverse: bool)
    ensures forall c :: InGrid(cfg, c) ==> exists k :: 0 <= k < NumCells(cfg) && Visit(cfg, reverse, k) == c
    ensures forall k1, k2 ::
              0 <= k1 < NumCells(cfg) && 0 <= k2 < NumCells(cfg) && Visit(cfg, reverse, k1) == Visit(cfg, reverse, k2)
              ==> k1 == k2
  {
    forall c | InGrid(cfg, c)
      ensures exists k :: 0 <= k < NumCells(cfg) && Visit(cfg, reverse, k) == c
    {
      VisitPosition(cfg, reverse, c);
    }
    forall k1, k2 | 0 <= k1 < NumCells(cfg) && 0 <= k2 < NumCells(cfg) &&
                    Visit(cfg, reverse, k1) == Visit(cfg, reverse, k2)
      ensures k1 == k2
    {
      PositionOfVisit(cfg, reverse, k1);
      PositionOfVisit(cfg, reverse, k2);
    }
  }

  /** The even-step order is the odd-step order backwards. */
  lemma VisitReversed(cfg: Config, k: nat)
    requires k < NumCells(cfg)
    ensures Visit(cfg, true, k) == Visit(cfg, false, NumCells(cfg) - 1 - k)
  {
  }

  // ---------------------------------------------------------------------
  // The clipped 3x3 neighbourhood (worker.js:102-111)

  function Max(a: int, b: int): int { if a < b then b else a }
  function Min(a: int, b: int): int { if a < b then a else b }

  function StartX(base: Coord): int { Max(base.gx - 1, 0) }
  function EndX(cfg: Config, base: Coord): int { Min(base.gx + 1, cfg.gridWidth - 1) }
  function StartY(base: Coord): int { Max(base.gy - 1, 0) }
  function EndY(cfg: Config, base: Coord): int { Min(base.gy + 1, cfg.gridHeight - 1) }

  ghost predicate Adjacent(a: Coord, b: Coord) {
    -1 <= a.gx - b.gx <= 1 && -1 <= a.gy - b.gy <= 1
  }

  /** Row-major order of cells. */
  ghost predicate Before(a: Coord, b: Coord) {
    a.gy < b.gy || (a.gy == b.gy && a.gx < b.gx)
  }

  /** The cells of row `adjY` from column `adjX` to the clipped end, minus
    * the base cell: the inner neighbour loop (worker.js:108-111). */
  function NeighbourRow(cfg: Config, base: Coord, adjY: int, adjX: int): (cs: seq<Coord>)
    requires InGrid(cfg, base) && StartY(base) <= adjY <= EndY(cfg, base) && StartX(base) <= adjX
    ensures forall k :: 0 <= k < |cs| ==>
              InGrid(cfg, cs[k]) && Adjacent(cs[k], base) && cs[k] != base && cs[k].gy == adjY && adjX <= cs[k].gx
    ensures forall k1, k2 :: 0 <= k1 < k2 < |cs| ==> cs[k1].gx < cs[k2].gx
    ensures |cs| <= Max(EndX(cfg, base) + 1 - adjX, 0) - (if adjY == base.gy && adjX <= base.gx then 1 else 0)
    decreases EndX(cfg, base) + 1 - adjX
  {
    if adjX > EndX(cfg, base) then
      []
    else
      (if adjX == base.gx && adjY == base.gy then [] else [Coord(adjX, adjY)]) +
      NeighbourRow(cfg, base, adjY, adjX + 1)
  }

  /** Rows `adjY` to the clipped end of the neighbourhood: the outer
    * neighbour loop (worker.js:107). */
  function NeighbourRows(cfg: Config, base: Coord, adjY: int): (cs: seq<Coord>)
    requires InGrid(cfg, base) && StartY(base) <= adjY
    ensures forall k :: 0 <= k < |cs| ==>
              InGrid(cfg, cs[k]) && Adjacent(cs[k], base) && cs[k] != base && adjY <= cs[k].gy
    ensures forall k1, k2 :: 0 <= k1 < k2 < |cs| ==> Before(cs[k1], cs[k2])
    ensures |cs| <= 3 * Max(EndY(cfg, base) + 1 - adjY, 0) - (if adjY <= base.gy then 1 else 0)
    decreases EndY(cfg, base) + 1 - adjY
  {
    if adjY > EndY(cfg, base) then
      []
    else
      var row := NeighbourRow(cfg, base, adjY, StartX(base));
      var rest := NeighbourRows(cfg, base, adjY + 1);
      assert forall k1, k2 :: 0 <= k1 < |row| <= k2 < |row| + |rest| ==> Before((row + rest)[k1], (row + rest)[k2]);
      row + rest
  }

  /** The neighbour cells the sweep visits for base cell `base`. */
  function Neighbours(cfg: Config, base: Coord): seq<Coord>
    requires InGrid(cfg, base)
  {
    NeighbourRows(cfg, base, StartY(base))
  }

  /** The neighbourhood lies inside the grid, never contains the base cell,
    * never wraps around an edge, has no cell twice and has at most 8 cells. */
  lemma NeighboursBounded(cfg: Config, base: Coord)
    requires InGrid(cfg, base)
    ensures var cs := Neighbours(cfg, base);
            |cs| <= 8 &&
            (forall k :: 0 <= k < |cs| ==> InGrid(cfg, cs[k]) && Adjacent(cs[k], base) && cs[k] != base) &&
            (forall k1, k2 :: 0 <= k1 < k2 < |cs| ==> cs[k1] != cs[k2])
  {
  }

  /** Every cell of the grid next to the base cell is in its neighbourhood. */
  lemma NeighboursComplete(cfg: Config, base: Coord, c: Coord)
    requires InGrid(cfg, base) && InGrid(cfg, c) && Adjacent(c, base) && c != base
    ensures c in Neighbours(cfg, base)
  {
    NeighbourRowsContain(cfg, base, StartY(base), c);
  }

  lemma {:induction false} NeighbourRowContains(cfg: Config, base: Coord, adjY: int, adjX: int, c: Coord)
    requires InGrid(cfg, base) && StartY(base) <= adjY <= EndY(cfg, base) && StartX(base) <= adjX
    requires InGrid(cfg, c) && Adjacent(c, base) && c != base && c.gy == adjY && adjX <= c.gx
    ensures c in NeighbourRow(cfg, base, adjY, adjX)
    decreases EndX(cfg, base) + 1 - adjX
  {
    if adjX < c.gx {
      NeighbourRowContains(cfg, base, adjY, adjX + 1, c);
    }
  }

  lemma {:induction false} NeighbourRowsContain(cfg: Config, base: Coord, adjY: int, c: Coord)
    requires InGrid(cfg, base) && StartY(base) <= adjY
    requires InGrid(cfg, c) && Adjacent(c, base) && c != base && adjY <= c.gy
    ensures c in NeighbourRows(cfg, base, adjY)
    decreases EndY(cfg, base) + 1 - adjY
  {
    if adjY < c.gy {
      NeighbourRowsContain(cfg, base, adjY + 1, c);
    } else {
      NeighbourRowContains(cfg, base, adjY, StartX(base), c);
    }
  }

  // ---------------------------------------------------------------------
  // The pairs of one sweep

  /** Pairs of the base cell's slot `idx1` with its slots `idx2` onwards
    * (worker.js:96-99). */
  function IntraPairs(cfg: Config, b: Buckets, cell: nat, idx1: nat, idx2: nat): seq<Pair>
    requires Shaped(cfg, b) && cell < NumCells(cfg) && idx1 < Occupancy(cfg, b, cell)
    decreases Occupancy(cfg, b, cell) - idx2
  {
    if idx2 >= Occupancy(cfg, b, cell) then []
    else [Pair(Slot(cfg, b, cell, idx1), Slot(cfg, b, cell, idx2))] + IntraPairs(cfg, b, cell, idx1, idx2 + 1)
  }

  /** Pairs of particle `s1` with the stored particles of cell `cell` from
    * slot `idxAdj` onwards (worker.js:116-119). */
  function AdjPairs(cfg: Config, b: Buckets, s1: int, cell: nat, idxAdj: nat): seq<Pair>
    requires Shaped(cfg, b) && cell < NumCells(cfg)
    decreases Occupancy(cfg, b, cell) - idxAdj
  {
    if idxAdj >= Occupancy(cfg, b, cell) then []
    else [Pair(s1, Slot(cfg, b, cell, idxAdj))] + AdjPairs(cfg, b, s1, cell, idxAdj + 1)
  }

  /** Pairs of particle `s1` with the stored particles of the cells `cs`, in order. */
  function NeighbourPairs(cfg: Config, b: Buckets, s1: int, cs: seq<Coord>): seq<Pair>
    requires Shaped(cfg, b) && forall k :: 0 <= k < |cs| ==> InGrid(cfg, cs[k])
  {
    if |cs| == 0 then []
    else AdjPairs(cfg, b, s1, CellIndex(cfg, cs[0]), 0) + NeighbourPairs(cfg, b, s1, cs[1..])
  }

  lemma {:induction false} NeighbourPairsAppend(cfg: Config, b: Buckets, s1: int, cs: seq<Coord>, ds: seq<Coord>)
    requires Shaped(cfg, b)
    requires forall k :: 0 <= k < |cs| ==> InGrid(cfg, cs[k])
    requires forall k :: 0 <= k < |ds| ==> InGrid(cfg, ds[k])
    ensures NeighbourPairs(cfg, b, s1, cs + ds) == NeighbourPairs(cfg, b, s1, cs) + NeighbourPairs(cfg, b, s1, ds)
    decreases |cs|
  {
    if |cs| == 0 {
      assert cs + ds == ds;
    } else {
      assert (cs + ds)[0] == cs[0] && (cs + ds)[1..] == cs[1..] + ds;
      NeighbourPairsAppend(cfg, b, s1, cs[1..], ds);
    }
  }

  /** Pairs of particle `s1` with the stored particles of row `adjY` of the
    * neighbourhood, from column `adjX` on, base cell excepted: the inner
    * neighbour loop as it runs (worker.js:108-120). */
  function RowPairs(cfg: Config, b: Buckets, s1: int, base: Coord, adjY: int, adjX: int): seq<Pair>
    requires Shaped(cfg, b) && InGrid(cfg, base)
    requires StartY(base) <= adjY <= EndY(cfg, base) && StartX(base) <= adjX
    decreases EndX(cfg, base) + 1 - adjX
  {
    if adjX > EndX(cfg, base) then []
    else
      (if adjX == base.gx && adjY == base.gy then [] else AdjPairs(cfg, b, s1, CellIndex(cfg, Coord(adjX, adjY)), 0)) +
      RowPairs(cfg, b, s1, base, adjY, adjX + 1)
  }

  /** The same from row `adjY` on: the outer neighbour loop (worker.js:107-121). */
  function RowsPairs(cfg: Config, b: Buckets, s1: int, base: Coord, adjY: int): seq<Pair>
    requires Shaped(cfg, b) && InGrid(cfg, base) && StartY(base) <= adjY
    decreases EndY(cfg, base) + 1 - adjY
  {
    if adjY > EndY(cfg, base) then []
    else RowPairs(cfg, b, s1, base, adjY, StartX(base)) + RowsPairs(cfg, b, s1, base, adjY + 1)
  }

  /** The loops pair `s1` with the cells of `NeighbourRow`, in its order ... */
  lemma {:induction false} RowPairsMatch(cfg: Config, b: Buckets, s1: int, base: Coord, adjY: int, adjX: int)
    requires Shaped(cfg, b) && InGrid(cfg, base)
    requires StartY(base) <= adjY <= EndY(cfg, base) && StartX(base) <= adjX
    ensures RowPairs(cfg, b, s1, base, adjY, adjX) == NeighbourPairs(cfg, b, s1, NeighbourRow(cfg, base, adjY, adjX))
    decreases EndX(cfg, base) + 1 - adjX
  {
    if adjX <= EndX(cfg, base) {
      RowPairsMatch(cfg, b, s1, base, adjY, adjX + 1);
      RowPairsStep(cfg, b, s1, base, adjY, adjX);
    }
  }

  /** One column of the inner neighbour loop: the match carries over from
    * column `adjX + 1` to column `adjX`, which is skipped when it is the
    * base cell ... */
  lemma RowPairsStep(cfg: Config, b: Buckets, s1: int, base: Coord, adjY: int, adjX: int)
    requires Shaped(cfg, b) && InGrid(cfg, base)
    requires StartY(base) <= adjY <= EndY(cfg, base) && StartX(base) <= adjX <= EndX(cfg, base)
    requires RowPairs(cfg, b, s1, base, adjY, adjX + 1) == NeighbourPairs(cfg, b, s1, NeighbourRow(cfg, base, adjY, adjX + 1))
    ensures RowPairs(cfg, b, s1, base, adjY, adjX) == NeighbourPairs(cfg, b, s1, NeighbourRow(cfg, base, adjY, adjX))
  {
    if adjX == base.gx && adjY == base.gy {
      assert NeighbourRow(cfg, base, adjY, adjX) == [] + NeighbourRow(cfg, base, adjY, adjX + 1);
      assert RowPairs(cfg, b, s1, base, adjY, adjX) == [] + RowPairs(cfg, b, s1, base, adjY, adjX + 1);
    } else {
      RowPairsCell(cfg, b, s1, base, adjY, adjX);
    }
  }

  /** ... and otherwise contributes the pairs with its particles first. */
  lemma RowPairsCell(cfg: Config, b: Buckets, s1: int, base: Coord, adjY: int, adjX: int)
    requires Shaped(cfg, b) && InGrid(cfg, base)
    requires StartY(base) <= adjY <= EndY(cfg, base) && StartX(base) <= adjX <= EndX(cfg, base)
    requires !(adjX == base.gx && adjY == base.gy)
    requires RowPairs(cfg, b, s1, base, adjY, adjX + 1) == NeighbourPairs(cfg, b, s1, NeighbourRow(cfg, base, adjY, adjX + 1))
    ensures RowPairs(cfg, b, s1, base, adjY, adjX) == NeighbourPairs(cfg, b, s1, NeighbourRow(cfg, base, adjY, adjX))
  {
    var row := NeighbourRow(cfg, base, adjY, adjX + 1);
    var c := Coord(adjX, adjY);
    assert NeighbourRow(cfg, base, adjY, adjX) == [c] + row;
    NeighbourPairsCons(cfg, b, s1, c, row);
  }

  /** The pairs with a list of cells that starts with cell `c`. */
  lemma NeighbourPairsCons(cfg: Config, b: Buckets, s1: int, c: Coord, cs: seq<Coord>)
    requires Shaped(cfg, b) && InGrid(cfg, c) && forall k :: 0 <= k < |cs| ==> InGrid(cfg, cs[k])
    ensures NeighbourPairs(cfg, b, s1, [c] + cs) == AdjPairs(cfg, b, s1, CellIndex(cfg, c), 0) + NeighbourPairs(cfg, b, s1, cs)
  {
    assert ([c] + cs)[0] == c && ([c] + cs)[1..] == cs;
  }

  /** ... and with the cells of `NeighbourRows`, so over the whole
    * neighbourhood with the cells of `Neighbours`. */
  lemma {:induction false} RowsPairsMatch(cfg: Config, b: Buckets, s1: int, base: Coord, adjY: int)
    requires Shaped(cfg, b) && InGrid(cfg, base) && StartY(base) <= adjY
    ensures RowsPairs(cfg, b, s1, base, adjY) == NeighbourPairs(cfg, b, s1, NeighbourRows(cfg, base, adjY))
    decreases EndY(cfg, base) + 1 - adjY
  {
    if adjY <= EndY(cfg, base) {
      RowsPairsMatch(cfg, b, s1, base, adjY + 1);
      RowPairsMatch(cfg, b, s1, base, adjY, StartX(base));
      var row := NeighbourRow(cfg, base, adjY, StartX(base));
      var rest := NeighbourRows(cfg, base, adjY + 1);
      assert NeighbourRows(cfg, base, adjY) == row + rest;
      NeighbourPairsAppend(cfg, b, s1, row, rest);
    }
  }

  /** The pairs the sweep resolves for base cell `base` from its slot `idx1`
    * onwards: each stored particle against the later ones of its cell, then
    * against every stored particle of the neighbourhood (worker.js:88-122). */
  function CellPairs(cfg: Config, b: Buckets, base: Coord, idx1: nat): seq<Pair>
    requires Shaped(cfg, b) && InGrid(cfg, base)
    decreases Occupancy(cfg, b, CellIndex(cfg, base)) - idx1
  {
    var cell := CellIndex(cfg, base);
    if idx1 >= Occupancy(cfg, b, cell) then []
    else
      IntraPairs(cfg, b, cell, idx1, idx1 + 1) +
      RowsPairs(cfg, b, Slot(cfg, b, cell, idx1), base, StartY(base)) +
      CellPairs(cfg, b, base, idx1 + 1)
  }

  /** The pairs of one sweep from the `k`-th visited cell onwards
    * (worker.js:86-124). */
  function SweepPairs(cfg: Config, b: Buckets, reverse: bool, k: nat): seq<Pair>
    requires Shaped(cfg, b)
    decreases NumCells(cfg) - k
  {
    if k >= NumCells(cfg) then []
    else CellPairs(cfg, b, Visit(cfg, reverse, k), 0) + SweepPairs(cfg, b, reverse, k + 1)
  }

  /** Within a cell, slot `idx1` is paired with each later occupied slot
    * exactly once, in increasing slot order. */
  lemma {:induction false} IntraPairsEnumerate(cfg: Config, b: Buckets, cell: nat, idx1: nat, idx2: nat)
    requires Shaped(cfg, b) && cell < NumCells(cfg) && idx1 < Occupancy(cfg, b, cell)
    ensures var ps := IntraPairs(cfg, b, cell, idx1, idx2);
            |ps| == Max(Occupancy(cfg, b, cell) - idx2, 0) &&
            forall k :: 0 <= k < |ps| ==>
              ps[k] == Pair(Slot(cfg, b, cell, idx1), Slot(cfg, b, cell, idx2 + k))
    decreases Occupancy(cfg, b, cell) - idx2
  {
    if idx2 < Occupancy(cfg, b, cell) {
      IntraPairsEnumerate(cfg, b, cell, idx1, idx2 + 1);
    }
  }

  /** The particle of slot `idxAdj` of a cell, and of every later occupied
    * slot, is paired with `s1`. */
  lemma {:induction false} AdjPairsContain(cfg: Config, b: Buckets, s1: int, cell: nat, idxAdj: nat, k: nat)
    requires Shaped(cfg, b) && cell < NumCells(cfg)
    requires idxAdj <= k < Occupancy(cfg, b, cell)
    ensures Pair(s1, Slot(cfg, b, cell, k)) in AdjPairs(cfg, b, s1, cell, idxAdj)
    decreases k - idxAdj
  {
    if idxAdj < k {
      AdjPairsContain(cfg, b, s1, cell, idxAdj + 1, k);
    }
  }

  lemma {:induction false} NeighbourPairsContain(cfg: Config, b: Buckets, s1: int, cs: seq<Coord>, c: Coord, k: nat)
    requires Shaped(cfg, b) && forall m :: 0 <= m < |cs| ==> InGrid(cfg, cs[m])
    requires c in cs && k < Occupancy(cfg, b, CellIndex(cfg, c))
    ensures Pair(s1, Slot(cfg, b, CellIndex(cfg, c), k)) in NeighbourPairs(cfg, b, s1, cs)
    decreases |cs|
  {
    if cs[0] == c {
      AdjPairsContain(cfg, b, s1, CellIndex(cfg, c), 0, k);
    } else {
      NeighbourPairsContain(cfg, b, s1, cs[1..], c, k);
    }
  }

  lemma {:induction false} CellPairsContain(cfg: Config, b: Buckets, base: Coord, idx1: nat, a: nat, p: Pair)
    requires Shaped(cfg, b) && InGrid(cfg, base)
    requires idx1 <= a < Occupancy(cfg, b, CellIndex(cfg, base))
    requires p in NeighbourPairs(cfg, b, Slot(cfg, b, CellIndex(cfg, base), a), Neighbours(cfg, base))
    ensures p in CellPairs(cfg, b, base, idx1)
    decreases a - idx1
  {
    var cell := CellIndex(cfg, base);
    var intra := IntraPairs(cfg, b, cell, idx1, idx1 + 1);
    var rows := RowsPairs(cfg, b, Slot(cfg, b, cell, idx1), base, StartY(base));
    var rest := CellPairs(cfg, b, base, idx1 + 1);
    assert CellPairs(cfg, b, base, idx1) == intra + rows + rest;
    if idx1 < a {
      CellPairsContain(cfg, b, base, idx1 + 1, a, p);
      assert p in rest;
    } else {
      RowsPairsMatch(cfg, b, Slot(cfg, b, cell, a), base, StartY(base));
      assert p in rows;
    }
  }

  lemma {:induction false} SweepPairsContain(cfg: Config, b: Buckets, reverse: bool, k: nat, j: nat, p: Pair)
    requires Shaped(cfg, b) && k <= j < NumCells(cfg)
    requires p in CellPairs(cfg, b, Visit(cfg, reverse, j), 0)
    ensures p in SweepPairs(cfg, b, reverse, k)
    decreases j - k
  {
    var here := CellPairs(cfg, b, Visit(cfg, reverse, k), 0);
    var later := SweepPairs(cfg, b, reverse, k + 1);
    assert SweepPairs(cfg, b, reverse, k) == here + later;
    if k < j {
      SweepPairsContain(cfg, b, reverse, k + 1, j, p);
      assert p in later;
    } else {
      assert p in here;
    }
  }

  /** There is no half-neighbourhood: a particle stored in cell `a` and one
    * stored in an adjacent cell `c` are resolved from both sides in one
    * sweep, once as seen from each cell. */
  lemma CrossCellPairResolvedTwice(cfg: Config, b: Buckets, reverse: bool, a: Coord, c: Coord, ka: nat, kc: nat)
    requires Shaped(cfg, b) && InGrid(cfg, a) && InGrid(cfg, c) && Adjacent(a, c) && a != c
    requires ka < Occupancy(cfg, b, CellIndex(cfg, a)) && kc < Occupancy(cfg, b, CellIndex(cfg, c))
    ensures var pa, pc := Slot(cfg, b, CellIndex(cfg, a), ka), Slot(cfg, b, CellIndex(cfg, c), kc);
            Pair(pa, pc) in SweepPairs(cfg, b, reverse, 0) && Pair(pc, pa) in SweepPairs(cfg, b, reverse, 0)
  {
    OneSideResolved(cfg, b, reverse, a, c, ka, kc);
    OneSideResolved(cfg, b, reverse, c, a, kc, ka);
  }

  lemma OneSideResolved(cfg: Config, b: Buckets, reverse: bool, a: Coord, c: Coord, ka: nat, kc: nat)
    requires Shaped(cfg, b) && InGrid(cfg, a) && InGrid(cfg, c) && Adjacent(c, a) && a != c
    requires ka < Occupancy(cfg, b, CellIndex(cfg, a)) && kc < Occupancy(cfg, b, CellIndex(cfg, c))
    ensures Pair(Slot(cfg, b, CellIndex(cfg, a), ka), Slot(cfg, b, CellIndex(cfg, c), kc)) in SweepPairs(cfg, b, reverse, 0)
  {
    var pa := Slot(cfg, b, CellIndex(cfg, a), ka);
    var p := Pair(pa, Slot(cfg, b, CellIndex(cfg, c), kc));
    NeighboursComplete(cfg, a, c);
    NeighboursBounded(cfg, a);
    NeighbourPairsContain(cfg, b, pa, Neighbours(cfg, a), c, kc);
    CellPairsContain(cfg, b, a, 0, ka, p);
    VisitPosition(cfg, reverse, a);
    SweepPairsContain(cfg, b, reverse, 0, Position(cfg, reverse, a), p);
  }

  // ---------------------------------------------------------------------
  // The sweep as the loops run it (worker.js:86-87)

  /** The row the sweep starts with ... */
  function FirstRow(cfg: Config, reverse: bool): int {
    if reverse then cfg.gridHeight - 1 else 0
  }

  /** ... and the column it starts each row with. */
  function FirstCol(cfg: Config, reverse: bool): int {
    if reverse then cfg.gridWidth - 1 else 0
  }

  /** The next row or column in the sweep's direction. */
  function Next(reverse: bool, v: int): int {
    if reverse then v - 1 else v + 1
  }

  /** The loop condition: `v` has not run past the last row or column. */
  predicate Within(reverse: bool, v: int, n: int) {
    if reverse then v >= 0 else v < n
  }

  /** The pairs of the cells of row `gy` from column `gx` on, in the
    * sweep's direction: the loop over `gx`. */
  function RowSweep(cfg: Config, b: Buckets, reverse: bool, gy: int, gx: int): seq<Pair>
    requires Shaped(cfg, b) && 0 <= gy < cfg.gridHeight
    requires if reverse then gx < cfg.gridWidth else 0 <= gx
    decreases if reverse then gx + 1 else cfg.gridWidth - gx
  {
    if !Within(reverse, gx, cfg.gridWidth) then []
    else CellPairs(cfg, b, Coord(gx, gy), 0) + RowSweep(cfg, b, reverse, gy, Next(reverse, gx))
  }

  /** The pairs of the rows from `gy` on: the loop over `gy`. */
  function RowsSweep(cfg: Config, b: Buckets, reverse: bool, gy: int): seq<Pair>
    requires Shaped(cfg, b)
    requires if reverse then gy < cfg.gridHeight else 0 <= gy
    decreases if reverse then gy + 1 else cfg.gridHeight - gy
  {
    if !Within(reverse, gy, cfg.gridHeight) then []
    else RowSweep(cfg, b, reverse, gy, FirstCol(cfg, reverse)) + RowsSweep(cfg, b, reverse, Next(reverse, gy))
  }

  /** Rows the sweep has finished when its row variable is `gy`. */
  function RowsDone(cfg: Config, reverse: bool, gy: int): int {
    if reverse then cfg.gridHeight - 1 - gy else gy
  }

  /** Cells of the current row the sweep has finished when its column
    * variable is `gx`. */
  function ColsDone(cfg: Config, reverse: bool, gx: int): int {
    if reverse then cfg.gridWidth - 1 - gx else gx
  }

  /** The loops reach cell `(gx, gy)` as the sweep's visit number
    * `RowsDone * gridWidth + ColsDone`. */
  lemma VisitAt(cfg: Config, reverse: bool, gx: int, gy: int)
    requires InGrid(cfg, Coord(gx, gy))
    ensures 0 <= RowsDone(cfg, reverse, gy) * cfg.gridWidth + ColsDone(cfg, reverse, gx) < NumCells(cfg)
    ensures Visit(cfg, reverse, RowsDone(cfg, reverse, gy) * cfg.gridWidth + ColsDone(cfg, reverse, gx)) == Coord(gx, gy)
  {
    var c := Coord(gx, gy);
    var w, h := cfg.gridWidth, cfg.gridHeight;
    VisitPosition(cfg, reverse, c);
    if reverse {
      assert (h - 1 - gy) * w == h * w - w - gy * w;
    }
    assert RowsDone(cfg, reverse, gy) * w + ColsDone(cfg, reverse, gx) == Position(cfg, reverse, c);
  }

  /** Row `gy` takes the visits `start .. start + gridWidth - 1`, in the
    * order of the loop over `gx`. */
  ghost predicate RowVisits(cfg: Config, reverse: bool, gy: int, start: int) {
    0 <= start && start + cfg.gridWidth <= NumCells(cfg) &&
    forall gx {:trigger ColsDone(cfg, reverse, gx)} :: 0 <= gx < cfg.gridWidth ==>
      Visit(cfg, reverse, start + ColsDone(cfg, reverse, gx)) == Coord(gx, gy)
  }

  /** Every row of the grid takes `gridWidth` consecutive visits, starting
    * after the rows before it. */
  lemma RowVisitsAt(cfg: Config, reverse: bool, gy: int)
    requires 0 <= gy < cfg.gridHeight
    ensures RowVisits(cfg, reverse, gy, RowsDone(cfg, reverse, gy) * cfg.gridWidth)
  {
    var w := cfg.gridWidth;
    var rows := RowsDone(cfg, reverse, gy);
    MulMonotone(0, rows, w);
    MulMonotone(rows + 1, cfg.gridHeight, w);
    forall gx | 0 <= gx < w
      ensures Visit(cfg, reverse, rows * w + ColsDone(cfg, reverse, gx)) == Coord(gx, gy)
    {
      VisitAt(cfg, reverse, gx, gy);
    }
  }

  /** The sweep from visit `k`, the visit of cell `c`, on: that cell's
    * pairs, then the rest. */
  lemma SweepPairsVisit(cfg: Config, b: Buckets, reverse: bool, k: nat, c: Coord)
    requires Shaped(cfg, b) && k < NumCells(cfg) && Visit(cfg, reverse, k) == c
    ensures InGrid(cfg, c)
    ensures SweepPairs(cfg, b, reverse, k) == CellPairs(cfg, b, c, 0) + SweepPairs(cfg, b, reverse, k + 1)
  {
  }

  /** Past the last row every cell has been visited. */
  lemma RowsDoneAll(cfg: Config, reverse: bool, gy: int)
    requires if reverse then gy == -1 else gy == cfg.gridHeight
    ensures RowsDone(cfg, reverse, gy) * cfg.gridWidth == NumCells(cfg)
  {
  }

  /** A finished row adds `gridWidth` visits. */
  lemma NextRow(cfg: Config, reverse: bool, gy: int)
    ensures RowsDone(cfg, reverse, gy) * cfg.gridWidth + cfg.gridWidth
         == RowsDone(cfg, reverse, Next(reverse, gy)) * cfg.gridWidth
  {
  }

  /** `row + end` is `all` when `row` is `here` then `there`, and `all` is
    * `here` then `there + end`. */
  lemma Rejoin(row: seq<Pair>, here: seq<Pair>, there: seq<Pair>, end: seq<Pair>, all: seq<Pair>, rest: seq<Pair>)
    requires row == here + there && there + end == rest && all == here + rest
    ensures row + end == all
  {
    assert (here + there) + end == here + (there + end);
  }

  /** The loop over `gx` resolves the cells of the row in visiting order:
    * followed by the later rows it is the rest of the visits.  `start` is
    * the row's first visit and `k` the visit of column `gx`. */
  lemma {:induction false} RowSweepMatch(cfg: Config, b: Buckets, reverse: bool, gy: int, gx: int, start: int, k: int)
    requires Shaped(cfg, b) && 0 <= gy < cfg.gridHeight
    requires if reverse then -1 <= gx < cfg.gridWidth else 0 <= gx <= cfg.gridWidth
    requires RowVisits(cfg, reverse, gy, start) && k == start + ColsDone(cfg, reverse, gx)
    ensures 0 <= k <= start + cfg.gridWidth
    ensures RowSweep(cfg, b, reverse, gy, gx) + SweepPairs(cfg, b, reverse, start + cfg.gridWidth) == SweepPairs(cfg, b, reverse, k)
    decreases if reverse then gx + 1 else cfg.gridWidth - gx, 1
  {
    if Within(reverse, gx, cfg.gridWidth) {
      RowSweepStep(cfg, b, reverse, gy, gx, start, k);
    } else {
      assert RowSweep(cfg, b, reverse, gy, gx) == [];
    }
  }

  /** One cell of the row, visit `k`: its pairs, then the row from the next
    * column. */
  lemma {:induction false} RowSweepStep(cfg: Config, b: Buckets, reverse: bool, gy: int, gx: int, start: int, k: int)
    requires Shaped(cfg, b) && InGrid(cfg, Coord(gx, gy))
    requires RowVisits(cfg, reverse, gy, start) && k == start + ColsDone(cfg, reverse, gx)
    ensures 0 <= k < start + cfg.gridWidth
    ensures RowSweep(cfg, b, reverse, gy, gx) + SweepPairs(cfg, b, reverse, start + cfg.gridWidth) == SweepPairs(cfg, b, reverse, k)
    decreases if reverse then gx + 1 else cfg.gridWidth - gx, 0
  {
    var gx' := Next(reverse, gx);
    RowSweepCell(cfg, b, reverse, gy, gx);
    RowSweepMatch(cfg, b, reverse, gy, gx', start, k + 1);
    SweepPairsVisit(cfg, b, reverse, k, Coord(gx, gy));
    Rejoin(RowSweep(cfg, b, reverse, gy, gx), CellPairs(cfg, b, Coord(gx, gy), 0), RowSweep(cfg, b, reverse, gy, gx'),
           SweepPairs(cfg, b, reverse, start + cfg.gridWidth), SweepPairs(cfg, b, reverse, k), SweepPairs(cfg, b, reverse, k + 1));
  }

  /** The row from column `gx` on: that cell's pairs, then the row from the
    * next column on, which is one visit later. */
  lemma RowSweepCell(cfg: Config, b: Buckets, reverse: bool, gy: int, gx: int)
    requires Shaped(cfg, b) && InGrid(cfg, Coord(gx, gy))
    ensures ColsDone(cfg, reverse, Next(reverse, gx)) == ColsDone(cfg, reverse, gx) + 1
    ensures RowSweep(cfg, b, reverse, gy, gx)
         == CellPairs(cfg, b, Coord(gx, gy), 0) + RowSweep(cfg, b, reverse, gy, Next(reverse, gx))
  {
  }

  /** The loop over `gy` from row `gy` on is the rest of the visits ... */
  lemma {:induction false} RowsSweepMatch(cfg: Config, b: Buckets, reverse: bool, gy: int, start: int)
    requires Shaped(cfg, b)
    requires if reverse then -1 <= gy < cfg.gridHeight else 0 <= gy <= cfg.gridHeight
    requires start == RowsDone(cfg, reverse, gy) * cfg.gridWidth
    ensures 0 <= start
    ensures RowsSweep(cfg, b, reverse, gy) == SweepPairs(cfg, b, reverse, start)
    decreases if reverse then gy + 1 else cfg.gridHeight - gy
  {
    if Within(reverse, gy, cfg.gridHeight) {
      NextRow(cfg, reverse, gy);
      RowVisitsAt(cfg, reverse, gy);
      RowsSweepMatch(cfg, b, reverse, Next(reverse, gy), start + cfg.gridWidth);
      RowSweepMatch(cfg, b, reverse, gy, FirstCol(cfg, reverse), start, start);
    } else {
      RowsDoneAll(cfg, reverse, gy);
    }
  }

  /** ... so the two loops resolve exactly the pairs of the visiting order. */
  lemma SweepLoopsMatch(cfg: Config, b: Buckets, reverse: bool)
    requires Shaped(cfg, b)
    ensures RowsSweep(cfg, b, reverse, FirstRow(cfg, reverse)) == SweepPairs(cfg, b, reverse, 0)
  {
    RowsSweepMatch(cfg, b, reverse, FirstRow(cfg, reverse), 0);
  }

  // ---------------------------------------------------------------------
  // Reading an overfull cell

  /** The particle indices the sweep reads from a cell when it loops up to
    * the raw counter, as worker.js:89-93 (and 114-117 for neighbour cells)
    * is written: slot `k` is read at `cell * maxParticlesPerCell + k` even
    * past the capacity, which is a slot of the next cell; `None` is a read
    * past the end of the grid (`undefined`). */
  function CellReadsAsWritten(cfg: Config, b: Buckets, cell: nat): (r: seq<Option<int>>)
    requires Shaped(cfg, b) && cell < NumCells(cfg)
    ensures |r| == Max(b.counts[cell], 0)
  {
    var start := SlotIndex(cfg, cell, 0);
    seq(Max(b.counts[cell], 0), k requires 0 <= k => if start + k < |b.grid| then Some(b.grid[start + k]) else None)
  }

  /** The particle indices the sweep reads from a cell with the counter
    * capped at the capacity, as the model's sweep does. */
  function CellReads(cfg: Config, b: Buckets, cell: nat): (r: seq<int>)
    requires Shaped(cfg, b) && cell < NumCells(cfg)
    ensures |r| <= cfg.maxParticlesPerCell
    ensures forall k :: 0 <= k < |r| ==> r[k] == Slot(cfg, b, cell, k)
  {
    seq(Max(Occupancy(cfg, b, cell), 0), k requires 0 <= k < Max(Occupancy(cfg, b, cell), 0) => Slot(cfg, b, cell, k))
  }

  /** With the cap, after a rebuild every particle read from a cell lies in
    * that cell, and each is read once. */
  lemma CellReadsBelong(cfg: Config, cells: seq<int>, cell: nat)
    requires cell < NumCells(cfg)
    ensures var r := CellReads(cfg, Bucketed(cfg, cells), cell);
            (forall k :: 0 <= k < |r| ==> 0 <= r[k] < |cells| && cells[r[k]] == cell) &&
            (forall k1, k2 :: 0 <= k1 < k2 < |r| ==> r[k1] < r[k2])
  {
    BucketedStoresFirstArrivals(cfg, cells, cell);
  }

  /** A two-cell grid with room for one particle per cell, particles 0 and 1
    * in cell 0 and particle 2 in cell 1.  Reading cells takes no square
    * root, so `sqrt` is an unused placeholder (the identity, which is not a
    * square root). */
  function TwoCells(): Config {
    Config(3, 2, 1, 1, 1.0, 2.0, 4.0, 0.5, 0.0, 0.0, v => v)
  }

  /** Without the cap, the sweep reads particle 2 as a member of cell 0
    * although it lies in cell 1 (and never reads particle 1, which was
    * dropped); with the cap it reads cell 0's one stored particle. */
  lemma OverfullCellReadsNextCell()
    ensures var b := Bucketed(TwoCells(), [0, 0, 1]);
            CellReadsAsWritten(TwoCells(), b, 0) == [Some(0), Some(2)] &&
            [0, 0, 1][2] != 0 &&
            CellReads(TwoCells(), b, 0) == [0]
  {
    TwoCellsBucketed();
    assert CellReadsAsWritten(TwoCells(), Buckets([0, 2], [2, 1]), 0) == [Some(0), Some(2)];
    assert CellReads(TwoCells(), Buckets([0, 2], [2, 1]), 0) == [0];
  }

  /** The rebuild of that grid: cell 0 stores particle 0 and counts two,
    * cell 1 stores particle 2 and counts one. */
  lemma TwoCellsBucketed()
    ensures Bucketed(TwoCells(), [0, 0, 1]) == Buckets([0, 2], [2, 1])
  {
    var cfg := TwoCells();
    var b0 := Empty(cfg);
    assert b0 == Buckets([0, 0], [0, 0]);
    var b1 := Inserted(cfg, b0, 0, 0);
    assert b1 == Buckets([0, 0], [1, 0]);
    var b2 := Inserted(cfg, b1, 0, 1);
    assert b2 == Buckets([0, 0], [2, 0]);
    var b3 := Inserted(cfg, b2, 1, 2);
    assert b3 == Buckets([0, 2], [2, 1]);
    assert [0, 0, 1][..2][..1][..0] == [];
  }

  /** Read without the cap, the overfull cell 0 yields particle 2 in its
    * slot 1; cell 1 is one of its neighbours and yields particle 2 in its
    * slot 0, so the neighbour loop pairs particle 2 with itself, a pair that
    * no placement of the particles makes resolvable (the worker divides
    * zero by zero and writes NaN). */
  lemma OverfullCellPairsItself()
    ensures var cfg, b := TwoCells(), Bucketed(TwoCells(), [0, 0, 1]);
            CellReadsAsWritten(cfg, b, 0) == [Some(0), Some(2)] &&
            Coord(1, 0) in NeighbourRows(cfg, Coord(0, 0), StartY(Coord(0, 0))) &&
            CellReadsAsWritten(cfg, b, CellIndex(cfg, Coord(1, 0))) == [Some(2)]
    ensures forall ps: seq<Particle> :: !Resolvable(ps, Pair(2, 2))
  {
    var cfg := TwoCells();
    TwoCellsBucketed();
    assert CellReadsAsWritten(cfg, Buckets([0, 2], [2, 1]), 0) == [Some(0), Some(2)];
    assert CellReadsAsWritten(cfg, Buckets([0, 2], [2, 1]), 1) == [Some(2)];
    assert NeighbourRow(cfg, Coord(0, 0), 0, StartX(Coord(0, 0))) == [Coord(1, 0)];
  }
}
