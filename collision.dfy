/** The pair resolver, `resolveCollision` (worker.js:40-75), on the view.
  *
  * An overlapping pair is pushed apart symmetrically along the line
  * between the centres until the centres are `cellSize` apart; a pair that
  * does not overlap is nudged a little towards each other.  Only the two
  * current positions change.  The worker has no guard against a coincident
  * pair (it would divide 0 by 0), so the model requires a nonzero
  * separation.
  */
module Collision {
  import opened Particles

  /** Squared distance between the current positions of `a` and `b`. */
  function Separation2(a: Particle, b: Particle): real {
    (b.x - a.x) * (b.x - a.x) + (b.y - a.y) * (b.y - a.y)
  }

  lemma Separation2NonNegative(a: Particle, b: Particle)
    ensures 0.0 <= Separation2(a, b)
  {
    var dx, dy := b.x - a.x, b.y - a.y;
    assert 0.0 <= dx * dx;
    assert 0.0 <= dy * dy;
  }

  /** The distance the worker computes for the pair: `sqrt` of the squared separation. */
  function Distance(cfg: Config, a: Particle, b: Particle): (d: real)
    requires IsSqrt(cfg.sqrt)
    ensures 0.0 <= d && d * d == Separation2(a, b)
  {
    Separation2NonNegative(a, b);
    cfg.sqrt(Separation2(a, b))
  }

  /** The correction vector of worker.js:55-58: half the overlap, along
    * the unit vector from `a` to `b`. */
  function Normal(cfg: Config, a: Particle, b: Particle): Vec
    requires IsSqrt(cfg.sqrt)
    requires Separation2(a, b) != 0.0
  {
    var distance := Distance(cfg, a, b);
    var overlap := 0.5 * (cfg.cellSize - distance);
    Vec(overlap * (b.x - a.x) / distance, overlap * (b.y - a.y) / distance)
  }

  /** The damping of the attraction between separated particles (worker.js:69). */
  function InvDistance(cfg: Config, a: Particle, b: Particle): real
    requires IsSqrt(cfg.sqrt)
  {
    1.0 / (100.0 * (Distance(cfg, a, b) + 0.1))
  }

  /** `resolveCollision(i, j)` applied to the particles `ps`. */
  function Resolved(cfg: Config, ps: seq<Particle>, i: nat, j: nat): (r: seq<Particle>)
    requires IsSqrt(cfg.sqrt)
    requires i < |ps| && j < |ps|
    requires Separation2(ps[i], ps[j]) != 0.0
    ensures |r| == |ps|
    ensures forall k :: 0 <= k < |ps| && k != i && k != j ==> r[k] == ps[k]
    ensures r[i].oldX == ps[i].oldX && r[i].oldY == ps[i].oldY
    ensures r[j].oldX == ps[j].oldX && r[j].oldY == ps[j].oldY
    ensures r[i].x + r[j].x == ps[i].x + ps[j].x
    ensures r[i].y + r[j].y == ps[i].y + ps[j].y
  {
    var c := Correction(cfg, ps[i], ps[j]);
    Pushed(ps, i, j, c.x, c.y)
  }

  /** The displacement `resolveCollision` applies, `-` to `a` and `+` to
    * `b`: the normal for an overlapping pair, the normal damped by
    * `InvDistance` for a separated one (worker.js:54-73). */
  function Correction(cfg: Config, a: Particle, b: Particle): Vec
    requires IsSqrt(cfg.sqrt)
    requires Separation2(a, b) != 0.0
  {
    if Separation2(a, b) < cfg.sumOfRadiiSquared then Normal(cfg, a, b) else Damped(cfg, a, b)
  }

  /** The normal damped by `InvDistance` (worker.js:69-73). */
  function Damped(cfg: Config, a: Particle, b: Particle): Vec
    requires IsSqrt(cfg.sqrt)
    requires Separation2(a, b) != 0.0
  {
    Scaled(InvDistance(cfg, a, b), Normal(cfg, a, b))
  }

  /** `v` scaled by `k`. */
  function Scaled(k: real, v: Vec): Vec {
    Vec(k * v.x, k * v.y)
  }

  lemma NormalUnfolds(cfg: Config, a: Particle, b: Particle)
    requires IsSqrt(cfg.sqrt)
    requires Separation2(a, b) != 0.0
    ensures var d := Distance(cfg, a, b);
            Normal(cfg, a, b) == Vec(0.5 * (cfg.cellSize - d) * (b.x - a.x) / d,
                                     0.5 * (cfg.cellSize - d) * (b.y - a.y) / d)
  {
  }

  /** Particle `i` moved by `-(nx, ny)` and particle `j` by `+(nx, ny)`. */
  function Pushed(ps: seq<Particle>, i: nat, j: nat, nx: real, ny: real): seq<Particle>
    requires i < |ps| && j < |ps|
  {
    ps[i := ps[i].(x := ps[i].x - nx, y := ps[i].y - ny)]
      [j := ps[j].(x := ps[j].x + nx, y := ps[j].y + ny)]
  }

  /** The squared distance `resolveCollision` computes (worker.js:51-53). */
  lemma SeparationTerms(a: Particle, b: Particle, xDist: real, yDist: real)
    requires xDist == b.x - a.x && yDist == b.y - a.y
    ensures Separation2(a, b) == xDist * xDist + yDist * yDist
  {
  }

  /** The distance and the normal `resolveCollision` computes from the
    * coordinates it reads (worker.js:50-58, 65-68) are `Distance` and
    * `Normal`. */
  lemma WorkerNormal(cfg: Config, a: Particle, b: Particle, xDist: real, yDist: real, sep: real,
                     distance: real, overlap: real, normalX: real, normalY: real)
    requires IsSqrt(cfg.sqrt) && Separation2(a, b) != 0.0
    requires xDist == b.x - a.x && yDist == b.y - a.y && sep == xDist * xDist + yDist * yDist
    requires distance == cfg.sqrt(sep)
    requires overlap == 0.5 * (cfg.cellSize - distance)
    requires normalX == overlap * xDist / distance && normalY == overlap * yDist / distance
    ensures sep == Separation2(a, b) && distance == Distance(cfg, a, b)
    ensures Normal(cfg, a, b) == Vec(normalX, normalY)
  {
    SeparationTerms(a, b, xDist, yDist);
  }

  /** For an overlapping pair, the values the worker computes give
    * `Correction` (worker.js:50-62) ... */
  lemma OverlappingCorrection(cfg: Config, a: Particle, b: Particle, xDist: real, yDist: real, sep: real,
                              distance: real, overlap: real, normalX: real, normalY: real)
    requires IsSqrt(cfg.sqrt) && Separation2(a, b) != 0.0
    requires xDist == b.x - a.x && yDist == b.y - a.y && sep == xDist * xDist + yDist * yDist
    requires sep < cfg.sumOfRadiiSquared && distance == cfg.sqrt(sep)
    requires overlap == 0.5 * (cfg.cellSize - distance)
    requires normalX == overlap * xDist / distance && normalY == overlap * yDist / distance
    ensures Correction(cfg, a, b) == Vec(normalX, normalY)
  {
    WorkerNormal(cfg, a, b, xDist, yDist, sep, distance, overlap, normalX, normalY);
  }

  /** ... and so do they for a separated pair (worker.js:50-58, 63-73). */
  lemma SeparatedCorrection(cfg: Config, a: Particle, b: Particle, xDist: real, yDist: real, sep: real,
                            distance: real, overlap: real, normalX: real, normalY: real, invDistance: real)
    requires IsSqrt(cfg.sqrt) && Separation2(a, b) != 0.0
    requires xDist == b.x - a.x && yDist == b.y - a.y && sep == xDist * xDist + yDist * yDist
    requires !(sep < cfg.sumOfRadiiSquared) && distance == cfg.sqrt(sep)
    requires overlap == 0.5 * (cfg.cellSize - distance)
    requires normalX == overlap * xDist / distance && normalY == overlap * yDist / distance
    requires invDistance == 1.0 / (100.0 * (distance + 0.1))
    ensures Correction(cfg, a, b).x == invDistance * normalX && Correction(cfg, a, b).y == invDistance * normalY
  {
    WorkerNormal(cfg, a, b, xDist, yDist, sep, distance, overlap, normalX, normalY);
    DampedIsCorrection(cfg, a, b);
    ScaledComponents(Correction(cfg, a, b), InvDistance(cfg, a, b), Normal(cfg, a, b), invDistance, normalX, normalY);
  }

  /** Past contact distance, the correction is the damped normal. */
  lemma DampedIsCorrection(cfg: Config, a: Particle, b: Particle)
    requires IsSqrt(cfg.sqrt) && Separation2(a, b) != 0.0 && !(Separation2(a, b) < cfg.sumOfRadiiSquared)
    ensures Correction(cfg, a, b) == Scaled(InvDistance(cfg, a, b), Normal(cfg, a, b))
  {
    assert Correction(cfg, a, b) == Damped(cfg, a, b);
  }

  /** The components of a scaled vector. */
  lemma ScaledComponents(c: Vec, k: real, n: Vec, k': real, nx: real, ny: real)
    requires c == Scaled(k, n) && n == Vec(nx, ny) && k == k'
    ensures c.x == k' * nx && c.y == k' * ny
  {
  }

  /** Writing the corrected X and Y entries of particles `i` and `j` into
    * the flat buffer is `Resolved` on its view. */
  lemma ViewResolved(cfg: Config, s: seq<real>, i: nat, j: nat, nx: real, ny: real)
    requires IsSqrt(cfg.sqrt) && 4 * i + 3 < |s| && 4 * j + 3 < |s|
    requires Separation2(View(s)[i], View(s)[j]) != 0.0
    requires Vec(nx, ny) == Correction(cfg, View(s)[i], View(s)[j])
    ensures View(s[4 * i := s[4 * i] - nx][4 * i + 1 := s[4 * i + 1] - ny]
                  [4 * j := s[4 * j] + nx][4 * j + 1 := s[4 * j + 1] + ny])
         == Resolved(cfg, View(s), i, j)
  {
    assert i != j;
    ViewPushed(s, i, j, nx, ny);
  }

  /** Writing the moved X and Y entries of particles `i` and `j` into the
    * flat buffer is `Pushed` on its view. */
  lemma ViewPushed(s: seq<real>, i: nat, j: nat, nx: real, ny: real)
    requires 4 * i + 3 < |s| && 4 * j + 3 < |s| && i != j
    ensures View(s[4 * i := s[4 * i] - nx][4 * i + 1 := s[4 * i + 1] - ny]
                  [4 * j := s[4 * j] + nx][4 * j + 1 := s[4 * j + 1] + ny])
         == Pushed(View(s), i, j, nx, ny)
  {
    var mid := s[4 * i := s[4 * i] - nx][4 * i + 1 := s[4 * i + 1] - ny];
    ViewSetPosition(s, i, s[4 * i] - nx, s[4 * i + 1] - ny);
    ViewSetPosition(mid, j, s[4 * j] + nx, s[4 * j + 1] + ny);
    assert mid[4 * j] == s[4 * j] && mid[4 * j + 1] == s[4 * j + 1];
  }

  /** An overlapping pair ends exactly `cellSize` apart, each separation
    * component scaled by the same positive factor `cellSize / distance`:
    * the pair moves apart along the line between the centres. */
  lemma OverlapRestoresContact(cfg: Config, ps: seq<Particle>, i: nat, j: nat)
    requires IsSqrt(cfg.sqrt) && 0.0 < cfg.cellSize
    requires i < |ps| && j < |ps|
    requires 0.0 < Separation2(ps[i], ps[j]) < cfg.sumOfRadiiSquared
    ensures var r := Resolved(cfg, ps, i, j);
            var k := cfg.cellSize / Distance(cfg, ps[i], ps[j]);
            0.0 < k &&
            r[j].x - r[i].x == k * (ps[j].x - ps[i].x) &&
            r[j].y - r[i].y == k * (ps[j].y - ps[i].y) &&
            Separation2(r[i], r[j]) == cfg.cellSize * cfg.cellSize
  {
    var r := Resolved(cfg, ps, i, j);
    var p, q := ps[i], ps[j];
    var c := cfg.cellSize;
    var d := Distance(cfg, p, q);
    var xd, yd := q.x - p.x, q.y - p.y;
    var n := Normal(cfg, p, q);
    assert r == Pushed(ps, i, j, n.x, n.y);
    assert r[j].x - r[i].x == xd + 2.0 * n.x;
    assert r[j].y - r[i].y == yd + 2.0 * n.y;
    assert 0.0 < d;
    var k := c / d;
    assert 0.0 < k;
    NormalUnfolds(cfg, p, q);
    NormalScales(c, d, xd, yd, n);
    ScaledSeparation(k, xd, yd, d, c);
  }

  /** Twice the correction vector added to the separation scales it by c/d. */
  lemma NormalScales(c: real, d: real, xd: real, yd: real, n: Vec)
    requires 0.0 < d
    requires n == Vec(0.5 * (c - d) * xd / d, 0.5 * (c - d) * yd / d)
    ensures xd + 2.0 * n.x == (c / d) * xd
    ensures yd + 2.0 * n.y == (c / d) * yd
  {
    ScaleByTwiceHalfOverlap(c, d, xd);
    ScaleByTwiceHalfOverlap(c, d, yd);
  }

  /** xd + 2 * (0.5 * (c - d) * xd / d) == (c / d) * xd */
  lemma ScaleByTwiceHalfOverlap(c: real, d: real, xd: real)
    requires d != 0.0
    ensures xd + 2.0 * (0.5 * (c - d) * xd / d) == (c / d) * xd
  {
    calc {
      xd + 2.0 * (0.5 * (c - d) * xd / d);
      xd + (c - d) * xd / d;
      { assert (c - d) * xd / d == c * xd / d - d * xd / d; assert d * xd / d == xd; }
      c * xd / d;
    }
  }

  /** Scaling a separation of squared length d*d by c/d gives squared length c*c. */
  lemma ScaledSeparation(k: real, xd: real, yd: real, d: real, c: real)
    requires d != 0.0 && k == c / d && d * d == xd * xd + yd * yd
    ensures (k * xd) * (k * xd) + (k * yd) * (k * yd) == c * c
  {
    calc {
      (k * xd) * (k * xd) + (k * yd) * (k * yd);
      k * k * (xd * xd + yd * yd);
      k * k * (d * d);
      (k * d) * (k * d);
      { assert k * d == c; }
      c * c;
    }
  }

  /** The factor by which the nudge of a separated pair scales its
    * separation: 1 + (cellSize - d) / (100 d (d + 0.1)). */
  function NudgeFactor(cfg: Config, a: Particle, b: Particle): real
    requires IsSqrt(cfg.sqrt)
    requires Separation2(a, b) != 0.0
  {
    var d := Distance(cfg, a, b);
    assert d != 0.0;
    1.0 + (cfg.cellSize - d) / (100.0 * d * (d + 0.1))
  }

  /** A pair that does not overlap (taking `sumOfRadiiSquared` as
    * `cellSize * cellSize`, main.js:162) is drawn together along the line
    * between the centres: the separation is scaled by a factor in (0, 1],
    * so the two never pass each other. */
  lemma SeparatedPairNudged(cfg: Config, ps: seq<Particle>, i: nat, j: nat)
    requires IsSqrt(cfg.sqrt) && 0.0 < cfg.cellSize
    requires cfg.sumOfRadiiSquared == cfg.cellSize * cfg.cellSize
    requires i < |ps| && j < |ps|
    requires 0.0 < cfg.sumOfRadiiSquared <= Separation2(ps[i], ps[j])
    ensures var r, k := Resolved(cfg, ps, i, j), NudgeFactor(cfg, ps[i], ps[j]);
            0.0 < k <= 1.0 && ScaledApart(ps[i], ps[j], r[i], r[j], k)
  {
    var p, q := ps[i], ps[j];
    DistanceAtLeastCell(cfg, p, q);
    FactorInUnitInterval(cfg, p, q);
    NudgedSeparation(cfg, ps, i, j);
  }

  /** A separated pair is at least `cellSize` apart. */
  lemma DistanceAtLeastCell(cfg: Config, p: Particle, q: Particle)
    requires IsSqrt(cfg.sqrt) && 0.0 < cfg.cellSize
    requires cfg.sumOfRadiiSquared == cfg.cellSize * cfg.cellSize <= Separation2(p, q)
    ensures 0.0 < Distance(cfg, p, q) && cfg.cellSize <= Distance(cfg, p, q)
  {
    var d := Distance(cfg, p, q);
    assert d * d == Separation2(p, q);
    RootMonotone(cfg.cellSize, d);
  }

  /** The separation from `p'` to `q'` is `k` times the one from `p` to `q`. */
  ghost predicate ScaledApart(p: Particle, q: Particle, p': Particle, q': Particle, k: real) {
    q'.x - p'.x == k * (q.x - p.x) && q'.y - p'.y == k * (q.y - p.y)
  }

  /** Twice `n` added to the separation `sep` scales it by `k`. */
  ghost predicate ScalesBy(sep: real, n: real, k: real) {
    sep + 2.0 * n == k * sep
  }

  /** The separation of a separated pair after the nudge, coordinate by
    * coordinate: scaled by `NudgeFactor`. */
  lemma NudgedSeparation(cfg: Config, ps: seq<Particle>, i: nat, j: nat)
    requires IsSqrt(cfg.sqrt)
    requires i < |ps| && j < |ps|
    requires 0.0 < cfg.sumOfRadiiSquared <= Separation2(ps[i], ps[j])
    ensures var r := Resolved(cfg, ps, i, j);
            ScaledApart(ps[i], ps[j], r[i], r[j], NudgeFactor(cfg, ps[i], ps[j]))
  {
    var c := Correction(cfg, ps[i], ps[j]);
    NudgeScales(cfg, ps[i], ps[j]);
    PushedApart(ps, i, j, c.x, c.y, NudgeFactor(cfg, ps[i], ps[j]));
  }

  /** Moving the pair by `-(nx, ny)` and `+(nx, ny)`, where twice the
    * displacement added to the separation scales it by `k`, scales the
    * separation by `k`. */
  lemma PushedApart(ps: seq<Particle>, i: nat, j: nat, nx: real, ny: real, k: real)
    requires i < |ps| && j < |ps|
    requires ScalesBy(ps[j].x - ps[i].x, nx, k) && ScalesBy(ps[j].y - ps[i].y, ny, k)
    ensures var r := Pushed(ps, i, j, nx, ny);
            ScaledApart(ps[i], ps[j], r[i], r[j], k)
  {
    var r := Pushed(ps, i, j, nx, ny);
    if i == j {
      assert ps[j].x - ps[i].x == 0.0 && ps[j].y - ps[i].y == 0.0;
    } else {
      assert r[i].x == ps[i].x - nx && r[j].x == ps[j].x + nx;
      assert r[i].y == ps[i].y - ny && r[j].y == ps[j].y + ny;
    }
  }

  /** ... and so the nudged pair never ends further apart than it started. */
  lemma SeparatedPairNotFurther(cfg: Config, ps: seq<Particle>, i: nat, j: nat)
    requires IsSqrt(cfg.sqrt) && 0.0 < cfg.cellSize
    requires cfg.sumOfRadiiSquared == cfg.cellSize * cfg.cellSize
    requires i < |ps| && j < |ps|
    requires 0.0 < cfg.sumOfRadiiSquared <= Separation2(ps[i], ps[j])
    ensures var r := Resolved(cfg, ps, i, j);
            Separation2(r[i], r[j]) <= Separation2(ps[i], ps[j])
  {
    SeparatedPairNudged(cfg, ps, i, j);
    var r := Resolved(cfg, ps, i, j);
    ScaledPairCloser(ps[i], ps[j], r[i], r[j], NudgeFactor(cfg, ps[i], ps[j]));
  }

  /** A pair whose separation is scaled by k in (0, 1] ends no further apart. */
  lemma ScaledPairCloser(p: Particle, q: Particle, p': Particle, q': Particle, k: real)
    requires 0.0 < k <= 1.0
    requires ScaledApart(p, q, p', q', k)
    ensures Separation2(p', q') <= Separation2(p, q)
  {
    ShrunkSeparation(k, q.x - p.x, q.y - p.y);
  }

  /** For a separated pair, twice the correction added to the separation
    * scales it by the nudge factor. */
  lemma NudgeScales(cfg: Config, p: Particle, q: Particle)
    requires IsSqrt(cfg.sqrt)
    requires 0.0 < cfg.sumOfRadiiSquared <= Separation2(p, q)
    ensures var c, k := Correction(cfg, p, q), NudgeFactor(cfg, p, q);
            ScalesBy(q.x - p.x, c.x, k) && ScalesBy(q.y - p.y, c.y, k)
  {
    assert Correction(cfg, p, q) == Damped(cfg, p, q);
    DampedScales(cfg, p, q);
  }

  /** Twice the damped normal added to the separation scales it by the
    * nudge factor. */
  lemma DampedScales(cfg: Config, p: Particle, q: Particle)
    requires IsSqrt(cfg.sqrt)
    requires 0.0 < Separation2(p, q)
    ensures var c, k := Damped(cfg, p, q), NudgeFactor(cfg, p, q);
            ScalesBy(q.x - p.x, c.x, k) && ScalesBy(q.y - p.y, c.y, k)
  {
    DampedNormalScales(cfg, p, q);
  }

  /** The same, with the damped normal written out as `InvDistance` times
    * `Normal`. */
  lemma DampedNormalScales(cfg: Config, p: Particle, q: Particle)
    requires IsSqrt(cfg.sqrt)
    requires 0.0 < Separation2(p, q)
    ensures var n, inv, k := Normal(cfg, p, q), InvDistance(cfg, p, q), NudgeFactor(cfg, p, q);
            ScalesBy(q.x - p.x, inv * n.x, k) && ScalesBy(q.y - p.y, inv * n.y, k)
  {
    NormalUnfolds(cfg, p, q);
    assert 0.0 < Distance(cfg, p, q);
    NudgeFactorAlgebra(cfg.cellSize, Distance(cfg, p, q), q.x - p.x);
    NudgeFactorAlgebra(cfg.cellSize, Distance(cfg, p, q), q.y - p.y);
  }

  lemma FactorInUnitInterval(cfg: Config, p: Particle, q: Particle)
    requires IsSqrt(cfg.sqrt)
    requires 0.0 < cfg.cellSize <= Distance(cfg, p, q)
    ensures Separation2(p, q) != 0.0
    ensures 0.0 < NudgeFactor(cfg, p, q) <= 1.0
  {
    var c, d := cfg.cellSize, Distance(cfg, p, q);
    var m := 100.0 * d * (d + 0.1);
    assert 0.0 < m;
    assert d < m by {
      assert m == 100.0 * d * d + 10.0 * d;
      assert 0.0 < d * d;
    }
    assert (c - d) / m <= 0.0;
    assert -1.0 < (c - d) / m by {
      assert d - c < m;
      assert (d - c) / m < 1.0;
    }
  }

  lemma NudgeFactorAlgebra(c: real, d: real, xd: real)
    requires 0.0 < d
    ensures xd + 2.0 * ((1.0 / (100.0 * (d + 0.1))) * (0.5 * (c - d) * xd / d))
         == (1.0 + (c - d) / (100.0 * d * (d + 0.1))) * xd
  {
    var e := 100.0 * (d + 0.1);
    assert 0.0 < e;
    calc {
      xd + 2.0 * ((1.0 / e) * (0.5 * (c - d) * xd / d));
      xd + (c - d) * xd / (d * e);
      { assert d * e == 100.0 * d * (d + 0.1); }
      xd + (c - d) * xd / (100.0 * d * (d + 0.1));
      (1.0 + (c - d) / (100.0 * d * (d + 0.1))) * xd;
    }
  }

  lemma ShrunkSeparation(k: real, xd: real, yd: real)
    requires 0.0 < k <= 1.0
    ensures (k * xd) * (k * xd) + (k * yd) * (k * yd) <= xd * xd + yd * yd
  {
    assert (k * xd) * (k * xd) + (k * yd) * (k * yd) == (k * k) * (xd * xd + yd * yd);
    assert k * k <= k * 1.0;
    var sq := xd * xd + yd * yd;
    assert 0.0 <= sq;
    assert 0.0 <= 1.0 - k * k;
    MulNonNegative(1.0 - k * k, sq);
  }

  lemma MulNonNegative(a: real, b: real)
    requires 0.0 <= a && 0.0 <= b
    ensures 0.0 <= a * b
  {
  }

  lemma RootMonotone(a: real, b: real)
    requires 0.0 <= a && 0.0 <= b && a * a <= b * b
    ensures a <= b
  {
    if b < a {
      MulNonNegative(b, a - b);
      assert false;
    }
  }
}
