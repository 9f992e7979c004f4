/** The particle buffer and the worker's configuration.
  *
  * The worker keeps every particle in one flat array of reals, four per
  * particle: X at offset 0, Y at 1, OLD_X at 2 and OLD_Y at 3.  The model
  * reads that array through `View`, which turns it into a sequence of
  * `Particle` values; the operations are specified on that view.
  */
module Particles {

  /** `None` stands for a state the worker would fill with NaN. */
  datatype Option<T> = None | Some(value: T)

  /** One particle: current position and the position one sub-step ago. */
  datatype Particle = Particle(x: real, y: real, oldX: real, oldY: real)

  datatype Vec = Vec(x: real, y: real)

  /** What the worker receives once at start-up.  `sqrt` stands for the
    * host's `Math.sqrt`, of which the model knows only `IsSqrt`. */
  datatype Config = Config(
    numSpheres: nat,
    gridWidth: nat,
    gridHeight: nat,
    maxParticlesPerCell: nat,
    sphereRadius: real,
    cellSize: real,
    sumOfRadiiSquared: real,
    invCellSize: real,
    gravity: real,
    restitution: real,
    sqrt: real -> real)

  /** `sqrt` returns the non-negative square root of every non-negative real. */
  ghost predicate IsSqrt(sqrt: real -> real) {
    forall v :: 0.0 <= v ==> 0.0 <= sqrt(v) && sqrt(v) * sqrt(v) == v
  }

  /** Number of grid cells. */
  function NumCells(cfg: Config): nat {
    cfg.gridWidth * cfg.gridHeight
  }

  /** Particle `i` of the flat buffer `s`. */
  function ParticleAt(s: seq<real>, i: nat): Particle
    requires 4 * i + 3 < |s|
  {
    Particle(s[4 * i], s[4 * i + 1], s[4 * i + 2], s[4 * i + 3])
  }

  /** The flat buffer read as particles. */
  function View(s: seq<real>): (ps: seq<Particle>)
    ensures |ps| == |s| / 4
    ensures forall i :: 0 <= i < |ps| ==> ps[i] == ParticleAt(s, i)
  {
    seq(|s| / 4, i requires 0 <= i < |s| / 4 => ParticleAt(s, i))
  }

  /** Writing the X and Y slots of particle `i` changes only that
    * particle's current position in the view. */
  lemma ViewSetPosition(s: seq<real>, i: nat, x: real, y: real)
    requires 4 * i + 3 < |s|
    ensures View(s[4 * i := x][4 * i + 1 := y])
         == View(s)[i := View(s)[i].(x := x, y := y)]
  {
    var t := s[4 * i := x][4 * i + 1 := y];
    var u := View(s)[i := View(s)[i].(x := x, y := y)];
    assert |View(t)| == |u|;
    forall k | 0 <= k < |u| ensures View(t)[k] == u[k] {
      if k != i {
        assert ParticleAt(t, k) == ParticleAt(s, k);
      }
    }
  }

  /** Writing all four slots of particle `i`, OLD fields first as the
    * integration step does, replaces that particle in the view. */
  lemma ViewSetParticle(s: seq<real>, i: nat, p: Particle)
    requires 4 * i + 3 < |s|
    ensures View(s[4 * i + 2 := p.oldX][4 * i + 3 := p.oldY][4 * i := p.x][4 * i + 1 := p.y])
         == View(s)[i := p]
  {
    var t := s[4 * i + 2 := p.oldX][4 * i + 3 := p.oldY][4 * i := p.x][4 * i + 1 := p.y];
    var u := View(s)[i := p];
    assert |View(t)| == |u|;
    forall k | 0 <= k < |u| ensures View(t)[k] == u[k] {
      if k != i {
        assert ParticleAt(t, k) == ParticleAt(s, k);
      }
    }
  }
}
