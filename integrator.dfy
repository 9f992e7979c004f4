/** The per-particle Verlet update of one sub-step (worker.js:128-176):
  * implied velocity, gravity, reflection off the four walls, attraction
  * towards the pointer, then the damping blend.
  */
module Integrator {
  import opened Particles

  /** The inputs of one `runPhysics` call.  `lerpFactor` stands for
    * `Math.pow(0.999, stepTime / 0.002)` and `pull(dx, dy, deltaTime)` for
    * the displacement the attraction force law gives a particle at offset
    * `(dx, dy)` from the pointer. */
  datatype Frame = Frame(
    deltaTime: real,
    mouseX: real,
    mouseY: real,
    mouseDown: bool,
    width: real,
    height: real,
    lerpFactor: real,
    pull: (real, real, real) -> Vec)

  /** Sub-steps per call (worker.js:78). */
  const Steps: nat := 4

  /** Squared radius of the pointer's reach (worker.js:160). */
  const ReachSquared: real := 40000.0

  /** Length of one sub-step (worker.js:79). */
  function StepTime(f: Frame): real {
    f.deltaTime / Steps as real
  }

  /** The four sub-steps together cover the frame's `deltaTime`. */
  lemma StepTimesCover(f: Frame)
    ensures Steps as real * StepTime(f) == f.deltaTime
  {
  }

  /** Displacement gravity adds in one sub-step (worker.js:80). */
  function GravMult(cfg: Config, f: Frame): real {
    0.5 * cfg.gravity * StepTime(f) * StepTime(f)
  }

  /** With gravity pointing down (towards larger Y), one sub-step's
    * gravity displacement is non-negative. */
  lemma GravMultNonNegative(cfg: Config, f: Frame)
    requires 0.0 <= cfg.gravity
    ensures 0.0 <= GravMult(cfg, f)
  {
    var s := StepTime(f);
    assert 0.0 <= s * s;
    assert GravMult(cfg, f) == 0.5 * cfg.gravity * (s * s);
  }

  /** One axis of the boundary response (worker.js:143-154): `v` is the
    * tentative coordinate, `d` the implied velocity along the axis and the
    * particle must keep its centre `r` away from `0` and `extent`.  Past
    * the near wall the velocity is reflected and scaled by `restitution`;
    * past the far wall likewise, mirrored.  This is the intended response;
    * the worker's is `ReflectedAsWritten`. */
  function Reflected(r: real, restitution: real, extent: real, v: real, d: real): real {
    var low := if v - r <= 0.0 then r - d * restitution else v;
    if low + r >= extent then extent - r - d * restitution else low
  }

  /** The boundary response as worker.js:146-148 and 152-154 write the far
    * wall: `extent - r + d * restitution`, the near wall's formula without
    * the sign flip. */
  function ReflectedAsWritten(r: real, restitution: real, extent: real, v: real, d: real): real {
    var low := if v - r <= 0.0 then r - d * restitution else v;
    if low + r >= extent then extent - r + d * restitution else low
  }

  /** The worker's response differs from the intended one only by the sign
    * of the far-wall term: they agree, or the worker's is `2 d restitution`
    * further along the axis. */
  lemma ReflectedAsWrittenDiffers(r: real, restitution: real, extent: real, v: real, d: real)
    ensures var w, c := ReflectedAsWritten(r, restitution, extent, v, d), Reflected(r, restitution, extent, v, d);
            w == c || w == c + 2.0 * d * restitution
  {
  }

  /** A coordinate clear of both walls is left as it is, by the intended and
    * by the worker's response alike. */
  lemma ReflectedClear(r: real, restitution: real, extent: real, v: real, d: real)
    requires r < v && v + r < extent
    ensures Reflected(r, restitution, extent, v, d) == v
    ensures ReflectedAsWritten(r, restitution, extent, v, d) == v
  {
  }

  /** A particle moving into a wall (and not so fast that its reflection
    * crosses the whole plane) ends up inside `[r, extent - r]`. */
  lemma ReflectedInside(r: real, restitution: real, extent: real, v: real, d: real)
    requires 0.0 <= restitution
    requires -(extent - 2.0 * r) < d * restitution < extent - 2.0 * r
    requires v - r <= 0.0 ==> d <= 0.0
    requires v + r >= extent ==> 0.0 <= d
    ensures r <= Reflected(r, restitution, extent, v, d) <= extent - r
  {
    if v - r <= 0.0 {
      MulSign(d, restitution);
    } else if v + r >= extent {
      MulSign(-d, restitution);
    }
  }

  lemma MulSign(a: real, b: real)
    requires a <= 0.0 <= b
    ensures a * b <= 0.0
  {
  }

  /** As written, a particle moving into the far wall at any speed is put
    * beyond `extent - r` by `d * restitution`, while the corrected response
    * keeps it inside. */
  lemma FarWallAsWrittenEscapes(r: real, restitution: real, extent: real, v: real, d: real)
    requires 0.0 < restitution && 0.0 < d && d * restitution < extent - 2.0 * r
    requires r < v && extent <= v + r
    ensures ReflectedAsWritten(r, restitution, extent, v, d) > extent - r
    ensures Reflected(r, restitution, extent, v, d) <= extent - r
  {
    ReflectedInside(r, restitution, extent, v, d);
  }

  /** A particle moving right at speed 1 reaches the right wall of a plane
    * 10 wide: as written it lands at 9.5, past the limit 9; corrected, at 8.5. */
  lemma FarWallExample()
    ensures ReflectedAsWritten(1.0, 0.5, 10.0, 9.5, 1.0) == 9.5
    ensures Reflected(1.0, 0.5, 10.0, 9.5, 1.0) == 8.5
  {
  }

  /** The pointer's displacement of a particle (worker.js:156-168): only
    * while the pointer is down and the particle within its reach, measured
    * from the current position. */
  function Attraction(f: Frame, p: Particle): (a: Vec)
    ensures !f.mouseDown ==> a == Vec(0.0, 0.0)
    ensures (f.mouseX - p.x) * (f.mouseX - p.x) + (f.mouseY - p.y) * (f.mouseY - p.y) >= ReachSquared ==> a == Vec(0.0, 0.0)
  {
    var dx, dy := f.mouseX - p.x, f.mouseY - p.y;
    if f.mouseDown && dx * dx + dy * dy < ReachSquared then f.pull(dx, dy, f.deltaTime) else Vec(0.0, 0.0)
  }

  /** The Verlet step with gravity, before the walls (worker.js:138-141). */
  function Tentative(cfg: Config, f: Frame, p: Particle): Vec {
    Vec(p.x + (p.x - p.oldX), p.y + (p.y - p.oldY) + GravMult(cfg, f))
  }

  /** `newX`, `newY` before damping: the Verlet step with gravity, the walls
    * as worker.js:143-154 write them, then attraction (worker.js:138-168). */
  function Target(cfg: Config, f: Frame, p: Particle): Vec {
    var t, a := Tentative(cfg, f, p), Attraction(f, p);
    Vec(ReflectedAsWritten(cfg.sphereRadius, cfg.restitution, f.width, t.x, p.x - p.oldX) + a.x,
        ReflectedAsWritten(cfg.sphereRadius, cfg.restitution, f.height, t.y, p.y - p.oldY) + a.y)
  }

  /** The same with the far walls reflecting the velocity as the near walls
    * do: the intended target. */
  function TargetCorrected(cfg: Config, f: Frame, p: Particle): Vec {
    var t, a := Tentative(cfg, f, p), Attraction(f, p);
    Vec(Reflected(cfg.sphereRadius, cfg.restitution, f.width, t.x, p.x - p.oldX) + a.x,
        Reflected(cfg.sphereRadius, cfg.restitution, f.height, t.y, p.y - p.oldY) + a.y)
  }

  /** With the pointer up, a particle whose step keeps clear of all four
    * walls heads for the Verlet step itself, in the worker's target and
    * the intended one alike. */
  lemma TargetClearOfWalls(cfg: Config, f: Frame, p: Particle)
    requires !f.mouseDown
    requires var r, v := cfg.sphereRadius, Tentative(cfg, f, p);
             r < v.x && v.x + r < f.width && r < v.y && v.y + r < f.height
    ensures Target(cfg, f, p) == Tentative(cfg, f, p)
    ensures TargetCorrected(cfg, f, p) == Tentative(cfg, f, p)
  {
    var r, v := cfg.sphereRadius, Tentative(cfg, f, p);
    assert Attraction(f, p) == Vec(0.0, 0.0);
    ReflectedClear(r, cfg.restitution, f.width, v.x, p.x - p.oldX);
    ReflectedClear(r, cfg.restitution, f.height, v.y, p.y - p.oldY);
  }

  /** The damping blend of worker.js:172-173. */
  function Blend(lerpFactor: real, target: real, current: real): real {
    target * lerpFactor + current * (1.0 - lerpFactor)
  }

  /** The blend is the target at factor 1 and the current coordinate at 0. */
  lemma BlendEndpoints(target: real, current: real)
    ensures Blend(1.0, target, current) == target
    ensures Blend(0.0, target, current) == current
  {
  }

  /** With a factor in `[0, 1]` the blend lies between the current and the
    * target coordinate. */
  lemma BlendBetween(lerpFactor: real, target: real, current: real)
    requires 0.0 <= lerpFactor <= 1.0
    ensures current <= target ==> current <= Blend(lerpFactor, target, current) <= target
    ensures target <= current ==> target <= Blend(lerpFactor, target, current) <= current
  {
    assert Blend(lerpFactor, target, current) == current + lerpFactor * (target - current);
    if current <= target {
      MulBetween(lerpFactor, target - current);
    } else {
      MulBetween(lerpFactor, current - target);
    }
  }

  lemma MulBetween(l: real, x: real)
    requires 0.0 <= l <= 1.0 && 0.0 <= x
    ensures 0.0 <= l * x <= x
  {
  }

  /** Particle `p` moved towards target `t`: the previous position becomes
    * the old position and the new position is the damped target
    * (worker.js:170-175). */
  function Settled(f: Frame, p: Particle, t: Vec): Particle {
    Particle(Blend(f.lerpFactor, t.x, p.x), Blend(f.lerpFactor, t.y, p.y), p.x, p.y)
  }

  /** A particle after one sub-step's update, as the worker computes it. */
  function Integrated(cfg: Config, f: Frame, p: Particle): (q: Particle)
    ensures q.oldX == p.x && q.oldY == p.y
  {
    Settled(f, p, Target(cfg, f, p))
  }

  /** The update with the corrected far walls. */
  function IntegratedCorrected(cfg: Config, f: Frame, p: Particle): (q: Particle)
    ensures q.oldX == p.x && q.oldY == p.y
  {
    Settled(f, p, TargetCorrected(cfg, f, p))
  }

  /** With `lerpFactor` in `[0, 1]` the settled position lies, coordinate by
    * coordinate, between the pre-step position and the target. */
  lemma SettledBetween(f: Frame, p: Particle, t: Vec)
    requires 0.0 <= f.lerpFactor <= 1.0
    ensures var q := Settled(f, p, t);
            (p.x <= t.x ==> p.x <= q.x <= t.x) && (t.x <= p.x ==> t.x <= q.x <= p.x) &&
            (p.y <= t.y ==> p.y <= q.y <= t.y) && (t.y <= p.y ==> t.y <= q.y <= p.y)
  {
    BlendBetween(f.lerpFactor, t.x, p.x);
    BlendBetween(f.lerpFactor, t.y, p.y);
  }

  /** The same for the worker's update. */
  lemma IntegratedBetween(cfg: Config, f: Frame, p: Particle)
    requires 0.0 <= f.lerpFactor <= 1.0
    ensures var q, t := Integrated(cfg, f, p), Target(cfg, f, p);
            (p.x <= t.x ==> p.x <= q.x <= t.x) && (t.x <= p.x ==> t.x <= q.x <= p.x) &&
            (p.y <= t.y ==> p.y <= q.y <= t.y) && (t.y <= p.y ==> t.y <= q.y <= p.y)
  {
    SettledBetween(f, p, Target(cfg, f, p));
  }

  ghost predicate Inside(cfg: Config, f: Frame, p: Particle) {
    cfg.sphereRadius <= p.x <= f.width - cfg.sphereRadius &&
    cfg.sphereRadius <= p.y <= f.height - cfg.sphereRadius
  }

  /** Along one axis, the tentative coordinate `v` crosses a wall only when
    * the implied velocity `d` does not point into the far wall. */
  ghost predicate AwayFromFarWall(r: real, extent: real, v: real, d: real) {
    (v - r <= 0.0 ==> d <= 0.0) && (v + r >= extent ==> d <= 0.0)
  }

  /** As written, the walls keep a particle inside `[r, extent - r]` when it
    * is not moving into the far wall and its reflection off the far wall
    * does not cross the whole plane. */
  lemma ReflectedAsWrittenInside(r: real, restitution: real, extent: real, v: real, d: real)
    requires 0.0 <= restitution && -(extent - 2.0 * r) <= d * restitution
    requires AwayFromFarWall(r, extent, v, d)
    ensures r <= ReflectedAsWritten(r, restitution, extent, v, d) <= extent - r
  {
    if v - r <= 0.0 || v + r >= extent {
      MulSign(d, restitution);
    }
  }

  /** The worker's horizontal target of a particle not moving into the right
    * wall stays inside the plane, with the pointer up ... */
  lemma TargetXInside(cfg: Config, f: Frame, p: Particle)
    requires !f.mouseDown && 0.0 <= cfg.restitution
    requires -(f.width - 2.0 * cfg.sphereRadius) <= (p.x - p.oldX) * cfg.restitution
    requires AwayFromFarWall(cfg.sphereRadius, f.width, Tentative(cfg, f, p).x, p.x - p.oldX)
    ensures cfg.sphereRadius <= Target(cfg, f, p).x <= f.width - cfg.sphereRadius
  {
    ReflectedAsWrittenInside(cfg.sphereRadius, cfg.restitution, f.width, Tentative(cfg, f, p).x, p.x - p.oldX);
  }

  /** ... and so does the vertical target of one not falling into the floor. */
  lemma TargetYInside(cfg: Config, f: Frame, p: Particle)
    requires !f.mouseDown && 0.0 <= cfg.restitution
    requires -(f.height - 2.0 * cfg.sphereRadius) <= (p.y - p.oldY) * cfg.restitution
    requires AwayFromFarWall(cfg.sphereRadius, f.height, Tentative(cfg, f, p).y, p.y - p.oldY)
    ensures cfg.sphereRadius <= Target(cfg, f, p).y <= f.height - cfg.sphereRadius
  {
    ReflectedAsWrittenInside(cfg.sphereRadius, cfg.restitution, f.height, Tentative(cfg, f, p).y, p.y - p.oldY);
  }

  /** Boundary containment of the worker's update: with the pointer up and
    * `lerpFactor` in `[0, 1]`, a particle inside the plane stays inside
    * when, along each axis, its step crosses a wall only while it is not
    * moving into the far wall (at rest on the floor, say). */
  lemma IntegratedStaysInside(cfg: Config, f: Frame, p: Particle)
    requires !f.mouseDown && 0.0 <= f.lerpFactor <= 1.0 && 0.0 <= cfg.restitution
    requires Inside(cfg, f, p)
    requires -(f.width - 2.0 * cfg.sphereRadius) <= (p.x - p.oldX) * cfg.restitution
    requires -(f.height - 2.0 * cfg.sphereRadius) <= (p.y - p.oldY) * cfg.restitution
    requires AwayFromFarWall(cfg.sphereRadius, f.width, Tentative(cfg, f, p).x, p.x - p.oldX)
    requires AwayFromFarWall(cfg.sphereRadius, f.height, Tentative(cfg, f, p).y, p.y - p.oldY)
    ensures Inside(cfg, f, Integrated(cfg, f, p))
  {
    TargetXInside(cfg, f, p);
    TargetYInside(cfg, f, p);
    IntegratedBetween(cfg, f, p);
  }

  /** As written, a particle whose step crosses the right wall while moving
    * right ends `2 lerpFactor xDiff restitution` further right than the
    * corrected update puts it. */
  lemma IntegratedPastRightWall(cfg: Config, f: Frame, p: Particle)
    requires !f.mouseDown && 0.0 < f.lerpFactor && 0.0 < cfg.restitution
    requires var r, v := cfg.sphereRadius, Tentative(cfg, f, p).x;
             0.0 < p.x - p.oldX && r < v && f.width <= v + r
    ensures Integrated(cfg, f, p).x
         == IntegratedCorrected(cfg, f, p).x + 2.0 * f.lerpFactor * ((p.x - p.oldX) * cfg.restitution)
    ensures 0.0 < f.lerpFactor * ((p.x - p.oldX) * cfg.restitution)
  {
    var e := (p.x - p.oldX) * cfg.restitution;
    var t, c := Target(cfg, f, p), TargetCorrected(cfg, f, p);
    TargetPastRightWall(cfg, f, p);
    BlendShift(f.lerpFactor, c.x, p.x, e);
    MulPositive(f.lerpFactor, e);
    assert Integrated(cfg, f, p).x == Blend(f.lerpFactor, t.x, p.x);
    assert IntegratedCorrected(cfg, f, p).x == Blend(f.lerpFactor, c.x, p.x);
  }

  /** With `lerpFactor = 1` the worker's update of such a particle lies beyond the limit `width - sphereRadius`. */
  lemma IntegratedEscapesRightWall(cfg: Config, f: Frame, p: Particle)
    requires !f.mouseDown && f.lerpFactor == 1.0 && 0.0 < cfg.restitution
    requires var r, v := cfg.sphereRadius, Tentative(cfg, f, p).x;
             0.0 < p.x - p.oldX && r < v && f.width <= v + r
    ensures Integrated(cfg, f, p).x > f.width - cfg.sphereRadius
  {
    var t := Target(cfg, f, p);
    TargetPastRightWall(cfg, f, p);
    BlendEndpoints(t.x, p.x);
    assert Integrated(cfg, f, p).x == Blend(1.0, t.x, p.x);
  }

  /** ... and one whose step crosses the floor while falling ends below the
    * corrected position. */
  lemma IntegratedBelowFloor(cfg: Config, f: Frame, p: Particle)
    requires !f.mouseDown && 0.0 < f.lerpFactor && 0.0 < cfg.restitution
    requires var r, v := cfg.sphereRadius, Tentative(cfg, f, p).y;
             0.0 < p.y - p.oldY && r < v && f.height <= v + r
    ensures Integrated(cfg, f, p).y
         == IntegratedCorrected(cfg, f, p).y + 2.0 * f.lerpFactor * ((p.y - p.oldY) * cfg.restitution)
    ensures 0.0 < f.lerpFactor * ((p.y - p.oldY) * cfg.restitution)
  {
    var e := (p.y - p.oldY) * cfg.restitution;
    var t, c := Target(cfg, f, p), TargetCorrected(cfg, f, p);
    TargetBelowFloor(cfg, f, p);
    BlendShift(f.lerpFactor, c.y, p.y, e);
    MulPositive(f.lerpFactor, e);
    assert Integrated(cfg, f, p).y == Blend(f.lerpFactor, t.y, p.y);
    assert IntegratedCorrected(cfg, f, p).y == Blend(f.lerpFactor, c.y, p.y);
  }

  /** With `lerpFactor = 1` the worker's update of such a particle lies beyond the limit `height - sphereRadius`. */
  lemma IntegratedEscapesFloor(cfg: Config, f: Frame, p: Particle)
    requires !f.mouseDown && f.lerpFactor == 1.0 && 0.0 < cfg.restitution
    requires var r, v := cfg.sphereRadius, Tentative(cfg, f, p).y;
             0.0 < p.y - p.oldY && r < v && f.height <= v + r
    ensures Integrated(cfg, f, p).y > f.height - cfg.sphereRadius
  {
    var t := Target(cfg, f, p);
    TargetBelowFloor(cfg, f, p);
    BlendEndpoints(t.y, p.y);
    assert Integrated(cfg, f, p).y == Blend(1.0, t.y, p.y);
  }

  /** With the pointer up, a step that crosses the right wall while moving
    * right gives a worker's target `2 xDiff restitution` right of the
    * intended one, past the limit `width - r` ... */
  lemma TargetPastRightWall(cfg: Config, f: Frame, p: Particle)
    requires !f.mouseDown && 0.0 < cfg.restitution
    requires var r, v := cfg.sphereRadius, Tentative(cfg, f, p).x;
             0.0 < p.x - p.oldX && r < v && f.width <= v + r
    ensures var e := (p.x - p.oldX) * cfg.restitution;
            0.0 < e && Target(cfg, f, p).x == TargetCorrected(cfg, f, p).x + 2.0 * e &&
            Target(cfg, f, p).x > f.width - cfg.sphereRadius
  {
    var r, v, d := cfg.sphereRadius, Tentative(cfg, f, p).x, p.x - p.oldX;
    assert Attraction(f, p) == Vec(0.0, 0.0);
    assert Target(cfg, f, p).x == ReflectedAsWritten(r, cfg.restitution, f.width, v, d);
    assert TargetCorrected(cfg, f, p).x == Reflected(r, cfg.restitution, f.width, v, d);
    FarWallShift(r, cfg.restitution, f.width, v, d);
    MulPositive(d, cfg.restitution);
  }

  /** ... and a step that crosses the floor while falling one below the
    * intended target, past the limit `height - r`. */
  lemma TargetBelowFloor(cfg: Config, f: Frame, p: Particle)
    requires !f.mouseDown && 0.0 < cfg.restitution
    requires var r, v := cfg.sphereRadius, Tentative(cfg, f, p).y;
             0.0 < p.y - p.oldY && r < v && f.height <= v + r
    ensures var e := (p.y - p.oldY) * cfg.restitution;
            0.0 < e && Target(cfg, f, p).y == TargetCorrected(cfg, f, p).y + 2.0 * e &&
            Target(cfg, f, p).y > f.height - cfg.sphereRadius
  {
    var r, v, d := cfg.sphereRadius, Tentative(cfg, f, p).y, p.y - p.oldY;
    assert Attraction(f, p) == Vec(0.0, 0.0);
    assert Target(cfg, f, p).y == ReflectedAsWritten(r, cfg.restitution, f.height, v, d);
    assert TargetCorrected(cfg, f, p).y == Reflected(r, cfg.restitution, f.height, v, d);
    FarWallShift(r, cfg.restitution, f.height, v, d);
    MulPositive(d, cfg.restitution);
  }

  /** Past the far wall and clear of the near one, the worker's response is
    * `extent - r + d * restitution`, `2 d restitution` beyond the intended
    * one. */
  lemma FarWallShift(r: real, restitution: real, extent: real, v: real, d: real)
    requires r < v && extent <= v + r
    ensures ReflectedAsWritten(r, restitution, extent, v, d) == extent - r + d * restitution
    ensures ReflectedAsWritten(r, restitution, extent, v, d) == Reflected(r, restitution, extent, v, d) + 2.0 * (d * restitution)
  {
  }

  /** Moving the target by `2 e` moves the blend by `2 lerpFactor e`. */
  lemma BlendShift(lerpFactor: real, target: real, current: real, e: real)
    ensures Blend(lerpFactor, target + 2.0 * e, current) == Blend(lerpFactor, target, current) + 2.0 * lerpFactor * e
  {
  }

  lemma MulPositive(a: real, b: real)
    requires 0.0 < a && 0.0 < b
    ensures 0.0 < a * b
  {
  }

  /** A particle at `x = 8.5` moving right at speed 1 in a plane 10 wide,
    * radius 1, restitution 0.5: the worker's update puts it at 9.5, past
    * the limit 9; the corrected update at 8.5.  The update takes no square
    * root, so the configuration's `sqrt` is an unused placeholder (the
    * identity, which is not a square root). */
  lemma IntegratedFarWallExample()
    ensures var cfg := Config(1, 1, 1, 4, 1.0, 2.0, 4.0, 0.5, 0.0, 0.5, v => v);
            var f := Frame(1.0, 0.0, 0.0, false, 10.0, 10.0, 1.0, (dx, dy, t) => Vec(0.0, 0.0));
            var p := Particle(8.5, 5.0, 7.5, 5.0);
            Inside(cfg, f, p) && Integrated(cfg, f, p).x == 9.5 && IntegratedCorrected(cfg, f, p).x == 8.5
  {
  }

  /** The corrected horizontal target stays inside the plane for a particle
    * inside it, with the pointer up, under the speed bound ... */
  lemma TargetCorrectedXInside(cfg: Config, f: Frame, p: Particle)
    requires !f.mouseDown && 0.0 <= cfg.restitution
    requires cfg.sphereRadius <= p.x <= f.width - cfg.sphereRadius
    requires var r, d := cfg.sphereRadius, (p.x - p.oldX) * cfg.restitution;
             -(f.width - 2.0 * r) < d < f.width - 2.0 * r
    ensures cfg.sphereRadius <= TargetCorrected(cfg, f, p).x <= f.width - cfg.sphereRadius
  {
    ReflectedInside(cfg.sphereRadius, cfg.restitution, f.width, Tentative(cfg, f, p).x, p.x - p.oldX);
  }

  /** ... and so does the corrected vertical target of a particle moving
    * into any wall its gravity-shifted step crosses. */
  lemma TargetCorrectedYInside(cfg: Config, f: Frame, p: Particle)
    requires !f.mouseDown && 0.0 <= cfg.restitution
    requires var r, d := cfg.sphereRadius, (p.y - p.oldY) * cfg.restitution;
             -(f.height - 2.0 * r) < d < f.height - 2.0 * r
    requires var r, yDiff, v := cfg.sphereRadius, p.y - p.oldY, Tentative(cfg, f, p).y;
             (v - r <= 0.0 ==> yDiff <= 0.0) && (v + r >= f.height ==> 0.0 <= yDiff)
    ensures cfg.sphereRadius <= TargetCorrected(cfg, f, p).y <= f.height - cfg.sphereRadius
  {
    ReflectedInside(cfg.sphereRadius, cfg.restitution, f.height, Tentative(cfg, f, p).y, p.y - p.oldY);
  }

  /** With the far walls corrected, containment holds for every particle
    * moving into the walls it crosses: with the pointer up and `lerpFactor`
    * in `[0, 1]`, a particle inside the plane stays inside, provided its
    * reflected speed is below the plane's free width. */
  lemma IntegratedCorrectedStaysInside(cfg: Config, f: Frame, p: Particle)
    requires !f.mouseDown && 0.0 <= f.lerpFactor <= 1.0 && 0.0 <= cfg.restitution
    requires Inside(cfg, f, p)
    requires var r, d := cfg.sphereRadius, (p.x - p.oldX) * cfg.restitution;
             -(f.width - 2.0 * r) < d < f.width - 2.0 * r
    requires var r, d := cfg.sphereRadius, (p.y - p.oldY) * cfg.restitution;
             -(f.height - 2.0 * r) < d < f.height - 2.0 * r
    requires var r, yDiff, v := cfg.sphereRadius, p.y - p.oldY, Tentative(cfg, f, p).y;
             (v - r <= 0.0 ==> yDiff <= 0.0) && (v + r >= f.height ==> 0.0 <= yDiff)
    ensures Inside(cfg, f, IntegratedCorrected(cfg, f, p))
  {
    TargetCorrectedXInside(cfg, f, p);
    TargetCorrectedYInside(cfg, f, p);
    SettledBetween(f, p, TargetCorrected(cfg, f, p));
  }

  /** The attraction is added after the walls, so with the pointer down a
    * particle at rest against the right wall can be pulled out of the plane.
    * As above, `sqrt` is an unused placeholder. */
  lemma AttractionCanLeavePlane()
    ensures var cfg := Config(1, 1, 1, 4, 1.0, 2.0, 4.0, 0.5, 0.0, 0.5, v => v);
            var f := Frame(1.0, 12.0, 5.0, true, 10.0, 10.0, 1.0, (dx, dy, t) => Vec(0.5, 0.0));
            var p := Particle(9.0, 5.0, 9.0, 5.0);
            Inside(cfg, f, p) && !Inside(cfg, f, Integrated(cfg, f, p))
  {
  }
}
