/** The pure half of `src/scenes2.ts`: the number helpers `lerp`, `appr`,
    `collide_rect` and `vec3_lerp`, and the two kinds of lerpable value the
    scene registers, `Life` (a clock per node) and `Rigid` (a damped
    position). */
module Lerpables {
  import opened Common
  import opened Time

  /** `lerp(a, b, t)`. */
  function Lerp(a: real, b: real, t: real): (r: real)
    ensures t == 0.0 ==> r == a
    ensures t == 1.0 ==> r == b
    ensures r - a == t * (b - a)
  {
    (1.0 - t) * a + t * b
  }

  /** Between the ends, `lerp` stays between the ends. */
  lemma LerpBetween(a: real, b: real, t: real)
    requires a <= b && 0.0 <= t <= 1.0
    ensures a <= Lerp(a, b, t) <= b
  {
    ProductNonNegative(t, b - a);
    ProductNonNegative(1.0 - t, b - a);
    assert (1.0 - t) * (b - a) == (b - a) - t * (b - a);
  }

  lemma ProductNonNegative(x: real, y: real)
    requires x >= 0.0 && y >= 0.0
    ensures x * y >= 0.0
  {
  }

  function Min(x: real, y: real): real { if x <= y then x else y }

  function Max(x: real, y: real): real { if x >= y then x else y }

  function Abs(x: real): real { if x < 0.0 then -x else x }

  /** `appr(v, t, by)`: move `v` towards the target `t` by `step`, stopping at
      the target. */
  function Appr(v: real, t: real, step: real): (r: real)
    ensures step >= 0.0 ==> Abs(r - v) <= step
    ensures step >= 0.0 ==> Abs(r - t) <= Abs(v - t)
    ensures step >= 0.0 ==> (v <= t ==> v <= r <= t) && (t <= v ==> t <= r <= v)
    ensures step >= 0.0 ==> r == t || Abs(r - v) == step
  {
    if v < t then Min(v + step, t)
    else if v > t then Max(v - step, t)
    else v
  }

  /** `appr` applied `n` times. */
  function ApprN(v: real, t: real, step: real, n: nat): real
    decreases n
  {
    if n == 0 then v else ApprN(Appr(v, t, step), t, step, n - 1)
  }

  /** With a positive step, `n` applications reach the target as soon as
      `n` steps cover the distance, and stay there. */
  lemma {:induction false} ApprNReaches(v: real, t: real, step: real, n: nat)
    requires step > 0.0 && n as real * step >= Abs(v - t)
    decreases n
    ensures ApprN(v, t, step, n) == t
  {
    if n > 0 {
      var w := Appr(v, t, step);
      assert Abs(w - t) <= Max(Abs(v - t) - step, 0.0);
      assert (n - 1) as real * step >= Abs(w - t);
      ApprNReaches(w, t, step, n - 1);
    }
  }

  /** The rectangle shape `collide_rect` reads. */
  datatype Xywh = Xywh(x: real, y: real, w: real, h: real)

  /** `collide_rect(a, b)`: the open rectangles overlap. */
  predicate CollideRect(a: Xywh, b: Xywh)
  {
    a.x < b.x + b.w && a.x + a.w > b.x && a.y < b.y + b.h && a.y + a.h > b.y
  }

  /** The point `(px, py)` lies strictly inside `r`. */
  predicate Inside(r: Xywh, px: real, py: real)
  {
    r.x < px < r.x + r.w && r.y < py < r.y + r.h
  }

  /** The test is symmetric, and for rectangles of positive size it says
      exactly that some point lies inside both. */
  lemma CollideRectMeansSharedPoint(a: Xywh, b: Xywh)
    requires a.w > 0.0 && a.h > 0.0 && b.w > 0.0 && b.h > 0.0
    ensures CollideRect(a, b) <==> CollideRect(b, a)
    ensures CollideRect(a, b) <==> exists px, py :: Inside(a, px, py) && Inside(b, px, py)
  {
    if CollideRect(a, b) {
      var px := (Max(a.x, b.x) + Min(a.x + a.w, b.x + b.w)) / 2.0;
      var py := (Max(a.y, b.y) + Min(a.y + a.h, b.y + b.h)) / 2.0;
      assert Inside(a, px, py) && Inside(b, px, py);
    }
  }

  /** `vec3_lerp(a, b, t)`: `lerp` on each component. */
  function Vec3Lerp(a: Vec3, b: Vec3, t: real): (r: Vec3)
    ensures r == Vec3(Lerp(a.x, b.x, t), Lerp(a.y, b.y, t), Lerp(a.z, b.z, t))
    ensures t == 0.0 ==> r == a
    ensures t == 1.0 ==> r == b
  {
    Vec3(b.x * t + a.x * (1.0 - t), b.y * t + a.y * (1.0 - t), b.z * t + a.z * (1.0 - t))
  }

  // ------------------------------------------------------------ lerpables

  /** The two classes implementing `Lerpable`. */
  datatype Lerpable =
    | Life(life: Vec3)
    | Rigid(position: Vec3, dposition: Vec3, ddposition: Vec3)

  /** The `value` getter. */
  function Value(l: Lerpable): Vec3
  {
    match l
    case Life(life) => life
    case Rigid(position, _, _) => position
  }

  /** `Rigid(position)`: the other two vectors default to zero. */
  function RigidAt(position: Vec3): Lerpable
  {
    Rigid(position, Zero3, Zero3)
  }

  /** The per-tick velocity damping and the per-tick pull of the
      acceleration towards zero (`Time.dt * 20`). */
  const Damping: real := 0.8
  const AccelDecay: real := Dt * 20.0

  /** `integrate()`: a `Life` counts time on all three components; a `Rigid`
      moves by its velocity and acceleration, its acceleration decays towards
      zero, and its velocity is damped and pushed by the mean acceleration. */
  function Integrate(l: Lerpable): (r: Lerpable)
    ensures r.Life? == l.Life?
    ensures l.Life? ==> r.life == Vec3(l.life.x + Dt, l.life.y + Dt, l.life.z + Dt)
    ensures l.Rigid? ==>
              r.position ==
              Vec3(l.position.x + l.dposition.x * Dt + l.ddposition.x * (Dt * Dt * 0.5),
                   l.position.y + l.dposition.y * Dt + l.ddposition.y * (Dt * Dt * 0.5),
                   l.position.z + l.dposition.z * Dt + l.ddposition.z * (Dt * Dt * 0.5))
    ensures l.Rigid? ==>
              Abs(r.ddposition.x) <= Abs(l.ddposition.x) && Abs(r.ddposition.x - l.ddposition.x) <= AccelDecay &&
              Abs(r.ddposition.y) <= Abs(l.ddposition.y) && Abs(r.ddposition.y - l.ddposition.y) <= AccelDecay &&
              Abs(r.ddposition.z) <= Abs(l.ddposition.z) && Abs(r.ddposition.z - l.ddposition.z) <= AccelDecay
    ensures l.Rigid? ==>
              r.dposition ==
              Vec3(l.dposition.x * Damping + (l.ddposition.x + r.ddposition.x) * (Dt * 0.5),
                   l.dposition.y * Damping + (l.ddposition.y + r.ddposition.y) * (Dt * 0.5),
                   l.dposition.z * Damping + (l.ddposition.z + r.ddposition.z) * (Dt * 0.5))
  {
    match l
    case Life(life) => Life(Vec3(life.x + Dt, life.y + Dt, life.z + Dt))
    case Rigid(p, d, dd) =>
      var dd' := Vec3(Appr(dd.x, 0.0, AccelDecay), Appr(dd.y, 0.0, AccelDecay), Appr(dd.z, 0.0, AccelDecay));
      Rigid(Vec3(p.x + d.x * Dt + dd.x * (Dt * Dt * 0.5),
                 p.y + d.y * Dt + dd.y * (Dt * Dt * 0.5),
                 p.z + d.z * Dt + dd.z * (Dt * Dt * 0.5)),
            Vec3(d.x * Damping + (dd.x + dd'.x) * (Dt * 0.5),
                 d.y * Damping + (dd.y + dd'.y) * (Dt * 0.5),
                 d.z * Damping + (dd.z + dd'.z) * (Dt * 0.5)),
            dd')
  }

  predicate SameKind(l: Lerpable, m: Lerpable) { l.Life? == m.Life? }

  /** `lerp(next, alpha)`: each vector blended with `vec3_lerp`. Both
      classes read the fields of their own kind from `next`. */
  function LerpState(l: Lerpable, next: Lerpable, alpha: real): (r: Lerpable)
    requires SameKind(l, next)
    ensures SameKind(r, l)
    ensures Value(r) == Vec3Lerp(Value(l), Value(next), alpha)
  {
    match l
    case Life(life) => Life(Vec3Lerp(life, next.life, alpha))
    case Rigid(p, d, dd) =>
      Rigid(Vec3Lerp(p, next.position, alpha), Vec3Lerp(d, next.dposition, alpha),
            Vec3Lerp(dd, next.ddposition, alpha))
  }

  /** Blending a lerpable with its next state gives the state itself at
      `alpha = 0` and the next state at `alpha = 1`. */
  lemma BlendEnds(l: Lerpable)
    ensures LerpState(l, Integrate(l), 0.0) == l
    ensures LerpState(l, Integrate(l), 1.0) == Integrate(l)
  {
  }

  /** `n` ticks of one lerpable. */
  function IntegrateN(l: Lerpable, n: nat): (r: Lerpable)
    ensures r.Life? == l.Life?
  {
    if n == 0 then l else Integrate(IntegrateN(l, n - 1))
  }

  /** A `Life` gains `n * dt` on each component after `n` ticks. */
  lemma {:induction false} LifeCountsTicks(v: Vec3, n: nat)
    ensures IntegrateN(Life(v), n) ==
            Life(Vec3(v.x + n as real * Dt, v.y + n as real * Dt, v.z + n as real * Dt))
  {
    if n > 0 {
      LifeCountsTicks(v, n - 1);
    }
  }

  /** A `Rigid` at rest (`new Rigid(position)`) never moves. */
  lemma {:induction false} RestingRigidStays(position: Vec3, n: nat)
    ensures IntegrateN(RigidAt(position), n) == RigidAt(position)
  {
    if n > 0 {
      RestingRigidStays(position, n - 1);
    }
  }

  /** The acceleration of a `Rigid` has died away once `n` ticks of decay
      cover each of its components. */
  lemma {:induction false} AccelerationDiesAway(l: Lerpable, n: nat)
    requires l.Rigid?
    requires n as real * AccelDecay >= Abs(l.ddposition.x)
    requires n as real * AccelDecay >= Abs(l.ddposition.y)
    requires n as real * AccelDecay >= Abs(l.ddposition.z)
    ensures IntegrateN(l, n).ddposition == Zero3
  {
    AccelAfter(l, n);
    ApprNReaches(l.ddposition.x, 0.0, AccelDecay, n);
    ApprNReaches(l.ddposition.y, 0.0, AccelDecay, n);
    ApprNReaches(l.ddposition.z, 0.0, AccelDecay, n);
  }

  /** After `n` ticks each acceleration component has had `n` steps of
      `appr` towards zero. */
  lemma {:induction false} AccelAfter(l: Lerpable, n: nat)
    requires l.Rigid?
    ensures IntegrateN(l, n).ddposition ==
            Vec3(ApprN(l.ddposition.x, 0.0, AccelDecay, n),
                 ApprN(l.ddposition.y, 0.0, AccelDecay, n),
                 ApprN(l.ddposition.z, 0.0, AccelDecay, n))
  {
    if n > 0 {
      AccelAfter(l, n - 1);
      ApprNLast(l.ddposition.x, 0.0, AccelDecay, n);
      ApprNLast(l.ddposition.y, 0.0, AccelDecay, n);
      ApprNLast(l.ddposition.z, 0.0, AccelDecay, n);
    }
  }

  /** The last of `n` steps of `appr` is one more step after `n - 1`. */
  lemma {:induction false} ApprNLast(v: real, t: real, step: real, n: nat)
    requires n > 0
    decreases n
    ensures ApprN(v, t, step, n) == Appr(ApprN(v, t, step, n - 1), t, step)
  {
    if n > 1 {
      ApprNLast(Appr(v, t, step), t, step, n - 1);
    }
  }
}
