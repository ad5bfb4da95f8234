/**
 * Scene entities and the two primitives' hit-selection rules. The
 * floating-point quantities a test computes from the ray (the sphere's
 * discriminant and roots, the plane's denominator and numerator) are inputs
 * here; what is modelled is which candidate is chosen and when a hit is
 * reported.
 */
module Shapes {
  import opened Wrappers
  import opened Colors

  /** A point or direction; its arithmetic is floating-point and is not modelled. */
  datatype Vec3 = Vec3(x: real, y: real, z: real)

  const Origin := Vec3(0.0, 0.0, 0.0)

  datatype Ray = Ray(origin: Vec3, direction: Vec3)

  datatype Material = Material(color: Color, ambient: real, diffuse: real, specular: real, shininess: real)

  /** `Material()`: white, ambient 0.1f, diffuse 0.9f, specular 0.3f, shininess 32 (exact values of those floats). */
  const DefaultMaterial := Material(White, 0.100000001490116119384765625, 0.89999997615814208984375, 0.300000011920928955078125, 32.0)

  datatype Sphere = Sphere(center: Vec3, radius: real, material: Material)

  /** A plane; `normal` is the unit normal its constructor stores. */
  datatype Plane = Plane(point: Vec3, normal: Vec3, material: Material)

  datatype Light = Light(position: Vec3, color: Color, intensity: real)

  /**
   * Self-intersection bias in ray-parameter units, `0.001f`: a hit nearer
   * than this is treated as the ray's own origin surface.
   */
  const HitEpsilon: real := 0.001000000047497451305389404296875

  /** `1e-6f`: a plane whose normal is this close to perpendicular to the ray counts as parallel. */
  const ParallelEpsilon: real := 0.0000009999999974752427078783512115478515625

  /** What the sphere test computes from a ray before choosing a root. */
  datatype Quadratic = Quadratic(disc: real, t0: real, t1: real)

  /**
   * `Sphere::intersect`: no hit for a negative discriminant; otherwise the
   * near root if it passes the bias, else the far root, reported only if
   * the chosen root passes the bias.
   */
  function SphereHit(q: Quadratic): (r: Option<real>)
    ensures r.Some? <==> 0.0 <= q.disc && (HitEpsilon < q.t0 || HitEpsilon < q.t1)
    ensures r.Some? ==> HitEpsilon < r.value && (r.value == q.t0 || r.value == q.t1)
    ensures r.Some? && r.value == q.t1 && q.t0 != q.t1 ==> q.t0 <= HitEpsilon
  {
    if q.disc < 0.0 then None
    else
      var t := if HitEpsilon < q.t0 then q.t0 else q.t1;
      if HitEpsilon < t then Some(t) else None
  }

  /**
   * With the roots in order (as the quadratic formula gives them for a
   * non-negative discriminant), the reported distance is the nearest root
   * beyond the bias.
   */
  lemma SphereHitIsNearestValidRoot(q: Quadratic)
    requires 0.0 <= q.disc && q.t0 <= q.t1
    ensures SphereHit(q).Some? <==> HitEpsilon < q.t1
    ensures SphereHit(q).Some? ==>
      var t := SphereHit(q).value;
      (t == q.t0 || t == q.t1) && HitEpsilon < t &&
      (HitEpsilon < q.t0 ==> t <= q.t0) && (HitEpsilon < q.t1 ==> t <= q.t1)
  {
  }

  /** What the plane test computes: `dot(normal, dir)` and `dot(point - origin, normal)`. */
  datatype PlaneTerms = PlaneTerms(denom: real, numer: real)

  function Abs(x: real): real { if x < 0.0 then -x else x }

  /**
   * `Plane::intersect`: a (near-)parallel ray never hits; otherwise the
   * distance is `numer / denom`, a hit when it is at least the bias.
   */
  function PlaneHit(p: PlaneTerms): (r: Option<real>)
    ensures Abs(p.denom) <= ParallelEpsilon ==> r == None
    ensures ParallelEpsilon < Abs(p.denom) ==> (r.Some? <==> HitEpsilon <= p.numer / p.denom)
    ensures r.Some? ==> r.value == p.numer / p.denom && HitEpsilon <= r.value
  {
    if ParallelEpsilon < Abs(p.denom) then
      var t := p.numer / p.denom;
      if HitEpsilon <= t then Some(t) else None
    else
      None
  }

  /** A reported plane hit lies in front of the ray: the two dot products share their sign. */
  lemma PlaneHitInFront(p: PlaneTerms)
    requires PlaneHit(p).Some?
    ensures (0.0 < p.denom && 0.0 < p.numer) || (p.denom < 0.0 && p.numer < 0.0)
  {
    var t := p.numer / p.denom;
    assert p.numer == t * p.denom;
  }

  /**
   * The two primitives disagree at the bias itself: a candidate distance of
   * exactly `HitEpsilon` is a plane hit (`>=`) but not a sphere hit (`>`).
   */
  lemma BiasBoundaryDiffers()
    ensures PlaneHit(PlaneTerms(1.0, HitEpsilon)) == Some(HitEpsilon)
    ensures SphereHit(Quadratic(0.0, HitEpsilon, HitEpsilon)) == None
  {
  }
}
