/**
 * The scene and its two queries: the nearest-hit scan over spheres then
 * planes (`Scene::intersect`) and the hard-shadow visibility test
 * (`Scene::isInShadow`).
 */
module Scenes {
  import opened Wrappers
  import opened Colors
  import opened Shapes

  datatype Scene = Scene(spheres: seq<Sphere>, planes: seq<Plane>, lights: seq<Light>, background: Color)

  /**
   * The floating-point geometry the selection and shading logic consumes,
   * taken as given: each field stands for one computation of the source
   * that uses `dot`, `sqrtf`, `normalize` or `powf`.
   */
  datatype Geometry = Geometry(
    /** `disc`, `t0` and `t1` of `Sphere::intersect`. */
    sphereQuadratic: (Sphere, Ray) -> Quadratic,
    /** `denom` and `dot(p0l0, normal)` of `Plane::intersect`. */
    planeTerms: (Plane, Ray) -> PlaneTerms,
    /** `Ray::pointAt`. */
    pointAt: (Ray, real) -> Vec3,
    /** `Sphere::normalAt`. */
    sphereNormal: (Sphere, Vec3) -> Vec3,
    /** The shadow ray from a point toward a light, its origin moved `bias` along the light direction. */
    shadowRay: (Vec3, Vec3, real) -> Ray,
    /** `(lightPos - point).length()`. */
    distance: (Vec3, Vec3) -> real,
    /** `dot(normal, normalize(lightPos - point))`, from normal, point and light position. */
    lambert: (Vec3, Vec3, Vec3) -> real,
    /** `dot(normal, halfDir)` of Blinn-Phong, from normal, point, light position and the viewing ray. */
    halfway: (Vec3, Vec3, Vec3, Ray) -> real,
    /** `powf`. */
    pow: (real, real) -> real
  )

  /** `numeric_limits<float>::max()`, the "nothing hit yet" distance. */
  const FloatMax: real := 340282346638528859811704183484516925440.0

  /** `1e-4f`: how far the shadow ray's origin is moved toward the light, against shadow acne. */
  const ShadowBias: real := 0.0000999999974737875163555145263671875

  datatype HitRecord = HitRecord(t: real, point: Vec3, normal: Vec3, material: Material, hit: bool)

  /** `HitRecord()`: no hit, at the sentinel distance, zero vectors, the default material. */
  const NoHit := HitRecord(FloatMax, Origin, Origin, DefaultMaterial, false)

  /** What one primitive reports for a ray: distance, hit point, surface normal, material. */
  datatype Hit = Hit(t: real, point: Vec3, normal: Vec3, material: Material)

  function SphereCandidate(geo: Geometry, s: Sphere, ray: Ray): Option<Hit> {
    match SphereHit(geo.sphereQuadratic(s, ray))
    case None => None
    case Some(t) =>
      var point := geo.pointAt(ray, t);
      Some(Hit(t, point, geo.sphereNormal(s, point), s.material))
  }

  function PlaneCandidate(geo: Geometry, p: Plane, ray: Ray): Option<Hit> {
    match PlaneHit(geo.planeTerms(p, ray))
    case None => None
    case Some(t) => Some(Hit(t, geo.pointAt(ray, t), p.normal, p.material))
  }

  function SphereCandidates(geo: Geometry, spheres: seq<Sphere>, ray: Ray): (cs: seq<Option<Hit>>)
    ensures |cs| == |spheres|
    ensures forall i :: 0 <= i < |spheres| ==> cs[i] == SphereCandidate(geo, spheres[i], ray)
  {
    seq(|spheres|, i requires 0 <= i < |spheres| => SphereCandidate(geo, spheres[i], ray))
  }

  function PlaneCandidates(geo: Geometry, planes: seq<Plane>, ray: Ray): (cs: seq<Option<Hit>>)
    ensures |cs| == |planes|
    ensures forall j :: 0 <= j < |planes| ==> cs[j] == PlaneCandidate(geo, planes[j], ray)
  {
    seq(|planes|, j requires 0 <= j < |planes| => PlaneCandidate(geo, planes[j], ray))
  }

  /** The primitives' reports in scan order: every sphere, then every plane. */
  function Candidates(geo: Geometry, scene: Scene, ray: Ray): seq<Option<Hit>> {
    SphereCandidates(geo, scene.spheres, ray) + PlaneCandidates(geo, scene.planes, ray)
  }

  /** A report that the scan can record: a hit whose distance beats the sentinel. */
  predicate Recordable(c: Option<Hit>) {
    c.Some? && c.value.t < FloatMax
  }

  function Record(h: Hit): HitRecord {
    HitRecord(h.t, h.point, h.normal, h.material, true)
  }

  /** One step of the scan: a report replaces the record only when strictly nearer. */
  function Offer(rec: HitRecord, c: Option<Hit>): HitRecord {
    if c.Some? && c.value.t < rec.t then Record(c.value) else rec
  }

  /** The scan's record after offering the first `n` reports of `cs`, in order, to `start`. */
  function Scan(start: HitRecord, cs: seq<Option<Hit>>, n: int): HitRecord
    requires 0 <= n <= |cs|
  {
    if n == 0 then start else Offer(Scan(start, cs, n - 1), cs[n - 1])
  }

  /** Among the first `n` reports, `cs[i]` is the nearest recordable one and no earlier one is as near. */
  predicate IsFirstNearest(cs: seq<Option<Hit>>, n: int, i: int)
    requires n <= |cs|
  {
    0 <= i < n && Recordable(cs[i]) &&
    (forall j :: 0 <= j < n && Recordable(cs[j]) ==> cs[i].value.t <= cs[j].value.t) &&
    (forall j :: 0 <= j < i && Recordable(cs[j]) ==> cs[i].value.t < cs[j].value.t)
  }

  /** At most one report is the first nearest one. */
  lemma FirstNearestUnique(cs: seq<Option<Hit>>, n: int, i: int, k: int)
    requires n <= |cs| && IsFirstNearest(cs, n, i) && IsFirstNearest(cs, n, k)
    ensures i == k
  {
  }

  /** A report no nearer than the first nearest one leaves it first nearest. */
  lemma FirstNearestKept(cs: seq<Option<Hit>>, m: int, i: int)
    requires 0 <= m < |cs| && IsFirstNearest(cs, m, i)
    requires !(cs[m].Some? && cs[m].value.t < cs[i].value.t)
    ensures IsFirstNearest(cs, m + 1, i)
  {
  }

  /** A report strictly nearer than the first nearest one takes its place. */
  lemma FirstNearestReplaced(cs: seq<Option<Hit>>, m: int, i: int)
    requires 0 <= m < |cs| && IsFirstNearest(cs, m, i)
    requires cs[m].Some? && cs[m].value.t < cs[i].value.t
    ensures IsFirstNearest(cs, m + 1, m)
  {
  }

  /** The first recordable report is the first nearest one so far. */
  lemma FirstNearestFound(cs: seq<Option<Hit>>, m: int)
    requires 0 <= m < |cs| && Recordable(cs[m])
    requires forall j :: 0 <= j < m ==> !Recordable(cs[j])
    ensures IsFirstNearest(cs, m + 1, m)
  {
  }

  /**
   * Scanning from a fresh record (no hit, sentinel distance) keeps the
   * strict minimum: a hit iff some report is recordable, and then the
   * record of the first report attaining the minimum; otherwise the start.
   */
  lemma {:induction false} ScanKeepsFirstNearest(start: HitRecord, cs: seq<Option<Hit>>, n: int)
    requires !start.hit && start.t == FloatMax && 0 <= n <= |cs|
    ensures Scan(start, cs, n).hit <==> exists i :: 0 <= i < n && Recordable(cs[i])
    ensures !Scan(start, cs, n).hit ==> Scan(start, cs, n) == start
    ensures Scan(start, cs, n).hit ==> exists i :: IsFirstNearest(cs, n, i) && Scan(start, cs, n) == Record(cs[i].value)
  {
    if n != 0 {
      var m := n - 1;
      ScanKeepsFirstNearest(start, cs, m);
      var before := Scan(start, cs, m);
      assert Scan(start, cs, n) == Offer(before, cs[m]);
      if before.hit {
        var i :| IsFirstNearest(cs, m, i) && before == Record(cs[i].value);
        if cs[m].Some? && cs[m].value.t < before.t {
          FirstNearestReplaced(cs, m, i);
          assert Scan(start, cs, n) == Record(cs[m].value);
        } else {
          FirstNearestKept(cs, m, i);
          assert Scan(start, cs, n) == Record(cs[i].value);
        }
      } else if Recordable(cs[m]) {
        FirstNearestFound(cs, m);
        assert Scan(start, cs, n) == Record(cs[m].value);
      }
    }
  }

  /** The scan of a fresh record over the scene: what `intersect` leaves in a new `HitRecord`. */
  function NearestHit(geo: Geometry, scene: Scene, ray: Ray): HitRecord {
    var cs := Candidates(geo, scene, ray);
    Scan(NoHit, cs, |cs|)
  }

  /**
   * The nearest-hit query: a hit iff some sphere or plane reports one below
   * the sentinel; then the record of the first primitive, spheres before
   * planes, that attains the minimum distance; otherwise the fresh record.
   */
  lemma NearestHitIsFirstNearest(geo: Geometry, scene: Scene, ray: Ray)
    ensures var rec := NearestHit(geo, scene, ray);
      var cs := Candidates(geo, scene, ray);
      (rec.hit <==> exists i :: 0 <= i < |cs| && Recordable(cs[i])) &&
      (!rec.hit ==> rec == NoHit) &&
      (rec.hit ==> exists i :: IsFirstNearest(cs, |cs|, i) && rec == Record(cs[i].value))
  {
    var cs := Candidates(geo, scene, ray);
    ScanKeepsFirstNearest(NoHit, cs, |cs|);
  }

  /**
   * `Scene::intersect`: `rec` is the caller's record; only its flag and
   * distance are reset before the spheres, then the planes, are scanned.
   */
  method Intersect(geo: Geometry, scene: Scene, ray: Ray, rec0: HitRecord) returns (found: bool, rec: HitRecord)
    ensures rec == Scan(rec0.(hit := false, t := FloatMax), Candidates(geo, scene, ray), |Candidates(geo, scene, ray)|)
    ensures found == rec.hit
  {
    ghost var start := rec0.(hit := false, t := FloatMax);
    ghost var sc := SphereCandidates(geo, scene.spheres, ray);
    ghost var pc := PlaneCandidates(geo, scene.planes, ray);
    ghost var cs := sc + pc;
    var ns := |scene.spheres|;
    rec := rec0.(hit := false, t := FloatMax);
    for i := 0 to ns
      invariant rec == Scan(start, cs, i)
    {
      var s := scene.spheres[i];
      assert cs[i] == sc[i] == SphereCandidate(geo, s, ray);
      var hit := SphereHit(geo.sphereQuadratic(s, ray));
      if hit.Some? && hit.value < rec.t {
        var t := hit.value;
        var point := geo.pointAt(ray, t);
        rec := HitRecord(t, point, geo.sphereNormal(s, point), s.material, true);
      }
    }
    for j := 0 to |scene.planes|
      invariant rec == Scan(start, cs, ns + j)
    {
      var p := scene.planes[j];
      assert cs[ns + j] == pc[j] == PlaneCandidate(geo, p, ray);
      var hit := PlaneHit(geo.planeTerms(p, ray));
      if hit.Some? && hit.value < rec.t {
        var t := hit.value;
        rec := HitRecord(t, geo.pointAt(ray, t), p.normal, p.material, true);
      }
    }
    assert ns + |scene.planes| == |cs|;
    found := rec.hit;
  }

  /**
   * `Scene::isInShadow`: in shadow iff the shadow ray's nearest hit exists
   * and lies strictly nearer than the light.
   */
  function InShadow(geo: Geometry, scene: Scene, point: Vec3, lightPos: Vec3): bool {
    var lightDist := geo.distance(point, lightPos);
    var shadowRay := geo.shadowRay(point, lightPos, ShadowBias);
    var srec := NearestHit(geo, scene, shadowRay);
    if srec.hit then srec.t < lightDist else false
  }

  /** `Scene::isInShadow` as the source runs it: one `intersect` of the shadow ray into a fresh record. */
  method IsInShadow(geo: Geometry, scene: Scene, point: Vec3, lightPos: Vec3) returns (shadowed: bool)
    ensures shadowed == InShadow(geo, scene, point, lightPos)
  {
    var lightDist := geo.distance(point, lightPos);
    var shadowRay := geo.shadowRay(point, lightPos, ShadowBias);
    var found, srec := Intersect(geo, scene, shadowRay, NoHit);
    if found {
      return srec.t < lightDist;
    }
    return false;
  }

  /** A point is in shadow iff some primitive reports a hit on the shadow ray nearer than the light. */
  lemma InShadowIffOccluded(geo: Geometry, scene: Scene, point: Vec3, lightPos: Vec3)
    ensures var cs := Candidates(geo, scene, geo.shadowRay(point, lightPos, ShadowBias));
      InShadow(geo, scene, point, lightPos) <==>
      exists i :: 0 <= i < |cs| && Recordable(cs[i]) && cs[i].value.t < geo.distance(point, lightPos)
  {
    NearestHitIsFirstNearest(geo, scene, geo.shadowRay(point, lightPos, ShadowBias));
  }

  /** A scene with no spheres and no planes casts no shadow. */
  lemma EmptySceneCastsNoShadow(geo: Geometry, scene: Scene, point: Vec3, lightPos: Vec3)
    requires scene.spheres == [] && scene.planes == []
    ensures !InShadow(geo, scene, point, lightPos)
  {
  }
}
