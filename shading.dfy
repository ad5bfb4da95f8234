/**
 * `Scene::traceRay`: background when nothing is hit; otherwise the ambient
 * term, then one diffuse-plus-specular contribution per unshadowed light,
 * combined by saturating addition.
 */
module Shading {
  import opened Wrappers
  import opened Colors
  import opened Shapes
  import opened Scenes

  function RealMax(a: real, b: real): real { if a < b then b else a }

  /** The ambient term: the material colour scaled by its ambient coefficient, always applied. */
  function Ambient(rec: HitRecord): Color {
    Scale(rec.material.color, rec.material.ambient)
  }

  /** The diffuse term: the material colour scaled by `diffuse * max(0, dot(normal, lightDir))`. */
  function DiffuseTerm(geo: Geometry, rec: HitRecord, light: Light): Color {
    var diff := RealMax(0.0, geo.lambert(rec.normal, rec.point, light.position));
    Scale(rec.material.color, rec.material.diffuse * diff)
  }

  /** The Blinn-Phong term: the light colour scaled by `specular * powf(max(0, dot(normal, halfDir)), shininess)`. */
  function SpecularTerm(geo: Geometry, rec: HitRecord, ray: Ray, light: Light): Color {
    var spec := geo.pow(RealMax(0.0, geo.halfway(rec.normal, rec.point, light.position, ray)), rec.material.shininess);
    Scale(light.color, rec.material.specular * spec)
  }

  /**
   * What one unshadowed light adds at a hit: the diffuse plus the specular
   * term, saturated, then scaled by the light's intensity.
   */
  function Contribution(geo: Geometry, rec: HitRecord, ray: Ray, light: Light): Color {
    Scale(Add(DiffuseTerm(geo, rec, light), SpecularTerm(geo, rec, ray, light)), light.intensity)
  }

  predicate Shadowed(geo: Geometry, scene: Scene, rec: HitRecord, light: Light) {
    InShadow(geo, scene, rec.point, light.position)
  }

  /** What one light does to the result: nothing when shadowed, otherwise add its contribution. */
  function Outcome(geo: Geometry, scene: Scene, rec: HitRecord, ray: Ray, light: Light): Option<Color> {
    if Shadowed(geo, scene, rec, light) then None else Some(Contribution(geo, rec, ray, light))
  }

  /** The outcome of each light in `ls`, in order. */
  function Each(f: Light -> Option<Color>, ls: seq<Light>): (os: seq<Option<Color>>)
    ensures |os| == |ls|
    ensures forall i :: 0 <= i < |ls| ==> os[i] == f(ls[i])
  {
    seq(|ls|, i requires 0 <= i < |ls| => f(ls[i]))
  }

  lemma EachAppend(f: Light -> Option<Color>, a: seq<Light>, b: seq<Light>)
    ensures Each(f, a + b) == Each(f, a) + Each(f, b)
  {
    var whole := Each(f, a + b);
    forall i | 0 <= i < |whole|
      ensures whole[i] == (Each(f, a) + Each(f, b))[i]
    {
      if i < |a| {
        assert (a + b)[i] == a[i];
      } else {
        assert (a + b)[i] == b[i - |a|];
      }
    }
  }

  /** `Outcome` at a fixed hit, as a function of the light. */
  function OutcomeAt(geo: Geometry, scene: Scene, rec: HitRecord, ray: Ray): Light -> Option<Color> {
    l => Outcome(geo, scene, rec, ray, l)
  }

  /** One step of the light loop: a skipped light keeps the result, a lit one is added with saturation. */
  function Merge(acc: Color, o: Option<Color>): Color {
    if o.None? then acc else Add(acc, o.value)
  }

  /** The running result after the first `n` outcomes, starting from `start`. */
  function Saturate(start: Color, os: seq<Option<Color>>, n: int): Color
    requires 0 <= n <= |os|
  {
    if n == 0 then start else Merge(Saturate(start, os, n - 1), os[n - 1])
  }

  /** The colour `traceRay` returns for `ray`. */
  function Shade(geo: Geometry, scene: Scene, ray: Ray): Color {
    var rec := NearestHit(geo, scene, ray);
    if !rec.hit then scene.background
    else Saturate(Ambient(rec), Each(OutcomeAt(geo, scene, rec, ray), scene.lights), |scene.lights|)
  }

  /** `Scene::traceRay`, proved to compute `Shade`. */
  method TraceRay(geo: Geometry, scene: Scene, ray: Ray) returns (c: Color)
    ensures c == Shade(geo, scene, ray)
  {
    var found, rec := Intersect(geo, scene, ray, NoHit);
    if !found {
      return scene.background;
    }
    var ar := rec.material.ambient;
    var result := Scale(rec.material.color, ar);
    var lights := scene.lights;
    ghost var os := Each(OutcomeAt(geo, scene, rec, ray), lights);
    for i := 0 to |lights|
      invariant result == Saturate(Ambient(rec), os, i)
    {
      var light := lights[i];
      var inShadow := IsInShadow(geo, scene, rec.point, light.position);
      if inShadow {
        assert os[i] == None;
        continue;
      }
      var diffuse := DiffuseTerm(geo, rec, light);
      var specCol := SpecularTerm(geo, rec, ray, light);
      var contrib := Add(diffuse, specCol);
      contrib := Scale(contrib, light.intensity);
      assert os[i] == Some(contrib);
      result := Add(result, contrib);
    }
    c := result;
  }

  // ---------------------------------------------------------------------
  // The accumulation in closed form: each channel is the start's channel
  // plus the lit contributions' channels, saturated once at 255.

  datatype Channel = Red | Green | Blue

  function Get(c: Color, ch: Channel): int {
    match ch
    case Red => c.r as int
    case Green => c.g as int
    case Blue => c.b as int
  }

  /** The sum of one channel over the first `n` outcomes; a skipped light adds zero. */
  function Total(os: seq<Option<Color>>, n: int, ch: Channel): (t: int)
    requires 0 <= n <= |os|
    ensures 0 <= t
  {
    if n == 0 then 0 else Total(os, n - 1, ch) + (if os[n - 1].None? then 0 else Get(os[n - 1].value, ch))
  }

  /** Each channel of the result is the start's channel plus every lit contribution, saturated once. */
  lemma {:induction false} SaturateClosedForm(start: Color, os: seq<Option<Color>>, n: int, ch: Channel)
    requires 0 <= n <= |os|
    ensures Get(Saturate(start, os, n), ch) == Min(Get(start, ch) + Total(os, n, ch), ChannelMax)
  {
    if n != 0 {
      SaturateClosedForm(start, os, n - 1, ch);
    }
  }

  /** The sums over sequences that agree on their first `n` outcomes agree. */
  lemma {:induction false} TotalAgrees(os: seq<Option<Color>>, os': seq<Option<Color>>, n: int, ch: Channel)
    requires 0 <= n <= |os| && n <= |os'|
    requires forall i :: 0 <= i < n ==> os[i] == os'[i]
    ensures Total(os, n, ch) == Total(os', n, ch)
  {
    if n != 0 {
      TotalAgrees(os, os', n - 1, ch);
    }
  }

  lemma {:induction false} TotalAppend(a: seq<Option<Color>>, b: seq<Option<Color>>, n: int, ch: Channel)
    requires 0 <= n <= |b|
    ensures Total(a + b, |a| + n, ch) == Total(a, |a|, ch) + Total(b, n, ch)
  {
    if n == 0 {
      TotalAgrees(a + b, a, |a|, ch);
    } else {
      TotalAppend(a, b, n - 1, ch);
      assert (a + b)[|a| + n - 1] == b[n - 1];
    }
  }

  /** Two colours whose channels agree are equal. */
  lemma ChannelsDetermine(a: Color, b: Color)
    requires forall ch: Channel :: Get(a, ch) == Get(b, ch)
    ensures a == b
  {
    assert Get(a, Red) == Get(b, Red) && Get(a, Green) == Get(b, Green) && Get(a, Blue) == Get(b, Blue);
  }

  /** Outcome sequences with the same channel sums give the same result. */
  lemma SameTotalsSameResult(start: Color, os: seq<Option<Color>>, os': seq<Option<Color>>)
    requires forall ch: Channel :: Total(os, |os|, ch) == Total(os', |os'|, ch)
    ensures Saturate(start, os, |os|) == Saturate(start, os', |os'|)
  {
    forall ch: Channel
      ensures Get(Saturate(start, os, |os|), ch) == Get(Saturate(start, os', |os'|), ch)
    {
      SaturateClosedForm(start, os, |os|, ch);
      SaturateClosedForm(start, os', |os'|, ch);
    }
    ChannelsDetermine(Saturate(start, os, |os|), Saturate(start, os', |os'|));
  }

  /** A skipped light, wherever it stands, changes nothing in the result. */
  lemma SkippedChangesNothing(start: Color, a: seq<Option<Color>>, b: seq<Option<Color>>)
    ensures Saturate(start, a + [None] + b, |a| + 1 + |b|) == Saturate(start, a + b, |a| + |b|)
  {
    forall ch: Channel
      ensures Total(a + [None] + b, |a + [None] + b|, ch) == Total(a + b, |a + b|, ch)
    {
      TotalAppend(a + [None], b, |b|, ch);
      TotalAppend(a, [None], 1, ch);
      TotalAppend(a, b, |b|, ch);
    }
    SameTotalsSameResult(start, a + [None] + b, a + b);
  }

  /** Swapping two neighbouring outcomes does not change the result: contributions are summed. */
  lemma SwapChangesNothing(start: Color, a: seq<Option<Color>>, o1: Option<Color>, o2: Option<Color>, b: seq<Option<Color>>)
    ensures Saturate(start, a + [o1, o2] + b, |a| + 2 + |b|) == Saturate(start, a + [o2, o1] + b, |a| + 2 + |b|)
  {
    forall ch: Channel
      ensures Total(a + [o1, o2] + b, |a + [o1, o2] + b|, ch) == Total(a + [o2, o1] + b, |a + [o2, o1] + b|, ch)
    {
      SwapKeepsTotal(a, o1, o2, b, ch);
    }
    SameTotalsSameResult(start, a + [o1, o2] + b, a + [o2, o1] + b);
  }

  lemma SwapKeepsTotal(a: seq<Option<Color>>, o1: Option<Color>, o2: Option<Color>, b: seq<Option<Color>>, ch: Channel)
    ensures Total(a + [o1, o2] + b, |a + [o1, o2] + b|, ch) == Total(a + [o2, o1] + b, |a + [o2, o1] + b|, ch)
  {
    TotalAppend(a + [o1, o2], b, |b|, ch);
    TotalAppend(a + [o2, o1], b, |b|, ch);
    TotalAppend(a, [o1, o2], 2, ch);
    TotalAppend(a, [o2, o1], 2, ch);
    PairTotal(o1, o2, ch);
  }

  lemma PairTotal(o1: Option<Color>, o2: Option<Color>, ch: Channel)
    ensures Total([o1, o2], 2, ch) == Total([o2, o1], 2, ch)
  {
    TotalAppend([o1], [o2], 1, ch);
    TotalAppend([o2], [o1], 1, ch);
    assert [o1] + [o2] == [o1, o2] && [o2] + [o1] == [o2, o1];
  }

  /** With every light skipped the result is the start exactly. */
  lemma {:induction false} AllSkippedIsStart(start: Color, os: seq<Option<Color>>, n: int)
    requires 0 <= n <= |os|
    requires forall i :: 0 <= i < n ==> os[i].None?
    ensures Saturate(start, os, n) == start
  {
    if n != 0 {
      AllSkippedIsStart(start, os, n - 1);
    }
  }

  /** Lights only brighten: the result is never darker than the start. */
  lemma {:induction false} StartIsFloor(start: Color, os: seq<Option<Color>>, n: int)
    requires 0 <= n <= |os|
    ensures Below(start, Saturate(start, os, n))
  {
    if n != 0 {
      StartIsFloor(start, os, n - 1);
    }
  }

  /** The nearest hit depends on the spheres and planes only, never on the light list. */
  lemma NearestHitIgnoresLights(geo: Geometry, scene: Scene, lights': seq<Light>, ray: Ray)
    ensures NearestHit(geo, scene.(lights := lights'), ray) == NearestHit(geo, scene, ray)
  {
    assert Candidates(geo, scene.(lights := lights'), ray) == Candidates(geo, scene, ray);
  }

  /** Occlusion too, so each light's outcome is the same whatever the rest of the light list. */
  lemma OutcomesIgnoreLights(geo: Geometry, scene: Scene, lights': seq<Light>, rec: HitRecord, ray: Ray, ls: seq<Light>)
    ensures Each(OutcomeAt(geo, scene.(lights := lights'), rec, ray), ls) == Each(OutcomeAt(geo, scene, rec, ray), ls)
  {
    var scene' := scene.(lights := lights');
    forall i | 0 <= i < |ls|
      ensures Outcome(geo, scene', rec, ray, ls[i]) == Outcome(geo, scene, rec, ray, ls[i])
    {
      NearestHitIgnoresLights(geo, scene, lights', geo.shadowRay(rec.point, ls[i].position, ShadowBias));
    }
  }

  /** `Shade` for the same spheres and planes under any light list `ls`. */
  lemma ShadeUnderLights(geo: Geometry, scene: Scene, ray: Ray, ls: seq<Light>)
    ensures var rec := NearestHit(geo, scene, ray);
      Shade(geo, scene.(lights := ls), ray) ==
        if !rec.hit then scene.background else Saturate(Ambient(rec), Each(OutcomeAt(geo, scene, rec, ray), ls), |ls|)
  {
    var rec := NearestHit(geo, scene, ray);
    NearestHitIgnoresLights(geo, scene, ls, ray);
    OutcomesIgnoreLights(geo, scene, ls, rec, ray, ls);
  }

  lemma ShadowedIsSkipped(geo: Geometry, scene: Scene, rec: HitRecord, ray: Ray, light: Light)
    requires Shadowed(geo, scene, rec, light)
    ensures OutcomeAt(geo, scene, rec, ray)(light) == None
  {
  }

  /** For any per-light outcome, a light that is skipped can be dropped from the list. */
  lemma SkippedLightChangesNothing(f: Light -> Option<Color>, start: Color, a: seq<Light>, light: Light, b: seq<Light>)
    requires f(light) == None
    ensures Saturate(start, Each(f, a + [light] + b), |a| + 1 + |b|) == Saturate(start, Each(f, a + b), |a| + |b|)
  {
    var oa, ob := Each(f, a), Each(f, b);
    EachAppend(f, a + [light], b);
    EachAppend(f, a, [light]);
    EachAppend(f, a, b);
    assert Each(f, [light]) == [None];
    SkippedChangesNothing(start, oa, ob);
  }

  /** For any per-light outcome, swapping two neighbouring lights changes nothing. */
  lemma SwappedLightsChangeNothing(f: Light -> Option<Color>, start: Color, a: seq<Light>, l1: Light, l2: Light, b: seq<Light>)
    ensures Saturate(start, Each(f, a + [l1, l2] + b), |a| + 2 + |b|) == Saturate(start, Each(f, a + [l2, l1] + b), |a| + 2 + |b|)
  {
    EachAppend(f, a + [l1, l2], b);
    EachAppend(f, a, [l1, l2]);
    EachAppend(f, a + [l2, l1], b);
    EachAppend(f, a, [l2, l1]);
    assert Each(f, [l1, l2]) == [f(l1), f(l2)];
    assert Each(f, [l2, l1]) == [f(l2), f(l1)];
    SwapChangesNothing(start, Each(f, a), f(l1), f(l2), Each(f, b));
  }

  /** A shadowed light, wherever it stands in the scene's light list, changes nothing in what `traceRay` returns. */
  lemma ShadowedLightChangesNothing(geo: Geometry, scene: Scene, ray: Ray, a: seq<Light>, light: Light, b: seq<Light>)
    requires scene.lights == a + [light] + b
    requires Shadowed(geo, scene, NearestHit(geo, scene, ray), light)
    ensures Shade(geo, scene, ray) == Shade(geo, scene.(lights := a + b), ray)
  {
    var rec := NearestHit(geo, scene, ray);
    ShadeUnderLights(geo, scene, ray, a + b);
    ShadowedIsSkipped(geo, scene, rec, ray, light);
    SkippedLightChangesNothing(OutcomeAt(geo, scene, rec, ray), Ambient(rec), a, light, b);
  }

  /** Swapping two neighbouring lights of the scene changes nothing in what `traceRay` returns. */
  lemma LightOrderIrrelevant(geo: Geometry, scene: Scene, ray: Ray, a: seq<Light>, l1: Light, l2: Light, b: seq<Light>)
    requires scene.lights == a + [l1, l2] + b
    ensures Shade(geo, scene, ray) == Shade(geo, scene.(lights := a + [l2, l1] + b), ray)
  {
    var rec := NearestHit(geo, scene, ray);
    ShadeUnderLights(geo, scene, ray, a + [l2, l1] + b);
    SwappedLightsChangeNothing(OutcomeAt(geo, scene, rec, ray), Ambient(rec), a, l1, l2, b);
  }

  /** What `traceRay` promises: the background on a miss; otherwise at least the ambient term, and exactly it when every light is shadowed. */
  lemma ShadeCases(geo: Geometry, scene: Scene, ray: Ray)
    ensures var rec := NearestHit(geo, scene, ray);
      (!rec.hit ==> Shade(geo, scene, ray) == scene.background) &&
      (rec.hit ==> Below(Ambient(rec), Shade(geo, scene, ray))) &&
      (rec.hit && (forall i :: 0 <= i < |scene.lights| ==> Shadowed(geo, scene, rec, scene.lights[i])) ==>
        Shade(geo, scene, ray) == Scale(rec.material.color, rec.material.ambient))
  {
    var rec := NearestHit(geo, scene, ray);
    if rec.hit {
      var os := Each(OutcomeAt(geo, scene, rec, ray), scene.lights);
      StartIsFloor(Ambient(rec), os, |os|);
      if forall i :: 0 <= i < |scene.lights| ==> Shadowed(geo, scene, rec, scene.lights[i]) {
        AllSkippedIsStart(Ambient(rec), os, |os|);
      }
    }
  }
}
