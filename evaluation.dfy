/**
 * `EvaluateImage`: the number of pixels darker than a brightness threshold,
 * with the shadow area ratio kept as the exact pair "shadow pixels out of
 * all pixels".
 */
module Evaluation {
  import opened Colors
  import opened Raster

  /** `0.30f`, the default threshold, as the exact value of that float. */
  const DefaultThreshold: real := 0.300000011920928955078125

  /**
   * `EvalMetrics` without the wall-clock time: the shadow pixel count and
   * the pixel count it is a ratio of.
   */
  datatype EvalMetrics = EvalMetrics(shadowPixels: int, totalPixels: int)

  /** The area ratio as a fraction; an image without pixels has none. */
  function ShadowAreaRatio(m: EvalMetrics): (r: real)
    requires 0 < m.totalPixels
    ensures r * m.totalPixels as real == m.shadowPixels as real
    ensures 0 <= m.shadowPixels <= m.totalPixels ==> 0.0 <= r <= 1.0
    ensures m.shadowPixels == 0 ==> r == 0.0
    ensures m.shadowPixels == m.totalPixels ==> r == 1.0
  {
    var r := m.shadowPixels as real / m.totalPixels as real;
    assert r * m.totalPixels as real == m.shadowPixels as real;
    r
  }

  predicate IsShadowPixel(c: Color, threshold: real) {
    Brightness(c) < threshold
  }

  /** Under the default threshold a pixel is a shadow pixel exactly when its channels sum to at most 229. */
  lemma DefaultThresholdIsChannelSum(c: Color)
    ensures IsShadowPixel(c, DefaultThreshold) <==> ChannelSum(c) <= 229
  {
    var k := ChannelSum(c);
    assert Brightness(c) == k as real / 765.0;
    if k <= 229 {
      assert k as real <= 229.0;
    } else {
      assert 230.0 <= k as real;
    }
  }

  /** The number of shadow pixels among the first `n` cells. */
  function ShadowCount(cells: seq<Color>, threshold: real, n: int): (k: int)
    requires 0 <= n <= |cells|
    ensures 0 <= k <= n
  {
    if n == 0 then 0
    else ShadowCount(cells, threshold, n - 1) + (if IsShadowPixel(cells[n - 1], threshold) then 1 else 0)
  }

  /** `EvaluateImage`: one pass over the buffer, counting the pixels below the threshold. */
  method EvaluateImage(img: Image, threshold: real) returns (m: EvalMetrics)
    requires img.Valid()
    ensures m.shadowPixels == ShadowCount(img.pix[..], threshold, img.pix.Length)
    ensures 0 <= m.shadowPixels <= img.W * img.H
    ensures m.totalPixels == img.W * img.H
  {
    var shadowPixels := 0;
    ghost var cells := img.pix[..];
    for i := 0 to img.pix.Length
      invariant shadowPixels == ShadowCount(cells, threshold, i)
    {
      if Brightness(img.pix[i]) < threshold {
        shadowPixels := shadowPixels + 1;
      }
    }
    m := EvalMetrics(shadowPixels, img.W * img.H);
  }

  /** The positions among the first `n` cells that hold a shadow pixel. */
  function ShadowPositions(cells: seq<Color>, threshold: real, n: int): set<int>
    requires 0 <= n <= |cells|
  {
    set i | 0 <= i < n && IsShadowPixel(cells[i], threshold)
  }

  lemma ShadowPositionsStep(cells: seq<Color>, threshold: real, n: int)
    requires 0 < n <= |cells|
    ensures ShadowPositions(cells, threshold, n) ==
      ShadowPositions(cells, threshold, n - 1) + (if IsShadowPixel(cells[n - 1], threshold) then {n - 1} else {})
    ensures n - 1 !in ShadowPositions(cells, threshold, n - 1)
  {
  }

  /** The count is the number of cell positions holding a shadow pixel. */
  lemma {:induction false} ShadowCountIsCardinality(cells: seq<Color>, threshold: real, n: int)
    requires 0 <= n <= |cells|
    ensures ShadowCount(cells, threshold, n) == |ShadowPositions(cells, threshold, n)|
  {
    if n != 0 {
      ShadowCountIsCardinality(cells, threshold, n - 1);
      ShadowPositionsStep(cells, threshold, n);
    }
  }

  /** Every pixel counts exactly when the count reaches the number of pixels. */
  lemma {:induction false} AllCountedIffAllShadow(cells: seq<Color>, threshold: real, n: int)
    requires 0 <= n <= |cells|
    ensures ShadowCount(cells, threshold, n) == n <==> forall i :: 0 <= i < n ==> IsShadowPixel(cells[i], threshold)
  {
    if n != 0 {
      AllCountedIffAllShadow(cells, threshold, n - 1);
    }
  }

  /** No pixel counts exactly when the count is zero. */
  lemma {:induction false} NoneCountedIffNoShadow(cells: seq<Color>, threshold: real, n: int)
    requires 0 <= n <= |cells|
    ensures ShadowCount(cells, threshold, n) == 0 <==> forall i :: 0 <= i < n ==> !IsShadowPixel(cells[i], threshold)
  {
    if n != 0 {
      NoneCountedIffNoShadow(cells, threshold, n - 1);
    }
  }

  /** A higher threshold never counts fewer pixels. */
  lemma {:induction false} CountMonotoneInThreshold(cells: seq<Color>, lo: real, hi: real, n: int)
    requires 0 <= n <= |cells| && lo <= hi
    ensures ShadowCount(cells, lo, n) <= ShadowCount(cells, hi, n)
  {
    if n != 0 {
      CountMonotoneInThreshold(cells, lo, hi, n - 1);
    }
  }

  /** A buffer of one colour counts every pixel or none. */
  lemma UniformCount(cells: seq<Color>, bg: Color, threshold: real)
    requires forall i :: 0 <= i < |cells| ==> cells[i] == bg
    ensures ShadowCount(cells, threshold, |cells|) == if IsShadowPixel(bg, threshold) then |cells| else 0
  {
    AllCountedIffAllShadow(cells, threshold, |cells|);
    NoneCountedIffNoShadow(cells, threshold, |cells|);
  }

  /** Under the default threshold an all-black buffer is all shadow. */
  lemma BlackImageAllShadow(cells: seq<Color>)
    requires forall i :: 0 <= i < |cells| ==> cells[i] == Black
    ensures ShadowCount(cells, DefaultThreshold, |cells|) == |cells|
  {
    DefaultThresholdIsChannelSum(Black);
    UniformCount(cells, Black, DefaultThreshold);
  }

  /** Under the default threshold an all-white buffer has no shadow pixel. */
  lemma WhiteImageNoShadow(cells: seq<Color>)
    requires forall i :: 0 <= i < |cells| ==> cells[i] == White
    ensures ShadowCount(cells, DefaultThreshold, |cells|) == 0
  {
    DefaultThresholdIsChannelSum(White);
    UniformCount(cells, White, DefaultThreshold);
  }

  /** The default background (80, 90, 110) is not a shadow pixel under the default threshold. */
  lemma DefaultBackgroundIsLit()
    ensures !IsShadowPixel(DefaultBackground, DefaultThreshold)
  {
    DefaultThresholdIsChannelSum(DefaultBackground);
  }

  /** A freshly built image, evaluated under the default threshold, counts every pixel or none, as its background is dark or not. */
  method EvaluateFreshImage(w: int, h: int, bg: Color) returns (m: EvalMetrics)
    requires 0 <= w && 0 <= h
    ensures m.totalPixels == w * h
    ensures ChannelSum(bg) <= 229 ==> m.shadowPixels == w * h
    ensures 229 < ChannelSum(bg) ==> m.shadowPixels == 0
  {
    var img := new Image(w, h, bg);
    m := EvaluateImage(img, DefaultThreshold);
    DefaultThresholdIsChannelSum(bg);
    UniformCount(img.pix[..], bg, DefaultThreshold);
  }
}
