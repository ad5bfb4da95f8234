/**
 * The image buffer: a width, a height and a dense row-major buffer holding
 * one colour per pixel, filled with a background colour at construction and
 * afterwards changed only by single-pixel writes.
 */
module Raster {
  import opened Colors

  /** The default background of `Image(w, h)` and of the scene. */
  const DefaultBackground := Color(80, 90, 110)

  /** True when `(x, y)` addresses a pixel of a `w` by `h` image. */
  predicate InBounds(x: int, y: int, w: int, h: int) {
    0 <= x < w && 0 <= y < h
  }

  /** The row-major cell of pixel `(x, y)` in a `w` by `h` image; every in-bounds pixel has one. */
  function CellIndex(x: int, y: int, w: int, h: int): (i: int)
    ensures InBounds(x, y, w, h) ==> 0 <= i < w * h
  {
    assert InBounds(x, y, w, h) ==> y * w <= (h - 1) * w by {
      if InBounds(x, y, w, h) {
        MulLeftMonotone(y, h - 1, w);
      }
    }
    y * w + x
  }

  /** Two different in-bounds pixels never share a cell. */
  lemma CellIndexInjective(x: int, y: int, x': int, y': int, w: int, h: int)
    requires InBounds(x, y, w, h) && InBounds(x', y', w, h)
    requires CellIndex(x, y, w, h) == CellIndex(x', y', w, h)
    ensures x == x' && y == y'
  {
    if y < y' {
      MulLeftMonotone(y + 1, y', w);
      assert false;
    } else if y' < y {
      MulLeftMonotone(y' + 1, y, w);
      assert false;
    }
  }

  /** Each cell of a `w` by `h` buffer is the cell of exactly one pixel. */
  lemma CellIndexOnto(i: int, w: int, h: int)
    requires 0 <= h && 0 <= i < w * h
    ensures InBounds(i % w, i / w, w, h) && CellIndex(i % w, i / w, w, h) == i
  {
    assert 0 < w by {
      if w <= 0 {
        MulLeftMonotone(0, h, w);
        assert false;
      }
    }
    if h <= i / w {
      MulLeftMonotone(h, i / w, w);
      assert false;
    }
  }

  lemma MulLeftMonotone(a: int, b: int, w: int)
    requires a <= b && 0 <= w
    ensures a * w <= b * w
  {
  }

  /**
   * The buffer after writing `c` at pixel `(x, y)`: the pixel's own cell
   * changes when it is in bounds, nothing changes otherwise.
   */
  function WriteCell(cells: seq<Color>, w: int, h: int, x: int, y: int, c: Color): (r: seq<Color>)
    requires 0 <= w && 0 <= h && |cells| == w * h
    ensures |r| == |cells|
    ensures InBounds(x, y, w, h) ==> r[CellIndex(x, y, w, h)] == c
    ensures forall i :: 0 <= i < |cells| && (!InBounds(x, y, w, h) || i != CellIndex(x, y, w, h)) ==> r[i] == cells[i]
    ensures !InBounds(x, y, w, h) ==> r == cells
  {
    if InBounds(x, y, w, h) then
      cells[CellIndex(x, y, w, h) := c]
    else
      cells
  }

  class Image {
    var W: int
    var H: int
    var pix: array<Color>

    predicate Valid()
      reads this
    {
      0 <= W && 0 <= H && pix.Length == W * H
    }

    /** The colour of pixel `(x, y)`. */
    function At(x: int, y: int): Color
      reads this, pix
      requires Valid() && InBounds(x, y, W, H)
    {
      pix[CellIndex(x, y, W, H)]
    }

    /** `Image(w, h, bg)`: exactly `w * h` cells, each `bg`. */
    constructor (w: int, h: int, bg: Color)
      requires 0 <= w && 0 <= h
      ensures Valid() && W == w && H == h && fresh(pix)
      ensures pix[..] == seq(w * h, _ => bg)
    {
      W, H := w, h;
      pix := new Color[w * h](_ => bg);
    }

    /**
     * `PutPixel`: an in-bounds write sets the one cell of `(x, y)`; an
     * out-of-bounds write is ignored.
     */
    method PutPixel(x: int, y: int, c: Color)
      requires Valid()
      modifies pix
      ensures Valid()
      ensures pix[..] == WriteCell(old(pix[..]), W, H, x, y, c)
      ensures InBounds(x, y, W, H) ==> At(x, y) == c
      ensures forall x', y' {:trigger At(x', y')} :: InBounds(x', y', W, H) && (x', y') != (x, y) ==> At(x', y') == old(pix[CellIndex(x', y', W, H)])
    {
      if x < 0 || x >= W || y < 0 || y >= H {
        return;
      }
      var i := CellIndex(x, y, W, H);
      pix[i] := c;
      forall x', y' | InBounds(x', y', W, H) && (x', y') != (x, y)
        ensures At(x', y') == old(pix[CellIndex(x', y', W, H)])
      {
        if CellIndex(x', y', W, H) == CellIndex(x, y, W, H) {
          CellIndexInjective(x, y, x', y', W, H);
        }
      }
    }
  }
}
