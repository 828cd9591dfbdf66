/**
 * The 2D drawing surface the editor works on, reduced to the four operations the
 * session uses: reading the whole pixel buffer (getImageData), overwriting it
 * (putImageData, and drawImage of a freshly loaded image) and filling a rectangle
 * with one colour (fillRect). Pixels are held in an array2 indexed [row, column].
 */
module Canvas {
  import opened Types

  /** `g` is exactly the pixel content of `a`. */
  ghost predicate Holds(a: array2<Color>, g: Raster)
    reads a
  {
    IsGrid(g, a.Length0, a.Length1) &&
    forall i, j :: 0 <= i < a.Length0 && 0 <= j < a.Length1 ==> g[i][j] == a[i, j]
  }

  /** The pixel content of `a` as a value. */
  ghost function Pixels(a: array2<Color>): (g: Raster)
    reads a
    ensures Holds(a, g)
  {
    seq(a.Length0, i requires 0 <= i < a.Length0 reads a =>
      seq(a.Length1, j requires 0 <= j < a.Length1 reads a => a[i, j]))
  }

  /** A pixel buffer has one content: two values that both hold it are equal. */
  lemma HoldsUnique(a: array2<Color>, g: Raster, g': Raster)
    requires Holds(a, g) && Holds(a, g')
    ensures g == g'
  {
    forall i | 0 <= i < |g|
      ensures g[i] == g'[i]
    {
      assert |g[i]| == |g'[i]| == a.Length1;
      forall j | 0 <= j < |g[i]|
        ensures g[i][j] == g'[i][j]
      {
      }
    }
  }

  /** getImageData over the whole canvas: a copy of every pixel, row by row. */
  method GetImageData(a: array2<Color>) returns (g: Raster)
    ensures g == Pixels(a)
  {
    g := [];
    for i := 0 to a.Length0
      invariant |g| == i
      invariant forall k :: 0 <= k < i ==> |g[k]| == a.Length1
      invariant forall k, j :: 0 <= k < i && 0 <= j < a.Length1 ==> g[k][j] == a[k, j]
    {
      var row: seq<Color> := [];
      for j := 0 to a.Length1
        invariant |row| == j
        invariant forall m :: 0 <= m < j ==> row[m] == a[i, m]
      {
        row := row + [a[i, j]];
      }
      g := g + [row];
    }
    HoldsUnique(a, g, Pixels(a));
  }

  /** putImageData at (0, 0) of a buffer of the canvas's own size: every pixel is overwritten. */
  method PutImageData(a: array2<Color>, g: Raster)
    requires IsGrid(g, a.Length0, a.Length1)
    modifies a
    ensures Pixels(a) == g
  {
    for i := 0 to a.Length0
      invariant forall k, j :: 0 <= k < i && 0 <= j < a.Length1 ==> a[k, j] == g[k][j]
    {
      for j := 0 to a.Length1
        invariant forall k, m :: 0 <= k < i && 0 <= m < a.Length1 ==> a[k, m] == g[k][m]
        invariant forall m :: 0 <= m < j ==> a[i, m] == g[i][m]
      {
        a[i, j] := g[i][j];
      }
    }
    HoldsUnique(a, g, Pixels(a));
  }

  /** Sizing the canvas to a loaded image and drawing the image at (0, 0). */
  method DrawImage(img: Raster, rows: nat, cols: nat) returns (a: array2<Color>)
    requires IsGrid(img, rows, cols)
    ensures fresh(a)
    ensures a.Length0 == rows && a.Length1 == cols
    ensures Pixels(a) == img
  {
    a := new Color[rows, cols];
    PutImageData(a, img);
  }

  /**
   * fillRect clipped to the canvas: the pixels inside `r` take colour `c`, every
   * other pixel keeps its value.
   */
  method FillRect(a: array2<Color>, r: Rect, c: Color)
    requires r.w >= 0 && r.h >= 0
    modifies a
    ensures forall i, j :: 0 <= i < a.Length0 && 0 <= j < a.Length1 ==>
      a[i, j] == if Covers(r, j, i) then c else old(a[i, j])
  {
    var top := if r.y < 0 then 0 else r.y;
    var bottom := if r.y + r.h > a.Length0 then a.Length0 else r.y + r.h;
    var left := if r.x < 0 then 0 else r.x;
    var right := if r.x + r.w > a.Length1 then a.Length1 else r.x + r.w;
    var i := top;
    while i < bottom
      invariant top <= i && (top <= bottom ==> i <= bottom)
      invariant forall k, j :: 0 <= k < a.Length0 && 0 <= j < a.Length1 ==>
        a[k, j] == if k < i && Covers(r, j, k) then c else old(a[k, j])
    {
      var j := left;
      while j < right
        invariant left <= j && (left <= right ==> j <= right)
        invariant forall k, m :: 0 <= k < a.Length0 && 0 <= m < a.Length1 ==>
          a[k, m] == if (k < i || (k == i && m < j)) && Covers(r, m, k) then c else old(a[k, m])
      {
        a[i, j] := c;
        j := j + 1;
      }
      i := i + 1;
    }
  }
}
