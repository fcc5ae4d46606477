/**
 * Pixels and pixel buffers as the heightmap engine sees them: an `Rgba<u8>`
 * pixel, and an `ImageBuffer` addressed by column x and row y through
 * `get_pixel(x, y)` / `put_pixel(x, y, p)`. A buffer is an `array2` whose first
 * dimension is the width; its contents as a value are a grid `g` with
 * `g[x][y]` the pixel at column x, row y.
 */
module Image {

  /** An 8-bit channel value (Rust `u8`). */
  type Byte = x: int | 0 <= x < 256

  /** An RGBA pixel with 8-bit channels. */
  datatype Pixel = Rgba(r: Byte, g: Byte, b: Byte, a: Byte)
  {
    /** Channel `i`, in the order R, G, B, A (`pixel[i]` in the source). */
    function Channel(i: nat): Byte
      requires i < 4
    {
      if i == 0 then r else if i == 1 then g else if i == 2 then b else a
    }

    /** This pixel with channel `i` set to `v` (`pixel[i] = v`). */
    function WithChannel(i: nat, v: Byte): (q: Pixel)
      requires i < 4
      ensures q.Channel(i) == v
      ensures forall k :: 0 <= k < 4 && k != i ==> q.Channel(k) == Channel(k)
    {
      if i == 0 then this.(r := v)
      else if i == 1 then this.(g := v)
      else if i == 2 then this.(b := v)
      else this.(a := v)
    }
  }

  /** Pixels that agree on all four channels are equal. */
  lemma PixelEq(p: Pixel, q: Pixel)
    requires forall k :: 0 <= k < 4 ==> p.Channel(k) == q.Channel(k)
    ensures p == q
  {
    assert p.Channel(0) == q.Channel(0) && p.Channel(1) == q.Channel(1);
    assert p.Channel(2) == q.Channel(2) && p.Channel(3) == q.Channel(3);
  }

  /** The contents of a buffer: `g[x][y]` is the pixel at column x, row y. */
  type Grid = seq<seq<Pixel>>

  predicate InGrid(x: int, y: int, width: nat, height: nat)
  {
    0 <= x < width && 0 <= y < height
  }

  /** Every coordinate pair in `cells` lies on a `width` by `height` grid. */
  predicate CellsInGrid(cells: seq<(int, int)>, width: nat, height: nat)
  {
    forall k :: 0 <= k < |cells| ==> 0 <= cells[k].0 < width && 0 <= cells[k].1 < height
  }

  /** `g` holds `width` columns of `height` pixels each. */
  predicate IsGrid(g: Grid, width: nat, height: nat)
  {
    |g| == width && forall x :: 0 <= x < width ==> |g[x]| == height
  }

  /** The current contents of a buffer (what `clone()` copies). */
  function Cells(a: array2<Pixel>): (g: Grid)
    reads a
    ensures IsGrid(g, a.Length0, a.Length1)
    ensures forall x, y :: InGrid(x, y, a.Length0, a.Length1) ==> g[x][y] == a[x, y]
  {
    seq(a.Length0, x requires 0 <= x < a.Length0 reads a =>
      seq(a.Length1, y requires 0 <= y < a.Length1 reads a => a[x, y]))
  }

  /** Two grids of the same shape that agree on every pixel are equal. */
  lemma GridEq(g1: Grid, g2: Grid, width: nat, height: nat)
    requires IsGrid(g1, width, height) && IsGrid(g2, width, height)
    requires forall x, y :: InGrid(x, y, width, height) ==> g1[x][y] == g2[x][y]
    ensures g1 == g2
  {
    forall x | 0 <= x < width
      ensures g1[x] == g2[x]
    {
      assert forall y :: 0 <= y < height ==> g1[x][y] == g2[x][y];
    }
  }
}
