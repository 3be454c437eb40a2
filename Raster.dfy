/** A picture of w columns and h rows stored row by row in a flat buffer,
    as both mandelbrot programs lay out their output. */
module Raster {
  import opened RowMajor

  /** The w-by-h picture whose cell in column x of row y, at offset
      RM(y, x, w), is f(x, y). */
  function Grid(w: nat, h: nat, f: (nat, nat) -> nat): (g: seq<nat>)
    ensures |g| == h * w
  {
    seq(h * w, n requires 0 <= n < h * w => RMSplit(n, w, h); f(n % w, n / w))
  }

  /** The cell of column x, row y lies inside the picture and holds f(x, y). */
  lemma GridAt(w: nat, h: nat, f: (nat, nat) -> nat, x: nat, y: nat)
    requires x < w && y < h
    ensures RM(y, x, w) < |Grid(w, h, f)|
    ensures Grid(w, h, f)[RM(y, x, w)] == f(x, y)
  {
    RMInRange(y, x, w, h);
    RMDivMod(y, x, w);
  }

  /** Offset n of the picture holds f at column n % w of row n / w. */
  lemma GridIndex(w: nat, h: nat, f: (nat, nat) -> nat, n: nat)
    requires n < h * w
    ensures w > 0 && n / w < h && n % w < w
    ensures Grid(w, h, f)[n] == f(n % w, n / w)
  {
    RMSplit(n, w, h);
  }
}
