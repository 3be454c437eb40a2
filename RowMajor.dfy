/** Row-major layout of a square or rectangular grid in a flat buffer:
    the `RM(i, j, width)` macro of the C++ matrix multiply, which the
    mandelbrot drivers also spell out as `j * width + i`. */
module RowMajor {

  /** Offset of row `i`, column `j` in a buffer whose rows are `w` wide:
      the cells of row i occupy the w offsets from i * w on. */
  function RM(i: nat, j: nat, w: nat): (r: nat)
    ensures j < w ==> i * w <= r < (i + 1) * w
  {
    i * w + j
  }

  lemma MulMonotone(a: nat, b: nat, w: nat)
    requires a <= b
    ensures a * w <= b * w
  {
  }

  /** Every (row, column) pair of an h-by-w grid lands inside the buffer. */
  lemma {:induction false} RMInRange(i: nat, j: nat, w: nat, h: nat)
    requires i < h && j < w
    ensures RM(i, j, w) < h * w
  {
    MulMonotone(i + 1, h, w);
    assert (i + 1) * w == i * w + w;
  }

  /** Row and column are recovered from the offset by division and remainder. */
  lemma {:induction false} RMDivMod(i: nat, j: nat, w: nat)
    requires j < w
    ensures RM(i, j, w) / w == i && RM(i, j, w) % w == j
  {
    var n := RM(i, j, w);
    var q, r := n / w, n % w;
    assert q * w + r == i * w + j;
    if q < i {
      MulMonotone(q + 1, i, w);
    } else if q > i {
      MulMonotone(i + 1, q, w);
    }
  }

  /** Two distinct cells of a grid never share an offset. */
  lemma RMInjective(i: nat, j: nat, i': nat, j': nat, w: nat)
    requires j < w && j' < w
    requires RM(i, j, w) == RM(i', j', w)
    ensures i == i' && j == j'
  {
    RMDivMod(i, j, w);
    RMDivMod(i', j', w);
  }

  /** Every offset below h*w is the image of exactly the cell (n / w, n % w),
      and that cell lies inside the grid: the pixel-wise decomposition
      `y = n / w; x = n - y * w` inverts `RM`. */
  lemma {:induction false} RMSplit(n: nat, w: nat, h: nat)
    requires n < h * w
    ensures w > 0
    ensures n / w < h && n % w < w
    ensures n - (n / w) * w == n % w
    ensures RM(n / w, n % w, w) == n
  {
    if n / w >= h {
      MulMonotone(h, n / w, w);
      assert false;
    }
  }

  /** Row y of a w-wide buffer is the run of offsets RM(y, 0, w) ..
      RM(y, 0, w) + w - 1, and these are exactly the offsets whose quotient
      by w is y: the chunk of `chunks_mut(w)` numbered y. */
  lemma {:induction false} RowOf(n: nat, y: nat, w: nat)
    requires w > 0
    ensures n / w == y <==> RM(y, 0, w) <= n < RM(y, 0, w) + w
  {
    if RM(y, 0, w) <= n < RM(y, 0, w) + w {
      RMDivMod(y, n - RM(y, 0, w), w);
    } else if n / w == y {
      RMDivMod(n / w, n % w, w);
    }
  }

  /** Every offset of a buffer of q rows lies in one of rows 0 .. q-1. */
  lemma RowBelow(n: nat, w: nat, q: nat)
    requires n < q * w
    ensures w > 0 && n / w < q
  {
    RMSplit(n, w, q);
  }
}
