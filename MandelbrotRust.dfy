/** The Rust mandelbrot kernels: `mandel_iter`, and the serial, pixel-wise
    (rayon `par_iter_mut`), row-wise (rayon `par_chunks_mut`) and crossbeam
    row-wise loops that fill an img_size-by-img_size image of u32 escape
    counts, row y at offsets y * img_size .. y * img_size + img_size - 1. */
module MandelbrotRust {
  import opened RowMajor
  import opened Schedule
  import opened Escape
  import opened Raster

  /** The parts of `MandelConfig` the kernels read. The float fields (re1,
      img1, x_step, y_step) only serve to build the point of pixel (x, y),
      `Complex32 { re: re1 + x * x_step, im: img1 + y * y_step }`, which is
      left abstract as `point`; `step` and `inDisk` are the iteration
      `c + z * z` and the test `norm_sqr() <= 4.0`. */
  datatype MandelConfig<!C> = MandelConfig(
    maxIter: nat,
    imgSize: nat,
    point: (nat, nat) -> C,
    step: (C, C) -> C,
    inDisk: C -> bool)

  /** `mandel_iter`: z starts at c and is stepped while it stays in the
      disk and fewer than max_iter steps were taken; the result is the
      escape count of c, a value in [0, max_iter]. */
  method MandelIter<C>(maxIter: nat, c: C, step: (C, C) -> C, inDisk: C -> bool)
    returns (iter: nat)
    ensures iter == EscapeTime(step, inDisk, c, maxIter)
    ensures iter <= maxIter
    ensures !inDisk(c) ==> iter == 0
  {
    var z := c;
    iter := 0;
    while inDisk(z) && iter < maxIter
      invariant iter <= maxIter
      invariant z == Orbit(step, c, iter)
      invariant EscapeFrom(step, inDisk, c, iter, maxIter) == EscapeTime(step, inDisk, c, maxIter)
      decreases maxIter - iter
    {
      z := step(c, z);
      iter := iter + 1;
    }
    EscapeTimeMeaning(step, inDisk, c, maxIter);
  }

  /** The escape count of pixel (x, y). */
  function Pixel<C>(cfg: MandelConfig<C>, x: nat, y: nat): nat
  {
    EscapeTime(cfg.step, cfg.inDisk, cfg.point(x, y), cfg.maxIter)
  }

  function PixelOf<C>(cfg: MandelConfig<C>): (nat, nat) -> nat
  {
    (x, y) => Pixel(cfg, x, y)
  }

  /** The image every variant should produce: img_size^2 pixels, pixel
      (x, y) at offset y * img_size + x. */
  function Image<C>(cfg: MandelConfig<C>): seq<nat>
  {
    Grid(cfg.imgSize, cfg.imgSize, PixelOf(cfg))
  }

  /** What the pixel-wise closure writes at offset n: the pixel at row
      y = n / img_size, column x = n - y * img_size. */
  function PixelAtIndex<C>(cfg: MandelConfig<C>, n: nat): nat
    requires cfg.imgSize > 0
  {
    var y := n / cfg.imgSize;
    var x := n - y * cfg.imgSize;
    Pixel(cfg, x, y)
  }

  /** For n < img_size^2, y = n / img_size and x = n - y * img_size give a
      pixel of the image with y * img_size + x = n: the pixel-wise
      decomposition inverts the serial index and finds the same value. */
  lemma IndexDecomposition<C>(cfg: MandelConfig<C>, n: nat)
    requires n < cfg.imgSize * cfg.imgSize
    ensures cfg.imgSize > 0
    ensures var y := n / cfg.imgSize; var x := n - y * cfg.imgSize;
      x < cfg.imgSize && y < cfg.imgSize && RM(y, x, cfg.imgSize) == n
    ensures PixelAtIndex(cfg, n) == Image(cfg)[n]
  {
    RMSplit(n, cfg.imgSize, cfg.imgSize);
    GridIndex(cfg.imgSize, cfg.imgSize, PixelOf(cfg), n);
  }

  /** The value written at the serial index of pixel (x, y) is the value the
      pixel-wise decomposition assigns to that index. */
  lemma PixelAtSerialIndex<C>(cfg: MandelConfig<C>, x: nat, y: nat)
    requires x < cfg.imgSize
    ensures PixelAtIndex(cfg, RM(y, x, cfg.imgSize)) == Pixel(cfg, x, y)
  {
    RMDivMod(y, x, cfg.imgSize);
  }

  /** `mandelbrot_serial`: for y, then x, below img_size, writes pixel
      (x, y) at y * img_size + x. The first img_size^2 entries become the
      image, and the rest are untouched.
      A shorter buffer would make the index panic. */
  method MandelbrotSerial<C>(cfg: MandelConfig<C>, image: array<nat>)
    requires cfg.imgSize * cfg.imgSize <= image.Length
    modifies image
    ensures image[..cfg.imgSize * cfg.imgSize] == Image(cfg)
    ensures image[cfg.imgSize * cfg.imgSize..] == old(image[cfg.imgSize * cfg.imgSize..])
  {
    var size := cfg.imgSize;
    ghost var img := Image(cfg);
    for y := 0 to size
      invariant RM(y, 0, size) <= size * size
      invariant forall n :: 0 <= n < RM(y, 0, size) ==> image[n] == img[n]
      invariant forall n :: RM(y, 0, size) <= n < image.Length ==> image[n] == old(image[n])
    {
      MulMonotone(y + 1, size, size);
      assert RM(y + 1, 0, size) == RM(y, 0, size) + size;
      for x := 0 to size
        invariant forall n :: 0 <= n < RM(y, x, size) ==> image[n] == img[n]
        invariant forall n :: RM(y, x, size) <= n < image.Length ==> image[n] == old(image[n])
      {
        GridAt(size, size, PixelOf(cfg), x, y);
        var index := y * size + x;
        image[index] := MandelIter(cfg.maxIter, cfg.point(x, y), cfg.step, cfg.inDisk);
      }
    }
    assert image[..size * size] == img;
  }

  /** `rayon_mandelbrot_pixel`: every offset n of the buffer, in whatever
      order the pool runs them, receives the pixel at y = n / img_size,
      x = n - y * img_size. On the buffer `main` allocates, of img_size^2
      entries, that is exactly the serial image. The division needs
      img_size > 0, which `parse_arguments` asserts. */
  method RayonMandelbrotPixel<C>(cfg: MandelConfig<C>, image: array<nat>, schedule: seq<nat>)
    requires cfg.imgSize > 0
    requires Covers(schedule, image.Length)
    modifies image
    ensures forall n :: 0 <= n < image.Length ==> image[n] == PixelAtIndex(cfg, n)
    ensures image.Length == cfg.imgSize * cfg.imgSize ==> image[..] == Image(cfg)
  {
    for t := 0 to |schedule|
      invariant forall n :: 0 <= n < image.Length && n in schedule[..t] ==> image[n] == PixelAtIndex(cfg, n)
    {
      assert schedule[..t + 1] == schedule[..t] + [schedule[t]];
      var n := schedule[t];
      var y := n / cfg.imgSize;
      var x := n - y * cfg.imgSize;
      image[n] := MandelIter(cfg.maxIter, cfg.point(x, y), cfg.step, cfg.inDisk);
    }
    assert schedule[..|schedule|] == schedule;
    if image.Length == cfg.imgSize * cfg.imgSize {
      forall n | 0 <= n < image.Length ensures image[n] == Image(cfg)[n] {
        IndexDecomposition(cfg, n);
      }
    }
  }

  /** The body of the row closure: chunk y of width img_size is the slice
      image[y * img_size ..], so `slice[x]` is image[y * img_size + x];
      only that chunk changes. */
  method FillRow<C>(cfg: MandelConfig<C>, image: array<nat>, y: nat)
    requires cfg.imgSize > 0
    requires RM(y, 0, cfg.imgSize) + cfg.imgSize <= image.Length
    modifies image
    ensures forall n :: 0 <= n < image.Length ==>
      image[n] == if RM(y, 0, cfg.imgSize) <= n < RM(y, 0, cfg.imgSize) + cfg.imgSize
                  then PixelAtIndex(cfg, n) else old(image[n])
  {
    var size := cfg.imgSize;
    for x := 0 to size
      invariant forall n :: 0 <= n < image.Length ==>
        image[n] == if RM(y, 0, size) <= n < RM(y, x, size) then PixelAtIndex(cfg, n) else old(image[n])
    {
      PixelAtSerialIndex(cfg, x, y);
      image[y * size + x] := MandelIter(cfg.maxIter, cfg.point(x, y), cfg.step, cfg.inDisk);
    }
  }

  /** The chunk loop shared by both row-wise variants: the chunks numbered
      in `schedule`, which covers all of them, are filled one after
      another. Afterwards every offset holds the pixel that the pixel-wise
      variant writes there. */
  method FillRows<C>(cfg: MandelConfig<C>, image: array<nat>, schedule: seq<nat>)
    requires cfg.imgSize > 0 && image.Length % cfg.imgSize == 0
    requires Covers(schedule, image.Length / cfg.imgSize)
    modifies image
    ensures forall n :: 0 <= n < image.Length ==> image[n] == PixelAtIndex(cfg, n)
  {
    var size := cfg.imgSize;
    var rows := image.Length / size;
    assert image.Length == RM(rows, 0, size);
    for t := 0 to |schedule|
      invariant forall n :: 0 <= n < image.Length && n / size in schedule[..t] ==>
        image[n] == PixelAtIndex(cfg, n)
    {
      assert schedule[..t + 1] == schedule[..t] + [schedule[t]];
      var y := schedule[t];
      MulMonotone(y + 1, rows, size);
      FillRow(cfg, image, y);
      forall n | 0 <= n < image.Length && n / size == y
        ensures RM(y, 0, size) <= n < RM(y, 0, size) + size
      {
        RowOf(n, y, size);
      }
    }
    assert schedule[..|schedule|] == schedule;
    forall n | 0 <= n < image.Length ensures n / size in schedule {
      RowBelow(n, size, rows);
    }
  }

  /** `rayon_mandelbrot_row`: `par_chunks_mut(img_size)` numbers the chunks
      y = 0, 1, ... and the pool fills them in any order; it yields the
      pixel-wise result, hence the serial image on a buffer of img_size^2
      entries. A chunk size of 0 or a short last chunk would panic, so the
      buffer is a whole number of rows. */
  method RayonMandelbrotRow<C>(cfg: MandelConfig<C>, image: array<nat>, schedule: seq<nat>)
    requires cfg.imgSize > 0 && image.Length % cfg.imgSize == 0
    requires Covers(schedule, image.Length / cfg.imgSize)
    modifies image
    ensures forall n :: 0 <= n < image.Length ==> image[n] == PixelAtIndex(cfg, n)
    ensures image.Length == cfg.imgSize * cfg.imgSize ==> image[..] == Image(cfg)
  {
    FillRows(cfg, image, schedule);
    SameAsSerial(cfg, image);
  }

  /** `crossbeam_manderlbrot_row`: one spawned thread per chunk of
      `chunks_mut(img_size)`, all joined at the end of the scope; the same
      result as the rayon row variant. */
  method CrossbeamManderlbrotRow<C>(cfg: MandelConfig<C>, image: array<nat>, schedule: seq<nat>)
    requires cfg.imgSize > 0 && image.Length % cfg.imgSize == 0
    requires Covers(schedule, image.Length / cfg.imgSize)
    modifies image
    ensures forall n :: 0 <= n < image.Length ==> image[n] == PixelAtIndex(cfg, n)
    ensures image.Length == cfg.imgSize * cfg.imgSize ==> image[..] == Image(cfg)
  {
    FillRows(cfg, image, schedule);
    SameAsSerial(cfg, image);
  }

  /** A buffer of img_size^2 entries holding at every offset the value the
      pixel-wise decomposition assigns to it is the serial image. */
  lemma SameAsSerial<C>(cfg: MandelConfig<C>, image: array<nat>)
    requires cfg.imgSize > 0
    requires forall n :: 0 <= n < image.Length ==> image[n] == PixelAtIndex(cfg, n)
    ensures image.Length == cfg.imgSize * cfg.imgSize ==> image[..] == Image(cfg)
  {
    if image.Length == cfg.imgSize * cfg.imgSize {
      forall n | 0 <= n < image.Length ensures image[n] == Image(cfg)[n] {
        IndexDecomposition(cfg, n);
      }
    }
  }
}
