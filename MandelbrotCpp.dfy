/** The C++ mandelbrot kernels: `mandel`, and the serial, pixel-parallel
    (an OpenMP `parallel for` over the columns of each row) and
    row-parallel (an OpenMP `parallel for` over the rows) loops that fill a
    width-by-height `int` buffer, pixel (i, j) at offset j * width + i. */
module MandelbrotCpp {
  import opened RowMajor
  import opened Schedule
  import opened Escape
  import opened Raster
  import opened ResultCheck

  /** The arguments the kernels share. The float arguments x0, y0, x1, y1
      only serve to build the point (x0 + i * dx, y0 + j * dy) of pixel
      (i, j), which is left abstract as `point`; `step` is the update of
      (z_re, z_im) and `escaped` the test `z_re * z_re + z_im * z_im > 4.f`. */
  datatype KernelArgs<!C> = KernelArgs(
    width: nat,
    height: nat,
    maxIterations: int,
    point: (nat, nat) -> C,
    step: (C, C) -> C,
    escaped: C -> bool)

  /** `mandel`: i counts up from 0 while i < count, breaking out as soon as
      z has escaped; the result is the escape count of c, 0 when count is
      not positive. */
  method Mandel<C>(c: C, count: int, step: (C, C) -> C, escaped: C -> bool) returns (i: nat)
    ensures i == MandelCount(step, escaped, c, count)
    ensures count <= 0 ==> i == 0
    ensures count > 0 ==> i <= count
  {
    var z := c;
    i := 0;
    while i < count
      invariant z == Orbit(step, c, i)
      invariant CountFrom(step, escaped, c, i, count) == MandelCount(step, escaped, c, count)
      invariant count > 0 ==> i <= count
      decreases count - i
    {
      if escaped(z) {
        break;
      }
      z := step(c, z);
      i := i + 1;
    }
    MandelCountMeaning(step, escaped, c, count);
  }

  /** The value `mandel` computes for pixel (i, j). */
  function Pixel<C>(args: KernelArgs<C>, i: nat, j: nat): nat
  {
    MandelCount(args.step, args.escaped, args.point(i, j), args.maxIterations)
  }

  function PixelOf<C>(args: KernelArgs<C>): (nat, nat) -> nat
  {
    (i, j) => Pixel(args, i, j)
  }

  /** The picture every variant should leave in the first width * height
      entries of `output`. */
  function Image<C>(args: KernelArgs<C>): seq<nat>
  {
    Grid(args.width, args.height, PixelOf(args))
  }

  /** `mandelbrotSerial`: for j below height, then i below width, writes
      pixel (i, j) at j * width + i. The first width * height entries become
      the picture, and nothing past it changes. */
  method MandelbrotSerial<C>(args: KernelArgs<C>, output: array<int>)
    requires args.height * args.width <= output.Length
    modifies output
    ensures output[..args.height * args.width] == Image(args)
    ensures output[args.height * args.width..] == old(output[args.height * args.width..])
  {
    var width, height := args.width, args.height;
    ghost var img := Image(args);
    for j := 0 to height
      invariant RM(j, 0, width) <= height * width
      invariant forall n :: 0 <= n < RM(j, 0, width) ==> output[n] == img[n]
      invariant forall n :: RM(j, 0, width) <= n < output.Length ==> output[n] == old(output[n])
    {
      MulMonotone(j + 1, height, width);
      assert RM(j + 1, 0, width) == RM(j, 0, width) + width;
      for i := 0 to width
        invariant forall n :: 0 <= n < RM(j, i, width) ==> output[n] == img[n]
        invariant forall n :: RM(j, i, width) <= n < output.Length ==> output[n] == old(output[n])
      {
        GridAt(width, height, PixelOf(args), i, j);
        var index := j * width + i;
        output[index] := Mandel(args.point(i, j), args.maxIterations, args.step, args.escaped);
      }
    }
    assert output[..height * width] == img;
  }

  /** `mandelbrot_pixel_parallel`: the rows in order, and within row j the
      columns in the order `columns[j]`, which covers them all. The picture
      is the serial one and nothing past it changes. */
  method MandelbrotPixelParallel<C>(args: KernelArgs<C>, output: array<int>, columns: seq<seq<nat>>)
    requires args.height * args.width <= output.Length
    requires |columns| == args.height
    requires forall j :: 0 <= j < args.height ==> Covers(columns[j], args.width)
    modifies output
    ensures output[..args.height * args.width] == Image(args)
    ensures output[args.height * args.width..] == old(output[args.height * args.width..])
  {
    var width, height := args.width, args.height;
    ghost var img := Image(args);
    for j := 0 to height
      invariant RM(j, 0, width) <= height * width
      invariant forall n :: 0 <= n < RM(j, 0, width) ==> output[n] == img[n]
      invariant forall n :: RM(j, 0, width) <= n < output.Length ==> output[n] == old(output[n])
    {
      MulMonotone(j + 1, height, width);
      assert RM(j + 1, 0, width) == RM(j, 0, width) + width;
      ghost var before := output[..];
      var order := columns[j];
      for t := 0 to |order|
        invariant forall i' :: 0 <= i' < width && i' in order[..t] ==>
          output[RM(j, i', width)] == img[RM(j, i', width)]
        invariant forall n :: 0 <= n < output.Length && !(RM(j, 0, width) <= n < RM(j, 0, width) + width) ==>
          output[n] == before[n]
      {
        assert order[..t + 1] == order[..t] + [order[t]];
        var i := order[t];
        GridAt(width, height, PixelOf(args), i, j);
        var index := j * width + i;
        output[index] := Mandel(args.point(i, j), args.maxIterations, args.step, args.escaped);
      }
      assert order[..|order|] == order;
      forall n | RM(j, 0, width) <= n < RM(j, 0, width) + width
        ensures output[n] == img[n]
      {
        assert n == RM(j, n - RM(j, 0, width), width);
      }
    }
    assert output[..height * width] == img;
  }

  /** The body of the row-parallel loop for row j: columns 0 .. width-1 in
      order; row j becomes row j of the picture and nothing else changes. */
  method FillRow<C>(args: KernelArgs<C>, output: array<int>, j: nat)
    requires j < args.height
    requires args.height * args.width <= output.Length
    modifies output
    ensures RM(j, 0, args.width) + args.width <= args.height * args.width
    ensures forall n :: 0 <= n < output.Length ==>
      output[n] == if RM(j, 0, args.width) <= n < RM(j, 0, args.width) + args.width
                   then Image(args)[n] else old(output[n])
  {
    var width, height := args.width, args.height;
    ghost var img := Image(args);
    MulMonotone(j + 1, height, width);
    for i := 0 to width
      invariant forall n :: 0 <= n < output.Length ==>
        output[n] == if RM(j, 0, width) <= n < RM(j, i, width) then img[n] else old(output[n])
    {
      GridAt(width, height, PixelOf(args), i, j);
      var index := j * width + i;
      output[index] := Mandel(args.point(i, j), args.maxIterations, args.step, args.escaped);
    }
  }

  /** `mandelbrot_row_parallel`: the rows in the order `rows`, which covers
      them all, each filled column by column. The picture is the serial
      one and nothing past it changes. */
  method MandelbrotRowParallel<C>(args: KernelArgs<C>, output: array<int>, rows: seq<nat>)
    requires args.height * args.width <= output.Length
    requires Covers(rows, args.height)
    modifies output
    ensures output[..args.height * args.width] == Image(args)
    ensures output[args.height * args.width..] == old(output[args.height * args.width..])
  {
    var width, height := args.width, args.height;
    ghost var img := Image(args);
    for t := 0 to |rows|
      invariant forall n :: 0 < width && 0 <= n < height * width && n / width in rows[..t] ==>
        output[n] == img[n]
      invariant forall n :: height * width <= n < output.Length ==> output[n] == old(output[n])
    {
      assert rows[..t + 1] == rows[..t] + [rows[t]];
      var j := rows[t];
      FillRow(args, output, j);
      forall n | 0 < width && 0 <= n < height * width && n / width == j
        ensures RM(j, 0, width) <= n < RM(j, 0, width) + width
      {
        RowOf(n, j, width);
      }
    }
    assert rows[..|rows|] == rows;
    forall n | 0 <= n < height * width ensures output[n] == img[n] {
      RMSplit(n, width, height);
    }
    assert output[..height * width] == img;
  }
  /** The checks of `do_runs` with both kinds of run enabled: the serial
      picture is the gold output, and `verifyResult` accepts the
      pixel-parallel and the row-parallel outputs against it, whatever order
      the OpenMP threads take. */
  method RunAndVerify<C>(args: KernelArgs<C>, outputSerial: array<int>, outputParallel: array<int>,
                         outputParallelRow: array<int>, columns: seq<seq<nat>>, rows: seq<nat>)
    returns (okPixel: bool, okRow: bool)
    requires outputSerial.Length == args.width * args.height
    requires outputParallel.Length == args.width * args.height
    requires outputParallelRow.Length == args.width * args.height
    requires outputSerial != outputParallel && outputSerial != outputParallelRow
    requires outputParallel != outputParallelRow
    requires |columns| == args.height
    requires forall j :: 0 <= j < args.height ==> Covers(columns[j], args.width)
    requires Covers(rows, args.height)
    modifies outputSerial, outputParallel, outputParallelRow
    ensures okPixel && okRow
  {
    MandelbrotSerial(args, outputSerial);
    MandelbrotPixelParallel(args, outputParallel, columns);
    okPixel := VerifyResult(outputSerial, outputParallel, args.width, args.height);
    MandelbrotRowParallel(args, outputParallelRow, rows);
    okRow := VerifyResult(outputSerial, outputParallelRow, args.width, args.height);
  }
}
