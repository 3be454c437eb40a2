# Parallel micro-benchmark kernels, modelled in Dafny

The repository is a set of independent benchmark programs. Each runs one
numeric kernel in a serial form and one or more data-parallel forms, then
reports the best time and the speedup. This project models the integer parts
of those kernels and the checks the drivers make on their results:

- **C++ matrix multiply** (`C++/matrixmultiply/main.cpp`):
  - the `RM` row-major macro;
  - the kernels `matmul_serial`, `matmul_serial2`, `matmul_par_row` and `matmul_par_row_outer`;
  - the value range of `random_init`;
  - the checker `verifyResult`.
- **Rust Fibonacci** (`rust/fibonacci/src/main.rs`):
  - the iterative loop;
  - the two `rayon::join` recursions;
  - the sum over the pieces that `rayon::iter::split` produces.
  - All u64 additions wrap modulo 2^64, as in a release build.
- **Rust sort** (`rust/quick_sort/src/main.rs`):
  - the `is_sorted` checker;
  - the four sort wrappers, which carry the contract of the library sorts they call.
- **Mandelbrot, Rust and C++**:
  - the escape-count loops `mandel_iter` and `mandel`;
  - the image layout written by each serial and parallel variant;
  - the view tables and `scale_and_shift`.
  - The float arithmetic is left abstract. The point of a pixel, the step `c + z*z` and the escape test are parameters.

Every parallel construct is modelled by its meaning as a set of independent
iterations. This covers OpenMP `parallel for`, rayon `par_iter_mut`,
`par_chunks_mut` and `join`, and crossbeam scoped threads. The iterations
write disjoint cells, so every interleaving leaves the buffer as some serial
order of them does. The model runs them one after another in an arbitrary
order, `schedule`, and proves the result is the same for every order
(module `Schedule`):

- for the `+=` kernel (`matmul_par_row_outer`), each row is required to run exactly once;
- for the overwriting kernels, the order only has to reach every row or pixel.

Modules:

- `RowMajor`: the `RM` offset and its inverse by `/` and `%`.
- `Raster`: a picture stored row by row.
- `Schedule`: the orders in which parallel iterations may run.
- `ResultCheck`: `verifyResult`. The C++ matrix multiply and the C++ mandelbrot carry identical copies.
- `MatMul`, `Fibonacci`, `QuickSort`.
- `Escape`: the escape count shared by both mandelbrot programs.
- `MandelbrotRust`, `MandelbrotCpp`.
- `Views`: the preset views.

Observations on the drivers, which are not modelled:

- The matrix-multiply `do_runs` times `matmul_par_row` a second time under the label "par_outer" (C++/matrixmultiply/main.cpp:193). `matmul_par_row_outer` is never called.
- The matrix-multiply `do_runs` never calls `verifyResult`. So the wrong result of `matmul_par_row` (see Findings) goes unnoticed.
- The sort `do_runs` runs `stable_sort_par` in the loop labelled "Unstable parallel sort" (rust/quick_sort/src/main.rs:207). `unstable_sort_par` is never called.
- The sort `do_runs` does not assert `is_sorted` after the parallel runs.
- The C++ mandelbrot `do_runs` frees the buffers when a comparison fails (C++/mandelbrot/main.cpp:172-173, 190-191). It frees them again at the end (198-200), so a mismatch leads to a double `delete[]`.
- The C++ mandelbrot usage text says `-c 1` means "parallel only" and `-c 2` "serial only". The code does the opposite: it runs the serial version for 0 or 1 (line 148) and the parallel versions for 0 or 2 (line 159). With `-c 2` the parallel outputs are therefore compared against an all-zero serial buffer.
- The C++ matrix multiply advertises a Z-order layout variant, but no such kernel exists:
  - it defines `ZORDER_FLAG` (C++/matrixmultiply/main.cpp:13);
  - its usage text offers `-z` to "Test the Z-order layout style matrix multiplication" (line 29);
  - `main` parses the option (lines 223, 252-257) and passes it to `do_runs` (line 276), which never reads it.

  `rust/matrixmultiply/src/main.rs` is an unfinished stub.

## Model

| member | source | states |
|---|---|---|
| RowMajor.RM | C++/matrixmultiply/main.cpp:16 | the offset `i * width + j` of a cell with j < width lies in row i's block, i*width up to (i+1)*width - 1 |
| RowMajor.RMInRange | C++/matrixmultiply/main.cpp:16 | `RM(i, j, w)` of a cell with i < h, j < w lies below h*w |
| RowMajor.RMInjective | C++/matrixmultiply/main.cpp:16 | two cells with columns below w that share an offset are the same cell |
| RowMajor.RMDivMod | C++/matrixmultiply/main.cpp:16 | the offset divided by w gives back the row i, its remainder the column j |
| RowMajor.RMSplit | rust/mandelbrot/src/main.rs:286-287 | every n < h*w splits into y = n / w < h and x = n - y*w = n % w < w with `RM(y, x, w) == n` |
| RowMajor.RowOf | rust/mandelbrot/src/main.rs:300-303 | chunk y of `chunks_mut(w)` (offsets y*w .. y*w+w-1) is exactly the set of offsets whose quotient by w is y |
| RowMajor.RowBelow | rust/mandelbrot/src/main.rs:300-303 | every offset of a buffer of q whole rows falls in a chunk numbered below q |
| Raster.GridAt | C++/mandelbrot/main.cpp:89 | cell (i, j) of a width-by-height picture sits at offset j*width + i, inside the picture, and holds that pixel's value |
| Raster.GridIndex | rust/mandelbrot/src/main.rs:286-287 | offset n of the picture holds the pixel of column n % w, row n / w |
| Schedule.InOrderIsSchedule | C++/matrixmultiply/main.cpp:115-116 | program order 0 .. n-1 runs every iteration exactly once, so it is one of the orders the parallel kernels admit |
| ResultCheck.GridEqualIffPrefix | C++/matrixmultiply/main.cpp:50-52 | agreement at every `i * width + j` with i < height, j < width is equality of the first width*height entries |
| ResultCheck.VerifyResult | C++/matrixmultiply/main.cpp:45-65 | returns true iff gold and result agree on all width*height cells; stopping after the fifth mismatch only ever returns false (C++/mandelbrot/main.cpp:44-64 is an identical copy) |
| MatMul.ProductEntry | C++/matrixmultiply/main.cpp:72 | entry (i, j) of the product is the full sum over k of A[i][k]*B[k][j] |
| MatMul.AccumulateRow | C++/matrixmultiply/main.cpp:70-74 | one i-iteration adds the full dot product to every C[i][j] and leaves the other rows unchanged |
| MatMul.MatmulSerial | C++/matrixmultiply/main.cpp:68-76 | C becomes old C + A*B, only C is written, and with C zeroed first (line 155) C = A*B |
| MatMul.MatmulParRowOuter | C++/matrixmultiply/main.cpp:112-123 | running each row exactly once in any order gives the result of `matmul_serial` |
| MatMul.AccumulatedIsSum | C++/matrixmultiply/main.cpp:72 | a buffer holding old C + dot product at every cell is old C + A*B |
| MatMul.OverwriteRow | C++/matrixmultiply/main.cpp:81-88 | as written: every C[i][j] of row i is overwritten with the sum over k of A[i][k]*B[k][i]; other rows unchanged |
| MatMul.MatmulSerial2 | C++/matrixmultiply/main.cpp:79-90 | as written: C becomes the matrix whose row i repeats the diagonal entry (A*B)[i][i] |
| MatMul.MatmulParRow | C++/matrixmultiply/main.cpp:93-109 | any order of the rows that reaches each of them gives exactly the `matmul_serial2` result |
| MatMul.DiagonalRowsEntry | C++/matrixmultiply/main.cpp:85 | entry (i, j) of that result equals entry (i, i) of A*B: every row is constant |
| MatMul.OverwrittenIsDiagonalRows | C++/matrixmultiply/main.cpp:87 | a buffer whose every C[i][j] holds row i times column i is the `matmul_serial2` result |
| MatMul.Serial2IsNotProduct | C++/matrixmultiply/main.cpp:85 | for A = B = [[1, 0], [0, 0]], a matrix `random_init` can produce (rand() giving 1, 0, 0, 0), the `matmul_serial2` result differs from A*B |
| MatMul.OverwriteRowCorrected | C++/matrixmultiply/main.cpp:81-88 | with column j of B, row i of C becomes row i of A*B; other rows unchanged |
| MatMul.MatmulSerial2Corrected | C++/matrixmultiply/main.cpp:79-90 | with the index corrected, C = A*B whatever C held before |
| MatMul.MatmulParRowCorrected | C++/matrixmultiply/main.cpp:93-109 | with the index corrected, any covering order of the rows gives C = A*B |
| MatMul.InitValue | C++/matrixmultiply/main.cpp:128-130 | for rval >= 0, `sign * (rval % MAX_RANGE)` lies in (-10, 10), is positive exactly for odd rval, and has rval's parity |
| MatMul.RandomInit | C++/matrixmultiply/main.cpp:125-133 | the entry at offset p is the value of the p-th `rand()` result |
| MatMul.DotBounded | C++/matrixmultiply/main.cpp:72 | with entries in (-10, 10), every partial sum after k terms is within 81*k, hence within int for sides up to 26512143 (the sums only; indices overflow earlier) |
| Fibonacci.AddU64 | rust/fibonacci/src/main.rs:206 | u64 `+` in a release build is the sum modulo 2^64, and the exact sum when that fits |
| Fibonacci.AddAssoc | rust/fibonacci/src/main.rs:247 | wrapping u64 addition is associative, so the order in which `sum` adds the pieces does not matter |
| Fibonacci.FibSerialIterative | rust/fibonacci/src/main.rs:202-211 | returns F(n) modulo 2^64, hence F(n) itself for n <= 92 and 0 for n = 0 |
| Fibonacci.FibValues | rust/fibonacci/src/main.rs:206 | F(93) = 12200160415121876738 < 2^64 <= F(94) = 19740274219868223167 |
| Fibonacci.FibFitsU64 | rust/fibonacci/src/main.rs:205-206 | every addition of the loop fits in u64 (F(n+1) < 2^64) iff n <= 92 |
| Fibonacci.DefaultOverflows | rust/fibonacci/src/main.rs:175 | the default n = 1000 overflows |
| Fibonacci.FibJoin12 | rust/fibonacci/src/main.rs:215-222 | the recursion, larger branch first, returns F(n) modulo 2^64, the value of `fib_serial_iterative(n)` |
| Fibonacci.FibJoin21 | rust/fibonacci/src/main.rs:226-233 | the recursion, smaller branch first, returns what `fib_join_12` returns, for every n |
| Fibonacci.SplitPieces | rust/fibonacci/src/main.rs:239-245 | a split the closure can produce yields at least one piece, every piece is at most n, and n < 2 is never cut |
| Fibonacci.SumFibs | rust/fibonacci/src/main.rs:246-247 | `.map(fib_serial_iterative).sum()` over the pieces is a u64 |
| Fibonacci.SumFibsAppend | rust/fibonacci/src/main.rs:246-247 | the wrapping sum over two runs of pieces is the wrapping sum of their sums |
| Fibonacci.SplitSum | rust/fibonacci/src/main.rs:239-245 | for every way the splitter may cut n (m >= 2 into m-2 and m-1, at any depth), the pieces' F values sum to F(n) modulo 2^64 |
| Fibonacci.FibonacciSplitIterative | rust/fibonacci/src/main.rs:236-248 | returns F(n) modulo 2^64 however far the splitting proceeds |
| QuickSort.IsSorted | rust/quick_sort/src/main.rs:269-275 | `is_sorted(v, sort_order)` is true iff every neighbouring pair v[i-1], v[i] passes the sort order's test |
| QuickSort.AllFromIff | rust/quick_sort/src/main.rs:271 | `(i..len).all(test)` holds iff the test holds at every index of the range, and holds on an empty range |
| QuickSort.IsSortedMeaning | rust/quick_sort/src/main.rs:269-275 | `is_sorted(v, 0)` iff v[i-1] <= v[i] for all 1 <= i < len; for s != 0 iff v[i-1] >= v[i]; always true when len <= 1 |
| QuickSort.ComparatorFor | rust/quick_sort/src/main.rs:235-239 | sort order 0 selects the natural order, any other value the reversed comparator `b.cmp(a)` |
| QuickSort.OrderedIffSorted | rust/quick_sort/src/main.rs:269-275 | a slice is ordered pairwise by the wrapper's comparator iff `is_sorted` accepts it with that sort order |
| QuickSort.Insert | rust/quick_sort/src/main.rs:236 | reference insertion: adds x to the multiset and keeps an ordered sequence ordered |
| QuickSort.Sort | rust/quick_sort/src/main.rs:236 | reference sort: the result is ordered by the comparator and a permutation of the input |
| QuickSort.OrderedUnique | rust/quick_sort/src/main.rs:242-266 | two sequences of u32 ordered by the same comparator with the same multiset are equal |
| QuickSort.OutcomeDetermined | rust/quick_sort/src/main.rs:242-266 | any result meeting the wrappers' postcondition is the reference sort of the input, so stable, unstable, serial and parallel sorts agree |
| QuickSort.ResortUnchanged | rust/quick_sort/src/main.rs:141-144 | re-sorting a slice that is already sorted in the same order leaves it unchanged |
| QuickSort.SortBy | rust/quick_sort/src/main.rs:236-238 | the library sort leaves the slice ordered by the comparator and a permutation of its input |
| QuickSort.SortInOrder | rust/quick_sort/src/main.rs:235-239 | branching on sort_order, the slice ends sorted as `is_sorted(v, sort_order)` checks, and a permutation |
| QuickSort.StableSortSerial | rust/quick_sort/src/main.rs:234-240 | the slice ends sorted in the requested order and a permutation of its input |
| QuickSort.UnstableSortSerial | rust/quick_sort/src/main.rs:242-248 | the slice ends sorted in the requested order and a permutation of its input |
| QuickSort.StableSortPar | rust/quick_sort/src/main.rs:251-257 | the slice ends sorted in the requested order and a permutation of its input |
| QuickSort.UnstableSortPar | rust/quick_sort/src/main.rs:260-266 | the slice ends sorted in the requested order and a permutation of its input |
| Escape.EscapeTimeMeaning | rust/mandelbrot/src/main.rs:340-350 | the count is in [0, max_iter], every earlier orbit point passed the test, the point reached failed it unless max_iter was hit, and it is 0 when c fails |
| Escape.EscapeCountUnique | rust/mandelbrot/src/main.rs:345-348 | any count with that description is the value of `mandel_iter` |
| Escape.MandelCountMeaning | C++/mandelbrot/main.cpp:17-30 | `mandel` returns i in [0, count], 0 when count <= 0; it stops early only at an escaped point |
| Escape.MandelCountIsEscapeTime | C++/mandelbrot/main.cpp:20-22 | with complementary escape tests, `mandel(c, count)` equals `mandel_iter(max(count, 0), c)` |
| MandelbrotRust.MandelIter | rust/mandelbrot/src/main.rs:340-350 | the loop returns the escape count of c: at most max_iter, 0 when c fails the test |
| MandelbrotRust.IndexDecomposition | rust/mandelbrot/src/main.rs:286-287 | for n < img_size^2, y = n / img_size and x = n - y*img_size are below img_size, y*img_size + x = n, and the pixel there is the serial image's entry n |
| MandelbrotRust.PixelAtSerialIndex | rust/mandelbrot/src/main.rs:271 | the pixel-wise decomposition of the serial index of (x, y) gives back (x, y) |
| MandelbrotRust.MandelbrotSerial | rust/mandelbrot/src/main.rs:268-281 | the first img_size^2 entries become the image, pixel (x, y) at y*img_size + x; the rest is untouched |
| MandelbrotRust.RayonMandelbrotPixel | rust/mandelbrot/src/main.rs:284-296 | in any order, every offset n receives the pixel at (n - (n / img_size)*img_size, n / img_size); on the allocated img_size^2 buffer this is the serial image |
| MandelbrotRust.FillRow | rust/mandelbrot/src/main.rs:304-312 | the closure for chunk y writes `slice[x]` = image[y*img_size + x] for every x, and nothing outside the chunk |
| MandelbrotRust.FillRows | rust/mandelbrot/src/main.rs:300-303 | filling every chunk, in any order, leaves each offset with the pixel the pixel-wise variant writes there |
| MandelbrotRust.RayonMandelbrotRow | rust/mandelbrot/src/main.rs:299-314 | same buffer as the pixel-wise variant, hence the serial image on img_size^2 entries |
| MandelbrotRust.CrossbeamManderlbrotRow | rust/mandelbrot/src/main.rs:316-336 | same buffer as the pixel-wise variant, hence the serial image on img_size^2 entries |
| MandelbrotRust.SameAsSerial | rust/mandelbrot/src/main.rs:16 | on the img_size^2 buffer that `main` allocates, the pixel-wise contents are the serial image |
| MandelbrotCpp.Mandel | C++/mandelbrot/main.cpp:17-30 | the loop with `break` returns the escape count: 0 for count <= 0, otherwise at most count |
| MandelbrotCpp.MandelbrotSerial | C++/mandelbrot/main.cpp:80-93 | output[j*width + i] is pixel (i, j) for every i < width, j < height; nothing past width*height changes |
| MandelbrotCpp.MandelbrotPixelParallel | C++/mandelbrot/main.cpp:96-114 | with the columns of each row in any covering order, the output equals the serial output, as `verifyResult` checks at line 170 |
| MandelbrotCpp.FillRow | C++/mandelbrot/main.cpp:127-133 | one row iteration writes row j of the picture and nothing else |
| MandelbrotCpp.MandelbrotRowParallel | C++/mandelbrot/main.cpp:117-135 | with the rows in any covering order, the output equals the serial output, as `verifyResult` checks at line 188 |
| Views.ViewTables | C++/mandelbrot/main.cpp:216-219 | the scale, shift-x and shift-y tables have VIEWCNT = 7 entries each, the same as rust/mandelbrot/src/main.rs:236-238, and every scale is positive |
| MandelbrotCpp.RunAndVerify | C++/mandelbrot/main.cpp:148-193 | with both kinds of run enabled, `verifyResult` accepts the pixel-parallel and the row-parallel outputs against the serial one, for every thread order |
| Views.ScaleAndShift | C++/mandelbrot/main.cpp:67-77 | the window's sides are multiplied by the scale, and a positive scale keeps x0 < x1 and y0 < y1 |
| Views.TableView | rust/mandelbrot/src/main.rs:236-238 | every preset scale is positive |
| Views.RustScaleAndShift | rust/mandelbrot/src/main.rs:228-262 | for view < 7 the window keeps its orientation and is scaled by the table entry |
| Views.SelectView | C++/mandelbrot/main.cpp:237-243 | a view index is accepted iff 0 <= viewIndex < VIEWCNT, and then selects a table row with positive scale |

## Left out

- Views.RustScaleAndShift: its orientation and width guarantees hold on reals only. In f32 the scaling and shifting round, which keeps only x0 <= x1 and y0 <= y1: a narrow window can collapse to zero width. For example, re bounds 1.0 and 1.0000001 with view 2 both round to -0.9650000334 (rust/mandelbrot/src/main.rs:250-257), so the step at line 208 becomes 0.
- Views.ScaleAndShift: the same f32 caveat applies to the C++ `scaleAndShift` (C++/mandelbrot/main.cpp:67-77).
- Floating point: the pixel's complex point, the step `c + z*z` and the escape tests are abstract parameters, and the window arithmetic is on reals.
  - MandelbrotRust and MandelbrotCpp say nothing about which pixels escape.
  - Escape.MandelCountIsEscapeTime assumes the two escape tests are exact complements. In f32 they are not complements on NaN: `norm_sqr() <= 4.0` and `> 4.f` are both false there.
- Escape.MandelCountIsEscapeTime: assumes both programs compute the same float step. The C++ update writes the imaginary part as `2.f * z_re * z_im` (C++/mandelbrot/main.cpp:25), which a compiler may contract into a fused multiply-add, so the two orbits could differ in the last bit.
- MandelbrotRust.FillRows: requires the buffer to be a whole number of rows of img_size entries. It also requires img_size > 0. On a ragged buffer the short last chunk makes `slice[x]` panic, and `chunks_mut(0)` panics. Those panics are ruled out, not modelled.
- MandelbrotRust.RayonMandelbrotRow and MandelbrotRust.CrossbeamManderlbrotRow: the same whole-rows requirement as FillRows.
- MandelbrotRust.MandelbrotSerial: requires a buffer of at least img_size^2 entries. A shorter buffer makes the Rust indexing panic, which is not modelled.
- Concurrency: threads, work stealing, and the timing of rayon, crossbeam and OpenMP are not modelled. Parallel loops are modelled as an arbitrary serial order of their iterations.
- The drivers are not modelled: argument parsing, timing loops, printing, speedup reports, memory management and the `do_runs` bodies. `rand()` is a parameter (the sequence of its results).
- MandelbrotRust.MandelbrotSerial: does not model the u32 arithmetic of `y * img_size + x`, which first overflows (wraps in release, panics in debug) from img_size 65537 on. Already at img_size 65536 the buffer size `img_size * img_size` computed in `main` (rust/mandelbrot/src/main.rs:16) overflows u32: a release build allocates an empty buffer and the first `image[index]` panics, a debug build panics there.
- MandelbrotRust.RayonMandelbrotPixel: does not model the truncation of `n as u32` or the u32 product `y * img_size` for buffers of 2^32 entries or more.
- MandelbrotRust.FillRow: the closure's `slice[x]` is modelled as the buffer offset it aliases. Slices are not modelled.
- MandelbrotCpp.MandelbrotSerial: width, height and the offset `j * width + i` are unbounded naturals. The C++ `int` could overflow for pictures of 2^31 pixels or more.
- MatMul.MatmulSerial: entries and sums are unbounded integers, while C++ `int` overflow is undefined behaviour. MatMul.DotBounded shows that the dot-product sums do not overflow for the values `random_init` produces and sides up to 26512143. The index arithmetic is not covered: `size * size` in the allocations and `i * size + j` in `RM` (C++/matrixmultiply/main.cpp:16, 137-147) overflow int from side 46341 on, and the model's naturals do not capture that.
- MatMul.MatmulSerial and the other kernels require C to be a different buffer from A and B. The driver passes distinct buffers, and aliasing is not modelled.
- Fibonacci.FibSerialIterative: models the wrapping addition of a release build. A debug build panics on overflow instead, from n = 93 on.
- QuickSort.SortBy: the library sorts (`sort`, `sort_unstable`, `par_sort`, `par_sort_unstable` and their `_by` forms) are foreign code. They are given only their sorted-permutation contract, met here by a reference insertion sort. Stability is not modelled, because equal u32 values cannot be told apart.
- Not part of this model:
  - rust/matrixmultiply/src/main.rs, an unfinished stub;
  - the reduction programs, which are float sums;
  - C++/quicksort/quicksort.cpp.

## Findings

| source | as written | input that shows it | evidently intended | confidence | as-written member | corrected member |
|---|---|---|---|---|---|---|
| C++/matrixmultiply/main.cpp:85 | `c += A[iOff + k] * B[RM(k, i, size)]` reads column i of B, so every entry of row i of C is (A*B)[i][i] | A = B = [[1, 0], [0, 0]] (what `random_init` stores for rand() results 1, 0, 0, 0; the driver copies A into B) gives [[1, 1], [0, 0]] instead of [[1, 0], [0, 0]] (MatMul.Serial2IsNotProduct) | `B[RM(k, j, size)]`, so that C = A*B like `matmul_serial` | high; not executed | MatMul.MatmulSerial2 | MatMul.MatmulSerial2Corrected |
| C++/matrixmultiply/main.cpp:103 | the same index in `matmul_par_row`, the kernel the driver actually times | the same matrices (MatMul.Serial2IsNotProduct) | `B[RM(k, j, size)]` | high; not executed | MatMul.MatmulParRow | MatMul.MatmulParRowCorrected |
