/** The integer dense matrix multiply of the C++ benchmark: square `size` by
    `size` matrices of ints stored row-major in flat buffers, the serial and
    OpenMP kernels that multiply them, and the random initialiser of the
    driver. The OpenMP `parallel for` over rows is modelled by running the
    rows one after another in an arbitrary schedule (see module Schedule). */
module MatMul {
  import opened RowMajor
  import opened Schedule

  /** `MAX_RANGE`: random entries are reduced modulo this bound. */
  const MAX_RANGE: int := 10


  const INT32_MIN: int := -0x8000_0000
  const INT32_MAX: int := 0x7fff_ffff

  /** Entry (i, j) of an n-by-n row-major matrix. */
  function Entry(m: seq<int>, n: nat, i: nat, j: nat): int
    requires |m| == n * n && i < n && j < n
  {
    RMInRange(i, j, n, n);
    m[RM(i, j, n)]
  }

  /** The partial dot product of row i of a with column j of b over the
      first k terms: the sum of a[i][t] * b[t][j] for t < k. */
  function Dot(a: seq<int>, b: seq<int>, n: nat, i: nat, j: nat, k: nat): int
    requires |a| == n * n && |b| == n * n
    requires i < n && j < n && k <= n
  {
    if k == 0 then 0
    else Dot(a, b, n, i, j, k - 1) + Entry(a, n, i, k - 1) * Entry(b, n, k - 1, j)
  }

  /** Entry p of the product, at row p / n and column p % n. */
  function ProductAt(a: seq<int>, b: seq<int>, n: nat, p: nat): int
    requires |a| == n * n && |b| == n * n && p < n * n
  {
    RMSplit(p, n, n);
    Dot(a, b, n, p / n, p % n, n)
  }

  /** The matrix product a * b. */
  function Product(a: seq<int>, b: seq<int>, n: nat): (c: seq<int>)
    requires |a| == n * n && |b| == n * n
    ensures |c| == n * n
  {
    seq(n * n, p requires 0 <= p < n * n => ProductAt(a, b, n, p))
  }

  /** Element-wise sum of two equally long buffers. */
  function MatAdd(c: seq<int>, d: seq<int>): (s: seq<int>)
    requires |c| == |d|
    ensures |s| == |c|
    ensures forall p :: 0 <= p < |s| ==> s[p] == c[p] + d[p]
  {
    seq(|c|, p requires 0 <= p < |c| => c[p] + d[p])
  }

  /** The all-zero buffer that `memset` leaves behind. */
  function Zeros(len: nat): (z: seq<int>)
    ensures |z| == len && forall p :: 0 <= p < len ==> z[p] == 0
  {
    seq(len, p => 0)
  }

  /** What `matmul_serial2` and `matmul_par_row` compute: every entry of row i
      is the dot product of row i of a with column i (not j) of b. */
  function DiagonalRows(a: seq<int>, b: seq<int>, n: nat): (c: seq<int>)
    requires |a| == n * n && |b| == n * n
    ensures |c| == n * n
  {
    seq(n * n, p requires 0 <= p < n * n => DiagonalRowsAt(a, b, n, p))
  }

  /** Entry p of `DiagonalRows`: row p / n of a times column p / n of b. */
  function DiagonalRowsAt(a: seq<int>, b: seq<int>, n: nat, p: nat): int
    requires |a| == n * n && |b| == n * n && p < n * n
  {
    RMSplit(p, n, n);
    Dot(a, b, n, p / n, p / n, n)
  }

  /** Two n-by-n matrices that agree entry by entry are equal. */
  lemma EntrywiseEqual(c: seq<int>, d: seq<int>, n: nat)
    requires |c| == n * n && |d| == n * n
    requires forall i, j :: 0 <= i < n && 0 <= j < n ==> Entry(c, n, i, j) == Entry(d, n, i, j)
    ensures c == d
  {
    forall p | 0 <= p < n * n ensures c[p] == d[p] {
      RMSplit(p, n, n);
      assert Entry(c, n, p / n, p % n) == Entry(d, n, p / n, p % n);
    }
  }

  /** Entry (i, j) of the product is the full dot product of row i and column j. */
  lemma ProductEntry(a: seq<int>, b: seq<int>, n: nat, i: nat, j: nat)
    requires |a| == n * n && |b| == n * n && i < n && j < n
    ensures Entry(Product(a, b, n), n, i, j) == Dot(a, b, n, i, j, n)
  {
    RMInRange(i, j, n, n);
    RMDivMod(i, j, n);
  }

  /** Every entry of row i of DiagonalRows is the diagonal entry (i, i) of the
      true product: the row is constant. */
  lemma DiagonalRowsEntry(a: seq<int>, b: seq<int>, n: nat, i: nat, j: nat)
    requires |a| == n * n && |b| == n * n && i < n && j < n
    ensures Entry(DiagonalRows(a, b, n), n, i, j) == Entry(Product(a, b, n), n, i, i)
  {
    RMInRange(i, j, n, n);
    RMDivMod(i, j, n);
    ProductEntry(a, b, n, i, i);
  }

  /** The buffer with entry (i, j) replaced by v. */
  function SetEntry(c: seq<int>, n: nat, i: nat, j: nat, v: int): (d: seq<int>)
    requires |c| == n * n && i < n && j < n
    ensures |d| == n * n
  {
    RMInRange(i, j, n, n);
    c[RM(i, j, n) := v]
  }

  /** Writing one cell changes that entry and no other. */
  lemma SetEntryAt(c: seq<int>, n: nat, i: nat, j: nat, v: int, i': nat, j': nat)
    requires |c| == n * n && i < n && j < n && i' < n && j' < n
    ensures Entry(SetEntry(c, n, i, j, v), n, i', j') == if i' == i && j' == j then v else Entry(c, n, i', j')
  {
    RMInRange(i, j, n, n);
    RMInRange(i', j', n, n);
    if RM(i', j', n) == RM(i, j, n) {
      RMInjective(i, j, i', j', n);
    }
  }

  lemma SetEntryEverywhere(c: seq<int>, n: nat, i: nat, j: nat, v: int)
    requires |c| == n * n && i < n && j < n
    ensures forall i', j' :: 0 <= i' < n && 0 <= j' < n ==>
      Entry(SetEntry(c, n, i, j, v), n, i', j') == if i' == i && j' == j then v else Entry(c, n, i', j')
  {
    forall i', j' | 0 <= i' < n && 0 <= j' < n {
      SetEntryAt(c, n, i, j, v, i', j');
    }
  }

  /** The inner j and k loops of `matmul_serial` and `matmul_par_row_outer`
      for one row i: C[i][j] += A[i][k] * B[k][j] for every j and k, in that
      order; no other row is touched. */
  method AccumulateRow(size: nat, A: array<int>, B: array<int>, C: array<int>, i: nat)
    requires A.Length == size * size && B.Length == size * size && C.Length == size * size
    requires C != A && C != B
    requires i < size
    modifies C
    ensures forall i', j' :: 0 <= i' < size && 0 <= j' < size ==>
      Entry(C[..], size, i', j') ==
        Entry(old(C[..]), size, i', j') + (if i' == i then Dot(A[..], B[..], size, i', j', size) else 0)
  {
    ghost var c0, a, b := C[..], A[..], B[..];
    for j := 0 to size
      invariant forall i', j' :: 0 <= i' < size && 0 <= j' < size ==>
        Entry(C[..], size, i', j') ==
          Entry(c0, size, i', j') + (if i' == i && j' < j then Dot(a, b, size, i', j', size) else 0)
    {
      ghost var cj := C[..];
      RMInRange(i, j, size, size);
      for k := 0 to size
        invariant C[..] == SetEntry(cj, size, i, j, Entry(cj, size, i, j) + Dot(a, b, size, i, j, k))
      {
        RMInRange(i, k, size, size);
        RMInRange(k, j, size, size);
        C[RM(i, j, size)] := C[RM(i, j, size)] + A[RM(i, k, size)] * B[RM(k, j, size)];
      }
      SetEntryEverywhere(cj, size, i, j, Entry(cj, size, i, j) + Dot(a, b, size, i, j, size));
    }
  }

  /** `matmul_serial`: C[i][j] gains the full dot product of row i of A and
      column j of B, so C ends as old C + A * B; with C zeroed first, as the
      driver does, C = A * B. A and B are not written. */
  method MatmulSerial(size: nat, A: array<int>, B: array<int>, C: array<int>)
    requires A.Length == size * size && B.Length == size * size && C.Length == size * size
    requires C != A && C != B
    modifies C
    ensures C[..] == MatAdd(old(C[..]), Product(A[..], B[..], size))
    ensures old(C[..]) == Zeros(size * size) ==> C[..] == Product(A[..], B[..], size)
  {
    ghost var c0 := C[..];
    for i := 0 to size
      invariant forall i', j' :: 0 <= i' < size && 0 <= j' < size ==>
        Entry(C[..], size, i', j') ==
          Entry(c0, size, i', j') + (if i' < i then Dot(A[..], B[..], size, i', j', size) else 0)
    {
      AccumulateRow(size, A, B, C, i);
    }
    AccumulatedIsSum(C[..], c0, A[..], B[..], size);
  }

  /** `matmul_par_row_outer`: the same loop nest with the row loop run as an
      OpenMP `parallel for`; whatever order the rows run in, C ends as
      old C + A * B, the result of `matmul_serial`. */
  method MatmulParRowOuter(size: nat, A: array<int>, B: array<int>, C: array<int>, schedule: seq<nat>)
    requires A.Length == size * size && B.Length == size * size && C.Length == size * size
    requires C != A && C != B
    requires IsSchedule(schedule, size)
    modifies C
    ensures C[..] == MatAdd(old(C[..]), Product(A[..], B[..], size))
    ensures old(C[..]) == Zeros(size * size) ==> C[..] == Product(A[..], B[..], size)
  {
    ghost var c0 := C[..];
    for t := 0 to |schedule|
      invariant forall i', j' :: 0 <= i' < size && 0 <= j' < size ==>
        Entry(C[..], size, i', j') ==
          Entry(c0, size, i', j') + (if i' in schedule[..t] then Dot(A[..], B[..], size, i', j', size) else 0)
    {
      assert schedule[..t + 1] == schedule[..t] + [schedule[t]];
      assert schedule[t] !in schedule[..t];
      AccumulateRow(size, A, B, C, schedule[t]);
    }
    assert schedule[..|schedule|] == schedule;
    AccumulatedIsSum(C[..], c0, A[..], B[..], size);
  }

  /** Entry-wise accumulation of the product is the buffer sum of the two. */
  lemma AccumulatedIsSum(c: seq<int>, c0: seq<int>, a: seq<int>, b: seq<int>, n: nat)
    requires |c| == n * n && |c0| == n * n && |a| == n * n && |b| == n * n
    requires forall i, j :: 0 <= i < n && 0 <= j < n ==>
      Entry(c, n, i, j) == Entry(c0, n, i, j) + Dot(a, b, n, i, j, n)
    ensures c == MatAdd(c0, Product(a, b, n))
    ensures c0 == Zeros(n * n) ==> c == Product(a, b, n)
  {
    var s := MatAdd(c0, Product(a, b, n));
    forall i, j | 0 <= i < n && 0 <= j < n ensures Entry(c, n, i, j) == Entry(s, n, i, j) {
      ProductEntry(a, b, n, i, j);
      RMInRange(i, j, n, n);
    }
    EntrywiseEqual(c, s, n);
    if c0 == Zeros(n * n) {
      assert s == Product(a, b, n);
    }
  }

  /** The j and k loops of `matmul_serial2` and `matmul_par_row` for one row i
      as written: C[i][j] is overwritten by the local sum of
      A[i*size + k] * B[k][i]; no other row is touched. */
  method OverwriteRow(size: nat, A: array<int>, B: array<int>, C: array<int>, i: nat)
    requires A.Length == size * size && B.Length == size * size && C.Length == size * size
    requires C != A && C != B
    requires i < size
    modifies C
    ensures forall i', j' :: 0 <= i' < size && 0 <= j' < size ==>
      Entry(C[..], size, i', j') ==
        if i' == i then Dot(A[..], B[..], size, i, i, size) else Entry(old(C[..]), size, i', j')
  {
    ghost var c0, a, b := C[..], A[..], B[..];
    var iOff := i * size;
    for j := 0 to size
      invariant forall i', j' :: 0 <= i' < size && 0 <= j' < size ==>
        Entry(C[..], size, i', j') ==
          if i' == i && j' < j then Dot(a, b, size, i, i, size) else Entry(c0, size, i', j')
    {
      ghost var before := C[..];
      var c := 0;
      for k := 0 to size
        invariant c == Dot(a, b, size, i, i, k)
        modifies {}
      {
        RMInRange(i, k, size, size);
        RMInRange(k, i, size, size);
        assert A[iOff + k] == Entry(a, size, i, k) && B[RM(k, i, size)] == Entry(b, size, k, i);
        c := c + A[iOff + k] * B[RM(k, i, size)];
      }
      RMInRange(i, j, size, size);
      C[RM(i, j, size)] := c;
      assert C[..] == SetEntry(before, size, i, j, c);
      forall i', j' | 0 <= i' < size && 0 <= j' < size
        ensures Entry(C[..], size, i', j') ==
          if i' == i && j' < j + 1 then Dot(a, b, size, i, i, size) else Entry(c0, size, i', j')
      {
        SetEntryAt(before, size, i, j, c, i', j');
      }
    }
  }

  /** `matmul_serial2`: every C[i][j] is overwritten with the dot product of
      row i of A and column i of B, whatever C held before. */
  method MatmulSerial2(size: nat, A: array<int>, B: array<int>, C: array<int>)
    requires A.Length == size * size && B.Length == size * size && C.Length == size * size
    requires C != A && C != B
    modifies C
    ensures C[..] == DiagonalRows(A[..], B[..], size)
  {
    ghost var c0 := C[..];
    for i := 0 to size
      invariant forall i', j' :: 0 <= i' < size && 0 <= j' < size ==>
        Entry(C[..], size, i', j') ==
          if i' < i then Dot(A[..], B[..], size, i', i', size) else Entry(c0, size, i', j')
    {
      OverwriteRow(size, A, B, C, i);
    }
    OverwrittenIsDiagonalRows(C[..], A[..], B[..], size);
  }

  /** `matmul_par_row`: `matmul_serial2` with the row loop as an OpenMP
      `parallel for`; any order of the rows (a row run twice included) gives
      the result of `matmul_serial2`. */
  method MatmulParRow(size: nat, A: array<int>, B: array<int>, C: array<int>, schedule: seq<nat>)
    requires A.Length == size * size && B.Length == size * size && C.Length == size * size
    requires C != A && C != B
    requires Covers(schedule, size)
    modifies C
    ensures C[..] == DiagonalRows(A[..], B[..], size)
  {
    ghost var c0 := C[..];
    for t := 0 to |schedule|
      invariant forall i', j' :: 0 <= i' < size && 0 <= j' < size ==>
        Entry(C[..], size, i', j') ==
          if i' in schedule[..t] then Dot(A[..], B[..], size, i', i', size) else Entry(c0, size, i', j')
    {
      assert schedule[..t + 1] == schedule[..t] + [schedule[t]];
      OverwriteRow(size, A, B, C, schedule[t]);
    }
    assert schedule[..|schedule|] == schedule;
    OverwrittenIsDiagonalRows(C[..], A[..], B[..], size);
  }

  lemma OverwrittenIsDiagonalRows(c: seq<int>, a: seq<int>, b: seq<int>, n: nat)
    requires |c| == n * n && |a| == n * n && |b| == n * n
    requires forall i, j :: 0 <= i < n && 0 <= j < n ==> Entry(c, n, i, j) == Dot(a, b, n, i, i, n)
    ensures c == DiagonalRows(a, b, n)
  {
    forall i, j | 0 <= i < n && 0 <= j < n ensures Entry(c, n, i, j) == Entry(DiagonalRows(a, b, n), n, i, j) {
      DiagonalRowsEntry(a, b, n, i, j);
      ProductEntry(a, b, n, i, i);
    }
    EntrywiseEqual(c, DiagonalRows(a, b, n), n);
  }

  /** The j and k loops of `matmul_serial2` with B indexed by column j, as
      intended: C[i][j] is overwritten by the dot product of row i and column j. */
  method OverwriteRowCorrected(size: nat, A: array<int>, B: array<int>, C: array<int>, i: nat)
    requires A.Length == size * size && B.Length == size * size && C.Length == size * size
    requires C != A && C != B
    requires i < size
    modifies C
    ensures forall i', j' :: 0 <= i' < size && 0 <= j' < size ==>
      Entry(C[..], size, i', j') ==
        if i' == i then Dot(A[..], B[..], size, i, j', size) else Entry(old(C[..]), size, i', j')
  {
    ghost var c0, a, b := C[..], A[..], B[..];
    var iOff := i * size;
    for j := 0 to size
      invariant forall i', j' :: 0 <= i' < size && 0 <= j' < size ==>
        Entry(C[..], size, i', j') ==
          if i' == i && j' < j then Dot(a, b, size, i, j', size) else Entry(c0, size, i', j')
    {
      ghost var before := C[..];
      var c := 0;
      for k := 0 to size
        invariant c == Dot(a, b, size, i, j, k)
        modifies {}
      {
        RMInRange(i, k, size, size);
        RMInRange(k, j, size, size);
        assert A[iOff + k] == Entry(a, size, i, k) && B[RM(k, j, size)] == Entry(b, size, k, j);
        c := c + A[iOff + k] * B[RM(k, j, size)];
      }
      RMInRange(i, j, size, size);
      C[RM(i, j, size)] := c;
      assert C[..] == SetEntry(before, size, i, j, c);
      forall i', j' | 0 <= i' < size && 0 <= j' < size
        ensures Entry(C[..], size, i', j') ==
          if i' == i && j' < j + 1 then Dot(a, b, size, i, j', size) else Entry(c0, size, i', j')
      {
        SetEntryAt(before, size, i, j, c, i', j');
      }
    }
  }

  /** `matmul_serial2` with the column index corrected: C = A * B, whatever
      C held before. */
  method MatmulSerial2Corrected(size: nat, A: array<int>, B: array<int>, C: array<int>)
    requires A.Length == size * size && B.Length == size * size && C.Length == size * size
    requires C != A && C != B
    modifies C
    ensures C[..] == Product(A[..], B[..], size)
  {
    ghost var c0 := C[..];
    for i := 0 to size
      invariant forall i', j' :: 0 <= i' < size && 0 <= j' < size ==>
        Entry(C[..], size, i', j') ==
          if i' < i then Dot(A[..], B[..], size, i', j', size) else Entry(c0, size, i', j')
    {
      OverwriteRowCorrected(size, A, B, C, i);
    }
    forall i', j' | 0 <= i' < size && 0 <= j' < size
      ensures Entry(C[..], size, i', j') == Entry(Product(A[..], B[..], size), size, i', j')
    {
      ProductEntry(A[..], B[..], size, i', j');
    }
    EntrywiseEqual(C[..], Product(A[..], B[..], size), size);
  }

  /** `matmul_par_row` with the column index corrected: any order of the
      rows that reaches each of them gives C = A * B. */
  method MatmulParRowCorrected(size: nat, A: array<int>, B: array<int>, C: array<int>, schedule: seq<nat>)
    requires A.Length == size * size && B.Length == size * size && C.Length == size * size
    requires C != A && C != B
    requires Covers(schedule, size)
    modifies C
    ensures C[..] == Product(A[..], B[..], size)
  {
    ghost var c0 := C[..];
    for t := 0 to |schedule|
      invariant forall i', j' :: 0 <= i' < size && 0 <= j' < size ==>
        Entry(C[..], size, i', j') ==
          if i' in schedule[..t] then Dot(A[..], B[..], size, i', j', size) else Entry(c0, size, i', j')
    {
      assert schedule[..t + 1] == schedule[..t] + [schedule[t]];
      OverwriteRowCorrected(size, A, B, C, schedule[t]);
    }
    assert schedule[..|schedule|] == schedule;
    forall i', j' | 0 <= i' < size && 0 <= j' < size
      ensures Entry(C[..], size, i', j') == Entry(Product(A[..], B[..], size), size, i', j')
    {
      ProductEntry(A[..], B[..], size, i', j');
    }
    EntrywiseEqual(C[..], Product(A[..], B[..], size), size);
  }

  /** A 2-by-2 matrix the driver can build: `random_init` with `rand()`
      returning 1, 0, 0, 0, and B a copy of A. */
  const Example: seq<int> := [1, 0, 0, 0]

  /** `matmul_serial2` is not the matrix product: with A = B = [[1, 0], [0, 0]]
      it yields [[1, 1], [0, 0]] where A * B = [[1, 0], [0, 0]]. */
  lemma Serial2IsNotProduct()
    ensures Example == [InitValue(1), InitValue(0), InitValue(0), InitValue(0)]
    ensures DiagonalRows(Example, Example, 2) != Product(Example, Example, 2)
  {
    var e := Example;
    assert Entry(e, 2, 0, 0) == 1 && Entry(e, 2, 0, 1) == 0;
    assert Entry(e, 2, 1, 0) == 0 && Entry(e, 2, 1, 1) == 0;
    assert Dot(e, e, 2, 0, 0, 1) == 1;
    assert Dot(e, e, 2, 0, 0, 2) == 1;
    assert Dot(e, e, 2, 0, 1, 1) == 0;
    assert Dot(e, e, 2, 0, 1, 2) == 0;
    DiagonalRowsEntry(e, e, 2, 0, 1);
    ProductEntry(e, e, 2, 0, 0);
    ProductEntry(e, e, 2, 0, 1);
    assert Entry(DiagonalRows(e, e, 2), 2, 0, 1) != Entry(Product(e, e, 2), 2, 0, 1);
  }

  /** The value `random_init` stores for one call of `rand()` returning rval:
      `sign * (rval % MAX_RANGE)` with sign +1 for odd rval and -1 otherwise.
      Since rval % 10 has the parity of rval, positive values are odd and the
      others even: the entries lie in {-8, -6, -4, -2, 0, 1, 3, 5, 7, 9}. */
  function InitValue(rval: int): (v: int)
    requires rval >= 0
    ensures -MAX_RANGE < v < MAX_RANGE
    ensures v > 0 <==> rval % 2 == 1
    ensures v % 2 == rval % 2
  {
    (if rval % 2 != 0 then 1 else -1) * (rval % MAX_RANGE)
  }

  /** `random_init`: the `rand()` results are the parameter `rands`, consumed
      in row-major order, so the entry at offset p comes from the p-th call. */
  method RandomInit(A: array<int>, size: nat, rands: seq<int>)
    requires A.Length == size * size && |rands| == size * size
    requires forall t :: 0 <= t < |rands| ==> rands[t] >= 0
    modifies A
    ensures forall p :: 0 <= p < A.Length ==> A[p] == InitValue(rands[p])
  {
    for row := 0 to size
      invariant row * size <= size * size
      invariant forall p :: 0 <= p < row * size ==> A[p] == InitValue(rands[p])
    {
      MulMonotone(row + 1, size, size);
      assert (row + 1) * size == row * size + size;
      for col := 0 to size
        invariant forall p :: 0 <= p < row * size + col ==> A[p] == InitValue(rands[p])
      {
        RMInRange(row, col, size, size);
        var rval := rands[RM(row, col, size)];
        var sign := if rval % 2 != 0 then 1 else -1;
        A[RM(row, col, size)] := sign * (rval % MAX_RANGE);
      }
    }
  }

  /** With every entry of A and B between -9 and 9, as `random_init` leaves
      them, each partial sum of `matmul_serial` stays within 81 * k, so for
      sides up to 26512143 no sum overflows an int. (The index arithmetic
      `i * size + j` overflows much earlier, from side 46341 on.) */
  lemma {:induction false} DotBounded(a: seq<int>, b: seq<int>, n: nat, i: nat, j: nat, k: nat)
    requires |a| == n * n && |b| == n * n && i < n && j < n && k <= n
    requires forall p :: 0 <= p < |a| ==> -MAX_RANGE < a[p] < MAX_RANGE
    requires forall p :: 0 <= p < |b| ==> -MAX_RANGE < b[p] < MAX_RANGE
    ensures -81 * k <= Dot(a, b, n, i, j, k) <= 81 * k
    ensures n <= 26512143 ==> INT32_MIN <= Dot(a, b, n, i, j, k) <= INT32_MAX
  {
    if k > 0 {
      DotBounded(a, b, n, i, j, k - 1);
      RMInRange(i, k - 1, n, n);
      RMInRange(k - 1, j, n, n);
      var x, y := Entry(a, n, i, k - 1), Entry(b, n, k - 1, j);
      ProductBound(x, y);
    }
  }

  lemma ProductBound(x: int, y: int)
    requires -MAX_RANGE < x < MAX_RANGE && -MAX_RANGE < y < MAX_RANGE
    ensures -81 <= x * y <= 81
  {
    var ax, ay := if x < 0 then -x else x, if y < 0 then -y else y;
    assert ax * ay <= 9 * ay <= 81;
    assert x * y == ax * ay || x * y == -(ax * ay);
  }
}
