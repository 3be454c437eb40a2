/** The Fibonacci kernels of the Rust benchmark: an iterative loop, two
    fork-join recursions that differ only in which branch `rayon::join`
    receives first, and a sum over the pieces that `rayon::iter::split`
    carves n into. All arithmetic is on u64; `+` is modelled as it behaves
    in a release build, wrapping modulo 2^64. */
module Fibonacci {

  /** 2^64: the number of u64 values. */
  const U64: nat := 0x1_0000_0000_0000_0000

  /** The default n of the driver when none is given on the command line. */
  const DEFAULT_N: nat := 1000

  /** The Fibonacci numbers: F(0) = 0, F(1) = 1, F(n) = F(n-1) + F(n-2). */
  function Fib(n: nat): nat
  {
    if n < 2 then n else Fib(n - 1) + Fib(n - 2)
  }

  /** u64 addition of a release build: the mathematical sum modulo 2^64. */
  function AddU64(x: nat, y: nat): (r: nat)
    ensures r < U64
    ensures x + y < U64 ==> r == x + y
  {
    (x + y) % U64
  }

  /** Adding remainders and reducing again is reducing the sum. */
  lemma AddMod(x: nat, y: nat)
    ensures AddU64(x % U64, y % U64) == (x + y) % U64
  {
    var qx, qy := x / U64, y / U64;
    assert x == qx * U64 + x % U64;
    assert y == qy * U64 + y % U64;
    assert x + y == (qx + qy) * U64 + (x % U64 + y % U64);
    ModShift(x % U64 + y % U64, qx + qy);
  }

  lemma ModShift(r: nat, q: nat)
    ensures (q * U64 + r) % U64 == r % U64
  {
  }

  /** `fib_serial_iterative`: a, b step through (F(i), F(i+1)) for i = 0 .. n,
      so the result is F(n) reduced to u64, and F(n) itself for n <= 92;
      for n = 0 the loop body never runs and the result is 0. */
  method FibSerialIterative(n: nat) returns (r: nat)
    ensures r == Fib(n) % U64
    ensures n <= 92 ==> r == Fib(n)
  {
    var a, b := 0, 1;
    for i := 0 to n
      invariant a == Fib(i) % U64 && b == Fib(i + 1) % U64
    {
      var c := AddU64(a, b);
      AddMod(Fib(i), Fib(i + 1));
      assert Fib(i + 2) == Fib(i) + Fib(i + 1);
      a := b;
      b := c;
    }
    r := a;
    if n <= 92 {
      FibFitsU64(n);
      FibMonotone(n, n + 1);
      SmallMod(Fib(n));
    }
  }

  /** A value below 2^64 is its own u64 representation. */
  lemma SmallMod(x: nat)
    requires x < U64
    ensures x % U64 == x
  {
  }

  /** F is non-decreasing. */
  lemma {:induction false} FibMonotone(i: nat, j: nat)
    requires i <= j
    ensures Fib(i) <= Fib(j)
  {
    if i < j {
      FibMonotone(i, j - 1);
      if j >= 2 {
        assert Fib(j) == Fib(j - 1) + Fib(j - 2);
      }
    }
  }

  // The values of F up to F(94), two at a time.
  lemma FibValuesTo25()
    ensures Fib(24) == 46368 && Fib(25) == 75025
  {
    assert Fib(2) == 1 && Fib(3) == 2;
    assert Fib(4) == 3 && Fib(5) == 5;
    assert Fib(6) == 8 && Fib(7) == 13;
    assert Fib(8) == 21 && Fib(9) == 34;
    assert Fib(10) == 55 && Fib(11) == 89;
    assert Fib(12) == 144 && Fib(13) == 233;
    assert Fib(14) == 377 && Fib(15) == 610;
    assert Fib(16) == 987 && Fib(17) == 1597;
    assert Fib(18) == 2584 && Fib(19) == 4181;
    assert Fib(20) == 6765 && Fib(21) == 10946;
    assert Fib(22) == 17711 && Fib(23) == 28657;
  }

  lemma FibValuesTo49()
    ensures Fib(48) == 4807526976 && Fib(49) == 7778742049
  {
    FibValuesTo25();
    assert Fib(26) == 121393 && Fib(27) == 196418;
    assert Fib(28) == 317811 && Fib(29) == 514229;
    assert Fib(30) == 832040 && Fib(31) == 1346269;
    assert Fib(32) == 2178309 && Fib(33) == 3524578;
    assert Fib(34) == 5702887 && Fib(35) == 9227465;
    assert Fib(36) == 14930352 && Fib(37) == 24157817;
    assert Fib(38) == 39088169 && Fib(39) == 63245986;
    assert Fib(40) == 102334155 && Fib(41) == 165580141;
    assert Fib(42) == 267914296 && Fib(43) == 433494437;
    assert Fib(44) == 701408733 && Fib(45) == 1134903170;
    assert Fib(46) == 1836311903 && Fib(47) == 2971215073;
  }

  lemma FibValuesTo73()
    ensures Fib(72) == 498454011879264 && Fib(73) == 806515533049393
  {
    FibValuesTo49();
    assert Fib(50) == 12586269025 && Fib(51) == 20365011074;
    assert Fib(52) == 32951280099 && Fib(53) == 53316291173;
    assert Fib(54) == 86267571272 && Fib(55) == 139583862445;
    assert Fib(56) == 225851433717 && Fib(57) == 365435296162;
    assert Fib(58) == 591286729879 && Fib(59) == 956722026041;
    assert Fib(60) == 1548008755920 && Fib(61) == 2504730781961;
    assert Fib(62) == 4052739537881 && Fib(63) == 6557470319842;
    assert Fib(64) == 10610209857723 && Fib(65) == 17167680177565;
    assert Fib(66) == 27777890035288 && Fib(67) == 44945570212853;
    assert Fib(68) == 72723460248141 && Fib(69) == 117669030460994;
    assert Fib(70) == 190392490709135 && Fib(71) == 308061521170129;
  }

  lemma FibValuesTo93()
    ensures Fib(92) == 7540113804746346429 && Fib(93) == 12200160415121876738
  {
    FibValuesTo73();
    assert Fib(74) == 1304969544928657 && Fib(75) == 2111485077978050;
    assert Fib(76) == 3416454622906707 && Fib(77) == 5527939700884757;
    assert Fib(78) == 8944394323791464 && Fib(79) == 14472334024676221;
    assert Fib(80) == 23416728348467685 && Fib(81) == 37889062373143906;
    assert Fib(82) == 61305790721611591 && Fib(83) == 99194853094755497;
    assert Fib(84) == 160500643816367088 && Fib(85) == 259695496911122585;
    assert Fib(86) == 420196140727489673 && Fib(87) == 679891637638612258;
    assert Fib(88) == 1100087778366101931 && Fib(89) == 1779979416004714189;
    assert Fib(90) == 2880067194370816120 && Fib(91) == 4660046610375530309;
  }

  /** F(93) is the last Fibonacci number below 2^64, F(94) the first above. */
  lemma FibValues()
    ensures Fib(93) == 12200160415121876738
    ensures Fib(94) == 19740274219868223167
  {
    FibValuesTo93();
    assert Fib(94) == Fib(93) + Fib(92);
  }

  /** The last addition of `fib_serial_iterative(n)` produces F(n+1); it and
      every earlier one fit in a u64 exactly when n <= 92. */
  lemma FibFitsU64(n: nat)
    ensures Fib(n + 1) < U64 <==> n <= 92
  {
    FibValues();
    if n <= 92 {
      FibMonotone(n + 1, 93);
    } else {
      FibMonotone(94, n + 1);
    }
  }

  /** The default n = 1000 is far past that bound: the value printed is
      F(1000) reduced modulo 2^64 (a debug build panics instead). */
  lemma DefaultOverflows()
    ensures Fib(DEFAULT_N + 1) >= U64
  {
    FibFitsU64(DEFAULT_N);
  }

  /** `fib_join_12`: n itself below 2, otherwise the sum of the calls on
      n-1 and n-2, larger branch first. It computes F(n) modulo 2^64. */
  function FibJoin12(n: nat): (r: nat)
    ensures r == Fib(n) % U64
  {
    if n < 2 then n
    else
      var a := FibJoin12(n - 1);
      var b := FibJoin12(n - 2);
      AddMod(Fib(n - 1), Fib(n - 2));
      AddU64(a, b)
  }

  /** `fib_join_21`: the same recursion with the smaller branch first; the
      result is that of `fib_join_12` for every n. */
  function FibJoin21(n: nat): (r: nat)
    ensures r == FibJoin12(n)
  {
    if n < 2 then n
    else
      var a := FibJoin21(n - 2);
      var b := FibJoin21(n - 1);
      AddU64(a, b)
  }

  /** One way `rayon::iter::split` may have cut n into pieces: a piece is
      either kept whole, or, when it is at least 2, replaced by the pieces
      n-2 and n-1, each of which may be cut again. */
  datatype Split = Whole(n: nat) | Cut(low: Split, high: Split)

  /** `t` is a split of n that the splitter closure can produce: it cuts
      m >= 2 into (m-2, m-1) and refuses to cut 0 or 1. */
  predicate IsSplitOf(t: Split, n: nat)
  {
    match t
    case Whole(m) => m == n
    case Cut(low, high) => n >= 2 && IsSplitOf(low, n - 2) && IsSplitOf(high, n - 1)
  }

  /** The pieces the split iterator yields, in order. */
  function Pieces(t: Split): seq<nat>
  {
    match t
    case Whole(m) => [m]
    case Cut(low, high) => Pieces(low) + Pieces(high)
  }

  /** Every piece of a split of n is at most n, and the closure's refusal
      to cut 0 or 1 leaves such an n as the single piece [n]. */
  lemma {:induction false} SplitPieces(t: Split, n: nat)
    requires IsSplitOf(t, n)
    ensures |Pieces(t)| >= 1
    ensures forall p :: p in Pieces(t) ==> p <= n
    ensures n < 2 ==> Pieces(t) == [n]
  {
    match t
    case Whole(m) =>
    case Cut(low, high) =>
      SplitPieces(low, n - 2);
      SplitPieces(high, n - 1);
  }

  /** `.map(fib_serial_iterative).sum()`: the u64 sum of F(m) mod 2^64 over
      the pieces m. */
  function SumFibs(pieces: seq<nat>): (r: nat)
    ensures r < U64
  {
    if pieces == [] then 0 else AddU64(Fib(pieces[0]) % U64, SumFibs(pieces[1..]))
  }

  /** u64 addition is associative on u64 values. */
  lemma AddAssoc(x: nat, y: nat, z: nat)
    requires x < U64 && y < U64 && z < U64
    ensures AddU64(AddU64(x, y), z) == AddU64(x, AddU64(y, z))
  {
    AddMod(x + y, z);
    assert z % U64 == z;
    AddMod(x, y + z);
    assert x % U64 == x;
  }

  /** Summing two runs of pieces is adding their sums. */
  lemma {:induction false} SumFibsAppend(p: seq<nat>, q: seq<nat>)
    ensures SumFibs(p + q) == AddU64(SumFibs(p), SumFibs(q))
  {
    if p == [] {
      assert p + q == q;
    } else {
      assert (p + q)[0] == p[0];
      assert (p + q)[1..] == p[1..] + q;
      SumFibsAppend(p[1..], q);
      var x, y, z := Fib(p[0]) % U64, SumFibs(p[1..]), SumFibs(q);
      assert SumFibs(p + q) == AddU64(x, AddU64(y, z));
      assert SumFibs(p) == AddU64(x, y);
      AddAssoc(x, y, z);
    }
  }

  /** `fibonacci_split_iterative`: however far the splitting proceeds, the
      pieces' Fibonacci numbers sum to F(n) modulo 2^64. */
  function FibonacciSplitIterative(n: nat, t: Split): (r: nat)
    requires IsSplitOf(t, n)
    ensures r == Fib(n) % U64
  {
    SplitSum(t, n);
    SumFibs(Pieces(t))
  }

  lemma {:induction false} SplitSum(t: Split, n: nat)
    requires IsSplitOf(t, n)
    ensures SumFibs(Pieces(t)) == Fib(n) % U64
  {
    match t
    case Whole(m) =>
      assert Pieces(t) == [n];
      assert Pieces(t)[1..] == [];
    case Cut(low, high) =>
      SplitSum(low, n - 2);
      SplitSum(high, n - 1);
      SumFibsAppend(Pieces(low), Pieces(high));
      AddMod(Fib(n - 2), Fib(n - 1));
  }
}
