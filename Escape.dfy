/** The escape-time count at the heart of both mandelbrot programs, over an
    abstract type `C` of complex values. The float arithmetic is not
    modelled: `step(c, z)` stands for `c + z * z`, and the escape test is a
    parameter too — `inDisk(z)` for Rust's `z.norm_sqr() <= 4.0`,
    `escaped(z)` for C++'s `z_re * z_re + z_im * z_im > 4.f`. */
module Escape {

  /** z_k: the orbit of c under step, starting from z_0 = c. */
  function Orbit<C>(step: (C, C) -> C, c: C, k: nat): C
  {
    if k == 0 then c else step(c, Orbit(step, c, k - 1))
  }

  /** The count of the Rust loop once it has taken k steps and z is z_k. */
  function EscapeFrom<C>(step: (C, C) -> C, inDisk: C -> bool, c: C, k: nat, maxIter: nat): nat
    requires k <= maxIter
    decreases maxIter - k
  {
    if k == maxIter || !inDisk(Orbit(step, c, k)) then k
    else EscapeFrom(step, inDisk, c, k + 1, maxIter)
  }

  /** The value of `mandel_iter(max_iter, c)`: the number of steps taken
      while z stays in the disk, capped at max_iter. */
  function EscapeTime<C>(step: (C, C) -> C, inDisk: C -> bool, c: C, maxIter: nat): nat
  {
    EscapeFrom(step, inDisk, c, 0, maxIter)
  }

  /** r is the escape count of c: at most maxIter, the first r orbit points
      are in the disk, and unless the cap was reached z_r is not. */
  ghost predicate IsEscapeCount<C>(step: (C, C) -> C, inDisk: C -> bool, c: C, maxIter: nat, r: nat)
  {
    r <= maxIter &&
    (forall k: nat :: k < r ==> inDisk(Orbit(step, c, k))) &&
    (r < maxIter ==> !inDisk(Orbit(step, c, r)))
  }

  lemma {:induction false} EscapeFromMeaning<C>(step: (C, C) -> C, inDisk: C -> bool, c: C, k: nat, maxIter: nat)
    requires k <= maxIter
    requires forall i: nat :: i < k ==> inDisk(Orbit(step, c, i))
    ensures IsEscapeCount(step, inDisk, c, maxIter, EscapeFrom(step, inDisk, c, k, maxIter))
    decreases maxIter - k
  {
    if k < maxIter && inDisk(Orbit(step, c, k)) {
      EscapeFromMeaning(step, inDisk, c, k + 1, maxIter);
    }
  }

  /** `mandel_iter` returns a value in [0, max_iter] that is the escape
      count; it is 0 when c itself fails the test, and max_iter exactly when
      the whole orbit up to max_iter stays in the disk. */
  lemma EscapeTimeMeaning<C>(step: (C, C) -> C, inDisk: C -> bool, c: C, maxIter: nat)
    ensures IsEscapeCount(step, inDisk, c, maxIter, EscapeTime(step, inDisk, c, maxIter))
    ensures EscapeTime(step, inDisk, c, maxIter) <= maxIter
    ensures !inDisk(c) ==> EscapeTime(step, inDisk, c, maxIter) == 0
  {
    EscapeFromMeaning(step, inDisk, c, 0, maxIter);
  }

  /** The escape count is unique: any r meeting its description is the
      value of `mandel_iter`. */
  lemma EscapeCountUnique<C>(step: (C, C) -> C, inDisk: C -> bool, c: C, maxIter: nat, r: nat)
    requires IsEscapeCount(step, inDisk, c, maxIter, r)
    ensures r == EscapeTime(step, inDisk, c, maxIter)
  {
    var e := EscapeTime(step, inDisk, c, maxIter);
    EscapeTimeMeaning(step, inDisk, c, maxIter);
    if r < e {
      assert false;
    } else if e < r {
      assert false;
    }
  }

  /** The count of the C++ loop once it has taken i steps and z is z_i. */
  function CountFrom<C>(step: (C, C) -> C, escaped: C -> bool, c: C, i: nat, count: int): nat
    decreases count - i
  {
    if i >= count || escaped(Orbit(step, c, i)) then i
    else CountFrom(step, escaped, c, i + 1, count)
  }

  /** The value of `mandel(c_re, c_im, count)`; a count of 0 or below runs
      no iteration. */
  function MandelCount<C>(step: (C, C) -> C, escaped: C -> bool, c: C, count: int): nat
  {
    CountFrom(step, escaped, c, 0, count)
  }

  lemma {:induction false} CountFromAgrees<C>(step: (C, C) -> C, escaped: C -> bool, inDisk: C -> bool,
                                               c: C, i: nat, maxIter: nat)
    requires forall z :: escaped(z) <==> !inDisk(z)
    requires i <= maxIter
    ensures CountFrom(step, escaped, c, i, maxIter) == EscapeFrom(step, inDisk, c, i, maxIter)
    decreases maxIter - i
  {
    if i < maxIter && !escaped(Orbit(step, c, i)) {
      CountFromAgrees(step, escaped, inDisk, c, i + 1, maxIter);
    }
  }

  /** With complementary escape tests, `mandel` and `mandel_iter` count the
      same: the C++ result for `count` is the Rust result for max(count, 0),
      so it lies in [0, count] whenever count >= 0. */
  lemma MandelCountIsEscapeTime<C>(step: (C, C) -> C, escaped: C -> bool, inDisk: C -> bool,
                                   c: C, count: int)
    requires forall z :: escaped(z) <==> !inDisk(z)
    ensures MandelCount(step, escaped, c, count) ==
            EscapeTime(step, inDisk, c, if count <= 0 then 0 else count)
  {
    if count <= 0 {
    } else {
      CountFromAgrees(step, escaped, inDisk, c, 0, count);
    }
  }

  lemma {:induction false} CountFromMeaning<C>(step: (C, C) -> C, escaped: C -> bool, c: C, i: nat, count: int)
    requires i <= count
    requires forall k: nat :: k < i ==> !escaped(Orbit(step, c, k))
    ensures var r := CountFrom(step, escaped, c, i, count);
      r <= count &&
      (forall k: nat :: k < r ==> !escaped(Orbit(step, c, k))) &&
      (r < count ==> escaped(Orbit(step, c, r)))
    decreases count - i
  {
    if i < count && !escaped(Orbit(step, c, i)) {
      CountFromMeaning(step, escaped, c, i + 1, count);
    }
  }

  /** `mandel` returns i in [0, count] (0 for a count below 1): it either
      breaks at the first escaped orbit point or stops when i reaches count. */
  lemma MandelCountMeaning<C>(step: (C, C) -> C, escaped: C -> bool, c: C, count: int)
    ensures var r := MandelCount(step, escaped, c, count);
      (count <= 0 ==> r == 0) &&
      (count > 0 ==>
         r <= count &&
         (forall k: nat :: k < r ==> !escaped(Orbit(step, c, k))) &&
         (r < count ==> escaped(Orbit(step, c, r))))
  {
    if count > 0 {
      CountFromMeaning(step, escaped, c, 0, count);
    }
  }
}
