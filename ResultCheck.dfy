/** The element-wise result check `verifyResult(gold, result, width, height)`
    that the C++ matrix multiply and C++ mandelbrot drivers both carry (the
    two copies are the same code). It walks the grid row by row, counts
    mismatches down from 5 and gives up after the fifth; the messages it
    prints are not modelled. */
module ResultCheck {
  import opened RowMajor

  /** Both buffers hold cell `p`, with the same value. */
  ghost predicate CellAgrees(gold: seq<int>, result: seq<int>, p: nat)
  {
    p < |gold| && p < |result| && gold[p] == result[p]
  }

  /** The two buffers agree on every cell (i', j') of a width-wide grid that
      row-by-row order visits before (i, j). */
  ghost predicate AgreeBefore(gold: seq<int>, result: seq<int>, width: nat, i: nat, j: nat)
  {
    forall i', j' :: 0 <= i' && 0 <= j' < width && (i' < i || (i' == i && j' < j)) ==>
      CellAgrees(gold, result, RM(i', j', width))
  }

  /** The two buffers agree on every cell of the height-by-width grid. */
  ghost predicate GridEqual(gold: seq<int>, result: seq<int>, width: nat, height: nat)
  {
    AgreeBefore(gold, result, width, height, 0)
  }

  /** Agreement cell by cell is agreement of the first width*height entries. */
  lemma GridEqualIffPrefix(gold: seq<int>, result: seq<int>, width: nat, height: nat)
    requires height * width <= |gold| && height * width <= |result|
    ensures GridEqual(gold, result, width, height) <==>
            gold[..height * width] == result[..height * width]
  {
    var n := height * width;
    if GridEqual(gold, result, width, height) {
      forall p | 0 <= p < n ensures gold[p] == result[p] {
        RMSplit(p, width, height);
        assert CellAgrees(gold, result, RM(p / width, p % width, width));
      }
      assert gold[..n] == result[..n];
    } else {
      var i, j :| 0 <= i && 0 <= j < width && i < height &&
        !CellAgrees(gold, result, RM(i, j, width));
      RMInRange(i, j, width, height);
      assert gold[..n][RM(i, j, width)] != result[..n][RM(i, j, width)];
    }
  }

  /** `ok` is true exactly when gold and result agree on all width*height
      cells; stopping early after five mismatches only ever returns false. */
  method VerifyResult(gold: array<int>, result: array<int>, width: nat, height: nat)
    returns (ok: bool)
    requires height * width <= gold.Length && height * width <= result.Length
    ensures ok <==> GridEqual(gold[..], result[..], width, height)
    ensures ok <==> gold[..height * width] == result[..height * width]
  {
    var errLimit := 5;
    ok := true;
    var i := 0;
    while i < height
      invariant 0 <= i <= height
      invariant 0 < errLimit <= 5
      invariant ok <==> AgreeBefore(gold[..], result[..], width, i, 0)
    {
      var j := 0;
      while j < width
        invariant 0 <= j <= width
        invariant 0 < errLimit <= 5
        invariant ok <==> AgreeBefore(gold[..], result[..], width, i, j)
      {
        RMInRange(i, j, width, height);
        if gold[RM(i, j, width)] != result[RM(i, j, width)] {
          ok := false;
          errLimit := errLimit - 1;
          if errLimit <= 0 {
            assert !AgreeBefore(gold[..], result[..], width, height, 0) by {
              assert !CellAgrees(gold[..], result[..], RM(i, j, width));
            }
            GridEqualIffPrefix(gold[..], result[..], width, height);
            return;
          }
        }
        j := j + 1;
      }
      i := i + 1;
    }
    GridEqualIffPrefix(gold[..], result[..], width, height);
  }
}
