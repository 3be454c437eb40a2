/** The sort benchmark: the `is_sorted` checker that `do_runs` asserts after
    the serial runs, and the four sort wrappers, which hand the slice to a
    library sort (`sort`, `sort_unstable`, `par_sort`, `par_sort_unstable`)
    in ascending order, or with the reversed comparator `b.cmp(a)` for a
    descending one. The library sorts are foreign code; each is given the
    contract it documents: the slice ends up ordered by the comparator and
    holds the same elements. */
module QuickSort {

  /** The slice element type, `u32`. */
  newtype U32 = x: int | 0 <= x < 0x1_0000_0000

  /** `is_sorted`'s test on a neighbouring pair: `<=` for sort order 0,
      `>=` for any other sort order. */
  predicate PairInOrder(a: U32, b: U32, sortOrder: nat)
  {
    if sortOrder == 0 then a <= b else a >= b
  }

  /** `(i..v.len()).all(...)`: the pair test holds at every index from i on. */
  predicate AllFrom(v: seq<U32>, i: nat, sortOrder: nat)
    requires 1 <= i
    decreases |v| - i
  {
    i >= |v| || (PairInOrder(v[i - 1], v[i], sortOrder) && AllFrom(v, i + 1, sortOrder))
  }

  /** The range form of `AllFrom` and the value of `all` on an empty range. */
  lemma {:induction false} AllFromIff(v: seq<U32>, i: nat, sortOrder: nat)
    requires 1 <= i
    ensures AllFrom(v, i, sortOrder) <==>
            forall k :: i <= k < |v| ==> PairInOrder(v[k - 1], v[k], sortOrder)
    decreases |v| - i
  {
    if i < |v| {
      AllFromIff(v, i + 1, sortOrder);
    }
  }

  /** `is_sorted(v, sort_order)`: every neighbouring pair is in order. */
  function IsSorted(v: seq<U32>, sortOrder: nat): (sorted: bool)
    ensures sorted <==> forall i :: 1 <= i < |v| ==> PairInOrder(v[i - 1], v[i], sortOrder)
  {
    AllFromIff(v, 1, sortOrder);
    AllFrom(v, 1, sortOrder)
  }

  /** `is_sorted(v, 0)` holds iff v[i-1] <= v[i] for every 1 <= i < len,
      `is_sorted(v, s)` for s != 0 iff v[i-1] >= v[i], and a slice of
      length 0 or 1 is sorted either way. */
  lemma IsSortedMeaning(v: seq<U32>, sortOrder: nat)
    ensures sortOrder == 0 ==>
      (IsSorted(v, sortOrder) <==> forall i :: 1 <= i < |v| ==> v[i - 1] <= v[i])
    ensures sortOrder != 0 ==>
      (IsSorted(v, sortOrder) <==> forall i :: 1 <= i < |v| ==> v[i - 1] >= v[i])
    ensures |v| <= 1 ==> IsSorted(v, sortOrder)
  {
    AllFromIff(v, 1, sortOrder);
  }

  /** The comparator a wrapper passes to the library sort: `Ord::cmp` for
      ascending order, `|a, b| b.cmp(a)` for descending order. */
  datatype Comparator = Natural | Reversed

  /** The comparator each wrapper chooses for a sort order: it lets `a`
      come before `b` exactly when `is_sorted` accepts the pair (a, b) for
      that sort order. */
  function ComparatorFor(sortOrder: nat): (cmp: Comparator)
    ensures forall a, b :: Precedes(a, b, cmp) <==> PairInOrder(a, b, sortOrder)
  {
    if sortOrder == 0 then Natural else Reversed
  }

  /** `a` may come before `b` under the comparator (it does not compare
      Greater). */
  predicate Precedes(a: U32, b: U32, cmp: Comparator)
  {
    match cmp
    case Natural => a <= b
    case Reversed => b <= a
  }

  /** The library sorts' postcondition on the order: every element may come
      before every later one. */
  predicate Ordered(s: seq<U32>, cmp: Comparator)
  {
    forall i, j :: 0 <= i < j < |s| ==> Precedes(s[i], s[j], cmp)
  }

  /** Ordered pairwise by the wrapper's comparator is exactly what
      `is_sorted` checks on neighbours. */
  lemma {:induction false} OrderedIffSorted(v: seq<U32>, sortOrder: nat)
    ensures Ordered(v, ComparatorFor(sortOrder)) <==> IsSorted(v, sortOrder)
  {
    var cmp := ComparatorFor(sortOrder);
    IsSortedMeaning(v, sortOrder);
    AllFromIff(v, 1, sortOrder);
    if IsSorted(v, sortOrder) {
      forall i, j | 0 <= i < j < |v| ensures Precedes(v[i], v[j], cmp) {
        NeighboursChain(v, sortOrder, i, j);
      }
    }
  }

  lemma {:induction false} NeighboursChain(v: seq<U32>, sortOrder: nat, i: nat, j: nat)
    requires i < j < |v|
    requires forall k :: 1 <= k < |v| ==> PairInOrder(v[k - 1], v[k], sortOrder)
    ensures Precedes(v[i], v[j], ComparatorFor(sortOrder))
    decreases j - i
  {
    if i + 1 < j {
      NeighboursChain(v, sortOrder, i + 1, j);
      assert PairInOrder(v[i], v[i + 1], sortOrder);
    } else {
      assert PairInOrder(v[j - 1], v[j], sortOrder);
    }
  }

  /** Insertion of x into an ordered sequence, before the first element it
      may precede. */
  function Insert(x: U32, s: seq<U32>, cmp: Comparator): (r: seq<U32>)
    ensures multiset(r) == multiset(s) + multiset{x}
    ensures Ordered(s, cmp) ==> Ordered(r, cmp)
  {
    if s == [] then [x]
    else if Precedes(x, s[0], cmp) then
      assert Ordered(s, cmp) ==> Ordered([x] + s, cmp) by {
        if Ordered(s, cmp) {
          forall j | 0 <= j < |s| ensures Precedes(x, s[j], cmp) {
            if j > 0 { assert Precedes(s[0], s[j], cmp); }
          }
        }
      }
      [x] + s
    else
      var t := Insert(x, s[1..], cmp);
      assert s == [s[0]] + s[1..];
      assert Ordered(s, cmp) ==> Ordered([s[0]] + t, cmp) by {
        if Ordered(s, cmp) {
          forall j | 0 <= j < |t| ensures Precedes(s[0], t[j], cmp) {
            assert t[j] in multiset(t);
            if t[j] != x {
              assert t[j] in multiset(s[1..]);
              var k :| 0 <= k < |s[1..]| && s[1..][k] == t[j];
              assert s[k + 1] == t[j];
            }
          }
        }
      }
      [s[0]] + t
  }

  /** A reference sort: insertion sort under the comparator. */
  function Sort(s: seq<U32>, cmp: Comparator): (r: seq<U32>)
    ensures multiset(r) == multiset(s)
    ensures Ordered(r, cmp)
  {
    if s == [] then []
    else
      assert s == [s[0]] + s[1..];
      Insert(s[0], Sort(s[1..], cmp), cmp)
  }

  /** The comparator's order is antisymmetric on u32. */
  lemma PrecedesAntisymmetric(a: U32, b: U32, cmp: Comparator)
    requires Precedes(a, b, cmp) && Precedes(b, a, cmp)
    ensures a == b
  {
  }

  /** Two non-empty orderings of the same elements start alike. */
  lemma OrderedHeadsEqual(a: seq<U32>, b: seq<U32>, cmp: Comparator)
    requires Ordered(a, cmp) && Ordered(b, cmp)
    requires multiset(a) == multiset(b)
    requires a != [] && b != []
    ensures a[0] == b[0]
  {
    assert a[0] in multiset(b);
    var j :| 0 <= j < |b| && b[j] == a[0];
    assert b[0] in multiset(a);
    var i :| 0 <= i < |a| && a[i] == b[0];
    if j > 0 { assert Precedes(b[0], b[j], cmp); }
    if i > 0 { assert Precedes(a[0], a[i], cmp); }
    PrecedesAntisymmetric(a[0], b[0], cmp);
  }

  /** Removing the first element removes it from the multiset. */
  lemma TailMultiset(a: seq<U32>)
    requires a != []
    ensures multiset(a[1..]) == multiset(a) - multiset{a[0]}
  {
    assert a == [a[0]] + a[1..];
  }

  /** Two orderings of the same elements are the same sequence: the sorted
      order of a multiset of u32 is unique. */
  lemma {:induction false} OrderedUnique(a: seq<U32>, b: seq<U32>, cmp: Comparator)
    requires Ordered(a, cmp) && Ordered(b, cmp)
    requires multiset(a) == multiset(b)
    ensures a == b
  {
    if a == [] {
      assert |multiset(b)| == 0;
    } else {
      assert |b| == |multiset(b)| == |multiset(a)| == |a|;
      OrderedHeadsEqual(a, b, cmp);
      TailMultiset(a);
      TailMultiset(b);
      OrderedUnique(a[1..], b[1..], cmp);
      assert a == [a[0]] + a[1..];
      assert b == [b[0]] + b[1..];
    }
  }

  /** The postcondition every wrapper establishes, on the slice before and
      after: sorted in the requested order, and a permutation. */
  predicate SortedPermutationOf(after: seq<U32>, before: seq<U32>, sortOrder: nat)
  {
    IsSorted(after, sortOrder) && multiset(after) == multiset(before)
  }

  /** Whatever the library sort (stable or unstable, serial or parallel),
      the outcome is determined by the input: every slice sorted in the same
      order from the same elements is the reference sort. */
  lemma OutcomeDetermined(after: seq<U32>, before: seq<U32>, sortOrder: nat)
    requires SortedPermutationOf(after, before, sortOrder)
    ensures after == Sort(before, ComparatorFor(sortOrder))
  {
    var cmp := ComparatorFor(sortOrder);
    OrderedIffSorted(after, sortOrder);
    OrderedUnique(after, Sort(before, cmp), cmp);
  }

  /** `do_runs` sorts the same buffer again on every run: sorting a slice
      that is already sorted in the same order leaves it unchanged. */
  lemma ResortUnchanged(after: seq<U32>, before: seq<U32>, sortOrder: nat)
    requires IsSorted(before, sortOrder)
    requires SortedPermutationOf(after, before, sortOrder)
    ensures after == before
  {
    var cmp := ComparatorFor(sortOrder);
    OrderedIffSorted(after, sortOrder);
    OrderedIffSorted(before, sortOrder);
    OrderedUnique(after, before, cmp);
  }

  /** A library sort of the slice with comparator `cmp`: it leaves the slice
      ordered by `cmp` and a permutation of its input. */
  method SortBy(v: array<U32>, cmp: Comparator)
    modifies v
    ensures Ordered(v[..], cmp)
    ensures multiset(v[..]) == multiset(old(v[..]))
  {
    var s := Sort(v[..], cmp);
    assert |s| == |multiset(s)| == |multiset(v[..])| == v.Length;
    for i := 0 to v.Length
      invariant forall k :: 0 <= k < i ==> v[k] == s[k]
    {
      v[i] := s[i];
    }
    assert v[..] == s;
  }

  /** The branch every wrapper takes on `sort_order`: 0 sorts with the
      natural order, anything else with the reversed comparator; either
      way the result passes `is_sorted(v, sort_order)`. */
  method SortInOrder(v: array<U32>, sortOrder: nat)
    modifies v
    ensures SortedPermutationOf(v[..], old(v[..]), sortOrder)
  {
    if sortOrder == 0 {
      SortBy(v, Natural);
    } else {
      SortBy(v, Reversed);
    }
    OrderedIffSorted(v[..], sortOrder);
  }

  /** `stable_sort_serial`: `sort()` or `sort_by(|a, b| b.cmp(a))`. */
  method StableSortSerial(sortOrder: nat, v: array<U32>)
    modifies v
    ensures SortedPermutationOf(v[..], old(v[..]), sortOrder)
  {
    SortInOrder(v, sortOrder);
  }

  /** `unstable_sort_serial`: `sort_unstable()` or `sort_unstable_by`. */
  method UnstableSortSerial(sortOrder: nat, v: array<U32>)
    modifies v
    ensures SortedPermutationOf(v[..], old(v[..]), sortOrder)
  {
    SortInOrder(v, sortOrder);
  }

  /** `stable_sort_par`: `par_sort()` or `par_sort_by`. */
  method StableSortPar(sortOrder: nat, v: array<U32>)
    modifies v
    ensures SortedPermutationOf(v[..], old(v[..]), sortOrder)
  {
    SortInOrder(v, sortOrder);
  }

  /** `unstable_sort_par`: `par_sort_unstable()` or `par_sort_unstable_by`. */
  method UnstableSortPar(sortOrder: nat, v: array<U32>)
    modifies v
    ensures SortedPermutationOf(v[..], old(v[..]), sortOrder)
  {
    SortInOrder(v, sortOrder);
  }
}
