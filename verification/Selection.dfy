/** `quickSelect` of core/Raft.go, for any choice of pivots, and what the selected value says about a majority. */
module Selection {
  import opened Common

  function CountBelow(s: seq<int>, v: int): (n: nat)
    ensures n <= |s|
  {
    if s == [] then 0 else CountBelow(s[1..], v) + if s[0] < v then 1 else 0
  }

  /** `v` is the element at position `k` of `s` in ascending order. */
  ghost predicate IsKth(s: seq<int>, k: int, v: int) {
    v in s && CountBelow(s, v) <= k < CountBelow(s, v + 1)
  }

  /** The order the three parts of a partition are compared in: below, equal, above. */
  function Below(s: seq<int>, pivot: int): (r: seq<int>)
    ensures |r| <= |s|
    ensures forall x :: x in r <==> x in s && x < pivot
  {
    if s == [] then [] else Below(s[..|s| - 1], pivot) + if s[|s| - 1] < pivot then [s[|s| - 1]] else []
  }

  function Above(s: seq<int>, pivot: int): (r: seq<int>)
    ensures |r| <= |s|
    ensures forall x :: x in r <==> x in s && x > pivot
  {
    if s == [] then [] else Above(s[..|s| - 1], pivot) + if s[|s| - 1] > pivot then [s[|s| - 1]] else []
  }

  lemma {:induction false} CountBelowAppend(a: seq<int>, b: seq<int>, v: int)
    ensures CountBelow(a + b, v) == CountBelow(a, v) + CountBelow(b, v)
    decreases |a|
  {
    if a == [] {
      assert a + b == b;
    } else {
      assert (a + b)[1..] == a[1..] + b;
      CountBelowAppend(a[1..], b, v);
    }
  }

  /** Counting below `v` splits over the partition; the equal part counts only when `pivot < v`. */
  lemma {:induction false} CountBelowPartition(s: seq<int>, pivot: int, v: int)
    ensures
      var equal := |s| - |Below(s, pivot)| - |Above(s, pivot)|;
      && equal >= 0
      && (pivot in s ==> equal >= 1)
      && CountBelow(s, v) == CountBelow(Below(s, pivot), v) + CountBelow(Above(s, pivot), v)
                             + (if pivot < v then equal else 0)
    decreases |s|
  {
    if s != [] {
      var front, last := s[..|s| - 1], s[|s| - 1];
      assert s == front + [last];
      CountBelowPartition(front, pivot, v);
      CountBelowAppend(front, [last], v);
      CountBelowAppend(Below(front, pivot), [last], v);
      CountBelowAppend(Above(front, pivot), [last], v);
      assert Below(front, pivot) + [] == Below(front, pivot);
      assert Above(front, pivot) + [] == Above(front, pivot);
    }
  }

  lemma {:induction false} CountBelowAll(s: seq<int>, v: int)
    ensures (forall i :: 0 <= i < |s| ==> s[i] < v) ==> CountBelow(s, v) == |s|
    ensures (forall i :: 0 <= i < |s| ==> s[i] >= v) ==> CountBelow(s, v) == 0
    decreases |s|
  {
    if s != [] {
      CountBelowAll(s[1..], v);
      assert forall i :: 0 <= i < |s[1..]| ==> s[1..][i] == s[i + 1];
    }
  }

  lemma {:induction false} CountBelowMonotone(s: seq<int>, v: int, w: int)
    requires v <= w
    ensures CountBelow(s, v) <= CountBelow(s, w)
    decreases |s|
  {
    if s != [] {
      CountBelowMonotone(s[1..], v, w);
    }
  }

  /** The value at a position does not depend on how it was found. */
  lemma KthUnique(s: seq<int>, k: int, v: int, w: int)
    requires IsKth(s, k, v) && IsKth(s, k, w)
    ensures v == w
  {
    if v < w {
      CountBelowMonotone(s, v + 1, w);
    } else if w < v {
      CountBelowMonotone(s, w + 1, v);
    }
  }

  // A position inside one part of the partition is a position of the whole.

  lemma KthOfBelow(s: seq<int>, pivot: int, k: int, v: int)
    requires IsKth(Below(s, pivot), k, v)
    ensures IsKth(s, k, v)
  {
    var highs := Above(s, pivot);
    assert forall i :: 0 <= i < |highs| ==> highs[i] in highs;
    CountBelowPartition(s, pivot, v);
    CountBelowPartition(s, pivot, v + 1);
    CountBelowAll(highs, v);
    CountBelowAll(highs, v + 1);
  }

  lemma KthIsPivot(s: seq<int>, pivot: int, k: int)
    requires pivot in s && |Below(s, pivot)| <= k < |s| - |Above(s, pivot)|
    ensures IsKth(s, k, pivot)
  {
    var lows, highs := Below(s, pivot), Above(s, pivot);
    assert forall i :: 0 <= i < |lows| ==> lows[i] in lows;
    assert forall i :: 0 <= i < |highs| ==> highs[i] in highs;
    CountBelowPartition(s, pivot, pivot);
    CountBelowPartition(s, pivot, pivot + 1);
    CountBelowAll(lows, pivot);
    CountBelowAll(lows, pivot + 1);
    CountBelowAll(highs, pivot);
    CountBelowAll(highs, pivot + 1);
  }

  lemma KthOfAbove(s: seq<int>, pivot: int, k: int, v: int)
    requires IsKth(Above(s, pivot), k - (|s| - |Above(s, pivot)|), v)
    ensures IsKth(s, k, v)
  {
    var lows := Below(s, pivot);
    assert forall i :: 0 <= i < |lows| ==> lows[i] in lows;
    CountBelowPartition(s, pivot, v);
    CountBelowPartition(s, pivot, v + 1);
    CountBelowAll(lows, v);
    CountBelowAll(lows, v + 1);
  }

  /** `rand.Intn` is any index: the result is the k-th smallest for every sequence of pivots. */
  method QuickSelect(arr: seq<int>, k: int) returns (r: int)
    requires 0 <= k < |arr|
    ensures IsKth(arr, k, r)
    decreases |arr|
  {
    if |arr| == 1 {
      return arr[0];
    }
    var choice :| 0 <= choice < |arr|;
    var pivot := arr[choice];
    var lows, highs, pivots := [], [], [];
    for i := 0 to |arr|
      invariant lows == Below(arr[..i], pivot)
      invariant highs == Above(arr[..i], pivot)
      invariant |lows| + |highs| + |pivots| == i
    {
      var v := arr[i];
      assert arr[..i + 1][..i] == arr[..i];
      if v < pivot {
        lows := lows + [v];
      } else if v > pivot {
        highs := highs + [v];
      } else {
        pivots := pivots + [v];
      }
    }
    assert arr[..|arr|] == arr;
    CountBelowPartition(arr, pivot, pivot);
    if k < |lows| {
      r := QuickSelect(lows, k);
      KthOfBelow(arr, pivot, k, r);
    } else if k < |lows| + |pivots| {
      r := pivot;
      KthIsPivot(arr, pivot, k);
    } else {
      r := QuickSelect(highs, k - |lows| - |pivots|);
      KthOfAbove(arr, pivot, k, r);
    }
  }

  lemma {:induction false} KthExists(s: seq<int>, k: int) returns (v: int)
    requires 0 <= k < |s|
    ensures IsKth(s, k, v)
    decreases |s|
  {
    var pivot := s[0];
    var lows, highs := Below(s, pivot), Above(s, pivot);
    CountBelowPartition(s, pivot, pivot);
    if k < |lows| {
      v := KthExists(lows, k);
      KthOfBelow(s, pivot, k, v);
    } else if k < |s| - |highs| {
      v := pivot;
      KthIsPivot(s, pivot, k);
    } else {
      v := KthExists(highs, k - (|s| - |highs|));
      KthOfAbove(s, pivot, k, v);
    }
  }

  ghost function Kth(s: seq<int>, k: int): (v: int)
    requires 0 <= k < |s|
    ensures IsKth(s, k, v)
  {
    assert exists v :: IsKth(s, k, v) by {
      var v := KthExists(s, k);
    }
    var v :| IsKth(s, k, v);
    v
  }

  // ---------------------------------------------------------------------------
  // The median as a quorum
  // ---------------------------------------------------------------------------

  function CountAtLeast(s: seq<int>, v: int): nat {
    |s| - CountBelow(s, v)
  }

  /** Selecting position `n/2` leaves at least `n - n/2` values at or above it: a strict majority when n is odd. */
  lemma MedianQuorum(s: seq<int>, v: int)
    requires s != [] && IsKth(s, |s| / 2, v)
    ensures CountAtLeast(s, v) >= |s| - |s| / 2
    ensures |s| % 2 == 1 ==> 2 * CountAtLeast(s, v) > |s|
  {
  }

  /**
   * The selected value is backed by a strict majority for every input of length `n` exactly when `n` is odd:
   * an even number of replicas can commit with only half of them.
   */
  lemma MedianIsMajorityIffOdd(n: nat)
    requires n > 0
    ensures n % 2 == 1
       <==> forall s: seq<int>, v: int :: |s| == n && IsKth(s, n / 2, v) ==> 2 * CountAtLeast(s, v) > n
  {
    if n % 2 == 1 {
      forall s: seq<int>, v: int | |s| == n && IsKth(s, n / 2, v)
        ensures 2 * CountAtLeast(s, v) > n
      {
        MedianQuorum(s, v);
      }
    } else {
      var zeros, ones := Repeat(0, n / 2), Repeat(1, n / 2);
      var s := zeros + ones;
      CountBelowAppend(zeros, ones, 1);
      CountBelowAppend(zeros, ones, 2);
      CountBelowAll(zeros, 1);
      CountBelowAll(zeros, 2);
      CountBelowAll(ones, 1);
      CountBelowAll(ones, 2);
      assert s[n / 2] == 1;
      assert |s| == n && IsKth(s, n / 2, 1);
      assert 2 * CountAtLeast(s, 1) == n;
    }
  }

  function Repeat(v: int, n: nat): (s: seq<int>)
    ensures |s| == n && forall i :: 0 <= i < n ==> s[i] == v
  {
    seq(n, _ => v)
  }
}
