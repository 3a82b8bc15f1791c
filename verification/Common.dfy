/** Types shared by every component: optional values, bytes and node identifiers. */
module Common {

  datatype Option<+T> = None | Some(value: T)

  type Byte = b: int | 0 <= b < 256

  type Bytes = seq<Byte>

  type Id = string

  function Max(a: int, b: int): int {
    if a < b then b else a
  }

  function Min(a: int, b: int): int {
    if a < b then a else b
  }

  /** Two maps agree at `k`: both lack it, or both have the same value. */
  ghost predicate SameAt<K, V>(a: map<K, V>, b: map<K, V>, k: K) {
    (k in a <==> k in b) && (k in a && k in b ==> a[k] == b[k])
  }

  lemma SeqAssoc<T>(a: seq<T>, b: seq<T>, c: seq<T>)
    ensures a + (b + c) == (a + b) + c
  {
  }

  ghost predicate Distinct<T>(xs: seq<T>) {
    forall i, j :: 0 <= i < j < |xs| ==> xs[i] != xs[j]
  }

  lemma DistinctSnoc<T>(xs: seq<T>, x: T)
    requires Distinct(xs) && x !in xs
    ensures Distinct(xs + [x])
  {
  }

  lemma {:induction false} DistinctFitIn<T>(xs: seq<T>, all: set<T>)
    requires Distinct(xs) && forall x :: x in xs ==> x in all
    ensures |xs| <= |all|
    decreases |xs|
  {
    if xs != [] {
      var init := xs[..|xs| - 1];
      assert forall x :: x in init ==> x in all && x != xs[|xs| - 1];
      DistinctFitIn(init, all - {xs[|xs| - 1]});
    }
  }
}

/** The few facts about `%` with a variable modulus that the ring buffer needs. */
module Modulo {

  lemma MulAtLeast(k: int, n: int)
    requires n > 0
    ensures k >= 1 ==> k * n >= n
    ensures k <= -1 ==> k * n <= -n
  {
  }

  lemma ModUnique(a: int, q: int, r: int, n: int)
    requires n > 0 && 0 <= r < n && a == q * n + r
    ensures a % n == r && a / n == q
  {
    var k := q - a / n;
    assert k * n == a % n - r by {
      assert a == (a / n) * n + a % n;
    }
    MulAtLeast(k, n);
  }

  lemma ModShift(a: int, n: int)
    requires n > 0
    ensures (a + n) % n == a % n
  {
    assert a + n == (a / n + 1) * n + a % n;
    ModUnique(a + n, a / n + 1, a % n, n);
  }

  /** Equal residues with `a < b` put them at least one modulus apart. */
  lemma ModGap(a: int, b: int, n: int)
    requires n > 0 && a < b && a % n == b % n
    ensures a + n <= b
  {
    var k := b / n - a / n;
    assert b - a == k * n by {
      assert a == (a / n) * n + a % n && b == (b / n) * n + b % n;
    }
    assert k >= 1 by {
      if k <= 0 {
        MulNonPositive(k, n);
      }
    }
    MulAtLeast(k, n);
  }

  lemma MulNonPositive(k: int, n: int)
    requires n > 0 && k <= 0
    ensures k * n <= 0
  {
  }

  /** Two different numbers less than one modulus apart never share a residue. */
  lemma ModDistinct(a: int, b: int, n: int)
    requires n > 0 && a < b < a + n
    ensures a % n != b % n
  {
    if a % n == b % n {
      ModGap(a, b, n);
    }
  }
}
