/** Facts about sets, sequences and remainders that several components use. */
module Basics {

  predicate Distinct(s: seq<int>) {
    forall i, j :: 0 <= i < j < |s| ==> s[i] != s[j]
  }

  /** The numbers below n. */
  ghost function Below(n: int): (r: set<int>)
    requires 0 <= n
    ensures |r| == n && forall x :: x in r <==> 0 <= x < n
  {
    if n == 0 then {} else Below(n - 1) + {n - 1}
  }

  lemma SubsetSize<T>(a: set<T>, b: set<T>)
    requires a <= b
    ensures |a| <= |b|
    ensures |a| == |b| ==> a == b
  {
    assert b == a + (b - a);
  }

  /** Distinct members are as many as positions. */
  lemma {:induction false} DistinctSize(s: seq<int>)
    requires Distinct(s)
    ensures |set x | x in s| == |s|
  {
    var all := set x | x in s;
    if s != [] {
      var n := |s| - 1;
      DistinctSize(s[..n]);
      var rest := set x | x in s[..n];
      assert all == rest + {s[n]} by {
        forall x: int ensures x in all <==> x in rest + {s[n]} {
        }
      }
      assert s[n] !in rest;
    } else {
      assert all == {};
    }
  }

  /** Multiples of n are n apart. */
  lemma Apart(n: int, d: int)
    requires 0 < n
    ensures d == 0 || n * d >= n || n * d <= -n
  {
    if d >= 1 {
      assert n * d == n + n * (d - 1) && n * (d - 1) >= 0;
    } else if d <= -1 {
      assert n * d == -n + n * (d + 1) && n * (d + 1) <= 0;
    }
  }

  /** Quotient and remainder are unique. */
  lemma Remainder(x: int, n: int, q: int, r: int)
    requires x == n * q + r && 0 <= r < n
    ensures x % n == r
  {
    var d := q - x / n;
    assert n * d == n * q - n * (x / n);
    Apart(n, d);
  }

  /** A counter that wraps at a multiple of n has the same place in a ring of n. */
  lemma WrapMod(x: int, n: int, k: int)
    requires 0 <= x && 0 < n && 0 < k
    ensures 0 < n * k
    ensures x % (n * k) % n == x % n
  {
    var w := n * k;
    var q, r := x / w, x % w;
    var m := r / n + k * q;
    assert n * m == n * (r / n) + w * q;
    Remainder(x, n, m, r % n);
  }

  /** Less than n apart, two positions are in different places of a ring of n. */
  lemma PlacesDistinct(j: int, k: int, n: int)
    requires j < k < j + n
    ensures j % n != k % n
  {
    if j % n == k % n {
      var d := k / n - j / n;
      assert n * d == n * (k / n) - n * (j / n);
      Apart(n, d);
    }
  }

  /** What sbrk makes of the size of a process; a negative result wraps and then changes nothing. */
  function NewSize(sz: int, n: int): int {
    if sz + n < 0 then sz else sz + n
  }
}
