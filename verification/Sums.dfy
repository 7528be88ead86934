/** Finite sums of reals over integer ranges, and the regroupings the kernels rely on. */
module Sums {

  /** f(a) + ... + f(b - 1). */
  function Sum(f: int -> real, a: int, b: int): real
    decreases b - a
  {
    if b <= a then 0.0 else Sum(f, a, b - 1) + f(b - 1)
  }

  lemma {:induction false} SumSplit(f: int -> real, a: int, m: int, b: int)
    requires a <= m <= b
    ensures Sum(f, a, b) == Sum(f, a, m) + Sum(f, m, b)
    decreases b - m
  {
    if m < b {
      SumSplit(f, a, m, b - 1);
    }
  }

  lemma {:induction false} SumSame(f: int -> real, g: int -> real, a: int, b: int)
    requires forall k :: a <= k < b ==> f(k) == g(k)
    ensures Sum(f, a, b) == Sum(g, a, b)
    decreases b - a
  {
    if a < b {
      SumSame(f, g, a, b - 1);
    }
  }

  lemma {:induction false} SumZero(f: int -> real, a: int, b: int)
    requires forall k :: a <= k < b ==> f(k) == 0.0
    ensures Sum(f, a, b) == 0.0
    decreases b - a
  {
    if a < b {
      SumZero(f, a, b - 1);
    }
  }

  lemma {:induction false} SumScale(f: int -> real, g: int -> real, c: real, a: int, b: int)
    requires forall k :: a <= k < b ==> g(k) == c * f(k)
    ensures Sum(g, a, b) == c * Sum(f, a, b)
    decreases b - a
  {
    if a < b {
      SumScale(f, g, c, a, b - 1);
    }
  }

  lemma {:induction false} SumAdd(f: int -> real, g: int -> real, h: int -> real, a: int, b: int)
    requires forall k :: a <= k < b ==> h(k) == f(k) + g(k)
    ensures Sum(h, a, b) == Sum(f, a, b) + Sum(g, a, b)
    decreases b - a
  {
    if a < b {
      SumAdd(f, g, h, a, b - 1);
    }
  }

  /** The sum over one block of width `w`, as a function of the block number. */
  function BlockSum(f: int -> real, w: int): int -> real {
    t => Sum(f, t * w, t * w + w)
  }

  /** Summing block sums over consecutive blocks is summing the elements. */
  lemma {:induction false} SumBlocks(f: int -> real, w: nat, a: int, b: int)
    requires a <= b
    ensures Sum(BlockSum(f, w), a, b) == Sum(f, a * w, b * w)
    decreases b - a
  {
    if a < b {
      SumBlocks(f, w, a, b - 1);
      assert a * w <= (b - 1) * w <= b * w;
      assert (b - 1) * w + w == b * w;
      SumSplit(f, a * w, (b - 1) * w, b * w);
    }
  }

  /** The sum of row `i` of a matrix stored by index `j * n + i`. */
  function Strided(f: int -> real, n: int, m: int): int -> real {
    i => Sum(Column(f, n, i), 0, m)
  }

  function Column(f: int -> real, n: int, i: int): int -> real {
    j => f(j * n + i)
  }

  /** Summing by columns first (thread by thread, each striding over the tiles) is summing in order. */
  lemma {:induction false} SumStrided(f: int -> real, n: nat, m: nat)
    ensures Sum(Strided(f, n, m), 0, n) == Sum(f, 0, m * n)
    decreases m
  {
    if m == 0 {
      SumZero(Strided(f, n, m), 0, n);
    } else {
      SumStrided(f, n, m - 1);
      var row := Row(f, n, m - 1);
      SumAdd(Strided(f, n, m - 1), row, Strided(f, n, m), 0, n);
      SumShift(f, row, (m - 1) * n, n);
      assert (m - 1) * n + n == m * n;
      assert 0 <= (m - 1) * n;
      SumSplit(f, 0, (m - 1) * n, m * n);
    }
  }

  function Row(f: int -> real, n: int, j: int): int -> real {
    i => f(j * n + i)
  }

  lemma {:induction false} SumShift(f: int -> real, g: int -> real, d: int, n: nat)
    requires forall i :: 0 <= i < n ==> g(i) == f(d + i)
    ensures Sum(g, 0, n) == Sum(f, d, d + n)
  {
    if n > 0 {
      SumShift(f, g, d, n - 1);
    }
  }

  /** One at `k`, zero elsewhere. */
  function Indicator(k: int): int -> real {
    i => if i == k then 1.0 else 0.0
  }

  lemma {:induction false} SumIndicator(k: int, a: int, b: int)
    requires a <= b
    ensures Sum(Indicator(k), a, b) == if a <= k < b then 1.0 else 0.0
    decreases b - a
  {
    if a < b {
      SumIndicator(k, a, b - 1);
    }
  }

  // ----- sums in an arbitrary order

  /** f over the elements of a sequence, in that order. */
  function SumSeq(f: int -> real, s: seq<int>): real {
    if s == [] then 0.0 else SumSeq(f, s[..|s| - 1]) + f(s[|s| - 1])
  }

  lemma SumSeqSnoc(f: int -> real, s: seq<int>, x: int)
    ensures SumSeq(f, s + [x]) == SumSeq(f, s) + f(x)
  {
    assert (s + [x])[..|s|] == s;
  }

  /** Every number below `n` exactly once. */
  ghost predicate IsOrder(s: seq<int>, n: nat) {
    && |s| == n
    && (forall i, j :: 0 <= i < j < |s| ==> s[i] != s[j])
    && (forall i :: 0 <= i < |s| ==> 0 <= s[i] < n)
    && (forall k :: 0 <= k < n ==> k in s)
  }

  lemma {:induction false} SumSeqRemove(f: int -> real, s: seq<int>, i: nat)
    requires i < |s|
    ensures SumSeq(f, s) == SumSeq(f, s[..i] + s[i + 1..]) + f(s[i])
    decreases |s|
  {
    var init := s[..|s| - 1];
    var t := s[..i] + s[i + 1..];
    if i == |s| - 1 {
      assert t == init;
    } else {
      SumSeqRemove(f, init, i);
      assert t[..|t| - 1] == init[..i] + init[i + 1..];
      assert t[|t| - 1] == s[|s| - 1];
    }
  }

  function Without(s: seq<int>, i: nat): (t: seq<int>)
    requires i < |s|
    ensures |t| == |s| - 1 && forall j :: 0 <= j < |t| ==> t[j] == s[if j < i then j else j + 1]
  {
    s[..i] + s[i + 1..]
  }

  lemma WithoutHolds(s: seq<int>, i: nat, k: int)
    requires i < |s| && k in s && k != s[i]
    ensures k in Without(s, i)
  {
    var j :| 0 <= j < |s| && s[j] == k;
    assert Without(s, i)[if j < i then j else j - 1] == k;
  }

  /** Dropping the largest index leaves an order of the rest. */
  lemma WithoutIsOrder(s: seq<int>, n: nat, i: nat)
    requires n > 0 && IsOrder(s, n) && i < |s| && s[i] == n - 1
    ensures IsOrder(Without(s, i), n - 1)
  {
    var t := Without(s, i);
    forall k | 0 <= k < n - 1 ensures k in t {
      WithoutHolds(s, i, k);
    }
  }

  /** Accumulating in any order gives the sum. */
  lemma {:induction false} SumAnyOrder(f: int -> real, s: seq<int>, n: nat)
    requires IsOrder(s, n)
    ensures SumSeq(f, s) == Sum(f, 0, n)
    decreases n
  {
    if n > 0 {
      assert n - 1 in s;
      var i :| 0 <= i < |s| && s[i] == n - 1;
      SumSeqRemove(f, s, i);
      WithoutIsOrder(s, n, i);
      SumAnyOrder(f, Without(s, i), n - 1);
    }
  }
}
