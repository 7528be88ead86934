/** The launch ladder: the rung a tick of `m` rows pays for, what rounding the batch up to a power of
    two does to it, and the choice of two draft depths that share one launch bucket. */
module Ladder {

  import opened Prelude

  const LADDER: seq<nat> := [1, 2, 4, 8, 32]
  const TOP: nat := 32

  /** First rung of the ladder at or above `m`. */
  function Next(ladder: seq<nat>, m: nat): (r: nat)
    requires ladder != [] && ladder[|ladder| - 1] >= m
    ensures r in ladder && r >= m
  {
    if ladder[0] >= m then ladder[0] else Next(ladder[1..], m)
  }

  /** The rows a launch of `m` rows pays for; past the top rung it is cut into chunks of it. */
  function Rung(m: nat): (r: nat) {
    if m > TOP then TOP * CeilDiv(m, TOP)
    else Next(LADDER, m)
  }

  lemma RungTable(m: nat)
    ensures m <= 4 ==> Rung(m) == if m <= 1 then 1 else if m <= 2 then 2 else 4
    ensures 4 < m <= 32 ==> Rung(m) == if m <= 8 then 8 else 32
    ensures m > 32 ==> m <= Rung(m) < m + 32 && Rung(m) % 32 == 0
  {
    if m <= 32 {
      assert LADDER[1..] == [2, 4, 8, 32];
      assert LADDER[1..][1..] == [4, 8, 32];
      assert LADDER[1..][1..][1..] == [8, 32];
      assert m <= 1 || Next(LADDER, m) == Next(LADDER[1..], m);
      assert m <= 2 || Next(LADDER, m) == Next(LADDER[1..][1..], m);
      assert m <= 4 || Next(LADDER, m) == Next(LADDER[1..][1..][1..], m);
      assert m <= 8 || Next(LADDER, m) == Next(LADDER[1..][1..][1..][1..], m);
    }
  }

  /** A rung is the least launchable width that holds `m` rows: it is at least `m`, and no launchable
      width lies between. Hence rungs are monotone. */
  ghost predicate Launchable(r: nat) { r in LADDER || (r > 32 && r % 32 == 0) }

  lemma RungIsLeast(m: nat, r: nat)
    ensures Launchable(Rung(m)) && m <= Rung(m)
    ensures Launchable(r) && m <= r ==> Rung(m) <= r
  {
    RungTable(m);
  }

  lemma RungMonotone(m: nat, n: nat)
    requires m <= n
    ensures Rung(m) <= Rung(n)
  {
    RungIsLeast(n, 0);
    RungIsLeast(m, Rung(n));
  }

  // ----- rounding the batch up

  function BitLength(n: nat): (k: nat)
    ensures n < Pow2(k) && (n > 0 ==> k > 0 && Pow2(k - 1) <= n)
  {
    if n == 0 then 0 else BitLength(n / 2) + 1
  }

  /** `1 << (b - 1).bit_length()`. */
  function Bucket(b: nat): nat
    requires b >= 1
  {
    Pow2(BitLength(b - 1))
  }

  lemma {:induction false} Pow2Monotone(j: nat, k: nat)
    requires j <= k
    ensures Pow2(j) <= Pow2(k)
    decreases k - j
  {
    if j < k { Pow2Monotone(j, k - 1); }
  }

  /** The bucket is the least power of two at or above `b`. */
  lemma BucketIsLeast(b: nat, k: nat)
    requires b >= 1
    ensures b <= Bucket(b) < 2 * b
    ensures b <= Pow2(k) ==> Bucket(b) <= Pow2(k)
  {
    var n := BitLength(b - 1);
    if n <= k {
      Pow2Monotone(n, k);
    } else {
      Pow2Monotone(k, n - 1);
    }
  }

  /** A power of two less than twice `m` that holds `m` is its bucket. */
  lemma BucketIsUnique(m: nat, k: nat)
    requires m >= 1 && m <= Pow2(k) < 2 * m
    ensures Bucket(m) == Pow2(k)
  {
    BucketIsLeast(m, k);
    var n := BitLength(m - 1);
    if n < k {
      Pow2Monotone(n, k - 1);
    } else {
      Pow2Monotone(k, n);
    }
  }

  /** `b` doubled `j` times. */
  function Doubled(b: nat, j: nat): nat {
    if j == 0 then b else 2 * Doubled(b, j - 1)
  }

  lemma {:induction false} DoubledIsProduct(b: nat, j: nat)
    ensures Doubled(b, j) == b * Pow2(j)
  {
    if j > 0 {
      DoubledIsProduct(b, j - 1);
      assert b * (2 * Pow2(j - 1)) == 2 * (b * Pow2(j - 1));
    }
  }

  /** The bucket of the doubled batch is the doubled bucket. */
  lemma {:induction false} BucketDoubles(b: nat, j: nat)
    requires b >= 1
    ensures Doubled(b, j) >= 1 && Doubled(Bucket(b), j) == Bucket(Doubled(b, j))
  {
    if j > 0 {
      BucketDoubles(b, j - 1);
      var m := Doubled(b, j - 1);
      BucketIsLeast(m, 0);
      BucketIsUnique(2 * m, BitLength(m - 1) + 1);
    }
  }

  lemma {:induction false} Pow2Over32(k: nat)
    requires k >= 5
    ensures Pow2(k) % 32 == 0
  {
    if k > 5 { Pow2Over32(k - 1); }
  }

  /** Up to two top rungs a launch and its bucket share a rung. */
  lemma RungOfSmallBucket(m: nat, k: nat)
    requires 1 <= m <= Pow2(k) < 2 * m && k <= 6
    ensures m <= 64 && Rung(Pow2(k)) == Rung(m)
  {
    SmallPowers();
    RungTable(m);
    RungTable(Pow2(k));
    if
    case k == 0 => assert m == 1;
    case k == 1 => assert m == 2;
    case k == 2 => assert 2 < m <= 4;
    case k == 3 => assert 4 < m <= 8;
    case k == 4 => assert 8 < m <= 16;
    case k == 5 => assert 16 < m <= 32;
    case k == 6 => assert 32 < m <= 64;
  }

  /** Beyond, the bucket is a rung of its own, and the launch reaches it from the last top rung only. */
  lemma RungOfLargeBucket(m: nat, p: nat)
    requires 1 <= m <= p < 2 * m && p % 32 == 0 && p >= 128
    ensures m > 64 && (Rung(p) == Rung(m) <==> m > p - 32)
  {
    RungTable(m);
    RungTable(p);
  }

  lemma RungOfBucket(m: nat, k: nat)
    requires 1 <= m <= Pow2(k) < 2 * m
    ensures Rung(Pow2(k)) == Rung(m) <==> m <= 64 || m > Pow2(k) - 32
  {
    if k <= 6 {
      RungOfSmallBucket(m, k);
    } else {
      SmallPowers();
      Pow2Monotone(7, k);
      Pow2Over32(k);
      RungOfLargeBucket(m, Pow2(k));
    }
  }

  lemma DoubledKeepsRungIff(b: nat, j: nat)
    requires b >= 1
    ensures var m := Doubled(b, j);
      m >= 1 && (Rung(Doubled(Bucket(b), j)) == Rung(m) <==> m <= 64 || m > Bucket(m) - 32)
  {
    BucketDoubles(b, j);
    var m := Doubled(b, j);
    BucketIsLeast(m, 0);
    RungOfBucket(m, BitLength(m - 1));
  }

  /** For every power-of-two width, rounding the batch up keeps the rung exactly when the launch is at
      most two top rungs, or already within one top rung of the next power of two. */
  lemma PaddingKeepsRungIff(b: nat, j: nat, m: nat, padded: nat)
    requires b >= 1 && m == b * Pow2(j) && padded == Bucket(b) * Pow2(j)
    ensures m >= 1 && (Rung(padded) == Rung(m) <==> m <= 64 || m > Bucket(m) - 32)
  {
    DoubledIsProduct(b, j);
    DoubledIsProduct(Bucket(b), j);
    DoubledKeepsRungIff(b, j);
  }

  lemma SmallPowers()
    ensures Pow2(0) == 1 && Pow2(1) == 2 && Pow2(2) == 4 && Pow2(3) == 8
    ensures Pow2(4) == 16 && Pow2(5) == 32 && Pow2(6) == 64 && Pow2(7) == 128
  {
    assert Pow2(3) == 2 * Pow2(2);
    assert Pow2(4) == 2 * Pow2(3);
    assert Pow2(5) == 2 * Pow2(4);
    assert Pow2(6) == 2 * Pow2(5);
    assert Pow2(7) == 2 * Pow2(6);
  }

  /** Rows of a tick: batch times width. */
  function Rows(b: nat, w: nat): nat { Times(w, b) }

  /** Batch `b` at width `w` pays for a higher rung once `b` is rounded up. */
  predicate Crosses(b: nat, w: nat)
    requires b >= 1
  {
    Rung(Rows(b, w)) != Rung(Rows(Bucket(b), w))
  }

  lemma ObservedBuckets()
    ensures Bucket(1) == 1 && Bucket(2) == 2 && Bucket(3) == 4 && Bucket(4) == 4
    ensures Bucket(5) == 8 && Bucket(6) == 8 && Bucket(7) == 8
  {
    SmallPowers();
    BucketIsUnique(1, 0);
    BucketIsUnique(2, 1);
    BucketIsUnique(3, 2);
    BucketIsUnique(4, 2);
    BucketIsUnique(5, 3);
    BucketIsUnique(6, 3);
    BucketIsUnique(7, 3);
  }

  /** The sweep over the observed batches and reachable widths: only widths 5 and 6 ever cross a rung. */
  lemma ObservedCrossings(b: nat, w: nat)
    requires 1 <= b <= 7 && 1 <= w <= 8
    ensures Crosses(b, w) <==> (b == 5 && (w == 5 || w == 6)) || (b == 6 && w == 5)
  {
    ObservedBuckets();
    ObservedRungs(b, Bucket(b), w);
  }

  /** One width's multiples, spelled out. */
  lemma WidthTimes(w: nat, b: nat)
    requires 1 <= w <= 8
    ensures w == 1 ==> Rows(b, w) == b
    ensures w == 2 ==> Rows(b, w) == 2 * b
    ensures w == 3 ==> Rows(b, w) == 3 * b
    ensures w == 4 ==> Rows(b, w) == 4 * b
    ensures w == 5 ==> Rows(b, w) == 5 * b
    ensures w == 6 ==> Rows(b, w) == 6 * b
    ensures w == 7 ==> Rows(b, w) == 7 * b
    ensures w == 8 ==> Rows(b, w) == 8 * b
  {
    TimesIsProduct(w, b);
  }

  lemma ObservedRungs(b: nat, up: nat, w: nat)
    requires 1 <= b <= 7 && 1 <= w <= 8
    requires up == if b <= 2 then b else if b <= 4 then 4 else 8
    ensures Rung(Rows(b, w)) != Rung(Rows(up, w)) <==> (b == 5 && (w == 5 || w == 6)) || (b == 6 && w == 5)
  {
    WidthTimes(w, b);
    WidthTimes(w, up);
    RungTable(Rows(b, w));
    RungTable(Rows(up, w));
  }

  // ----- two depths on one launch

  datatype Arch = Sm70 | Sm90
  datatype Kernel = Gemv | Mma8 | Wgmma

  const SM90_MGEMV: nat := 3
  const SM90_MX: nat := 8

  /** WGMMA tile rows. */
  function SnapTile(m: nat): nat {
    if m <= 16 then 16 else if m <= 32 then 32 else if m <= 64 then 64 else 128
  }

  /** The kernel a tick of `m` rows runs and the rows the launch pays for. */
  function LaunchBucket(arch: Arch, m: nat): (Kernel, nat) {
    match arch
    case Sm90 =>
      if m == 1 then (Gemv, 1)
      else if m <= SM90_MGEMV then (Gemv, m)
      else if m <= SM90_MX then (Mma8, SM90_MX)
      else (Wgmma, SnapTile(m))
    case Sm70 => (Gemv, Rung(m))
  }

  /** The widths one sm90 launch can have, and the kernel that runs them. */
  ghost predicate Sm90Launch(k: Kernel, w: nat) {
    match k
    case Gemv => w == 1 || w == 2 || w == 3
    case Mma8 => w == 8
    case Wgmma => w == 16 || w == 32 || w == 64 || w == 128
  }

  /** On sm90 too the bucket is the least launch that holds the rows, up to the widest tile. */
  lemma Sm90BucketIsLeast(m: nat, k: Kernel, w: nat)
    requires m >= 1 && Sm90Launch(k, w)
    ensures var (kernel, width) := LaunchBucket(Sm90, m);
      && Sm90Launch(kernel, width)
      && (m <= 128 ==> m <= width && (m <= w ==> width <= w))
      && (m > 128 ==> (kernel, width) == (Wgmma, 128))
  {
  }

  /** A launch bucket is an interval: whatever lies between two row counts of one bucket is in it. */
  lemma BucketIsInterval(arch: Arch, lo: nat, m: nat, hi: nat)
    requires lo <= m <= hi && LaunchBucket(arch, lo) == LaunchBucket(arch, hi)
    ensures LaunchBucket(arch, m) == LaunchBucket(arch, lo)
  {
    if arch == Sm70 {
      RungMonotone(lo, m);
      RungMonotone(m, hi);
    }
  }

  datatype Choice = NoPair | Pair(lo: nat, hi: nat)

  ghost predicate Sorted(ds: seq<nat>) { forall i, j :: 0 <= i < j < |ds| ==> ds[i] <= ds[j] }

  lemma RowsMonotone(b: nat, v: nat, w: nat)
    requires v <= w
    ensures Rows(b, v) <= Rows(b, w)
  {
    TimesGrows(v, w, b);
  }

  predicate Shares(arch: Arch, b: nat, x: nat, y: nat) {
    LaunchBucket(arch, Rows(b, 1 + x)) == LaunchBucket(arch, Rows(b, 1 + y))
  }

  /** The choice is at least as wide as the pair, and starts no deeper if they are as wide. */
  ghost predicate Covers(c: Choice, lo: nat, hi: nat) {
    c.Pair? && hi - lo <= c.hi - c.lo && ((hi - lo) as int == c.hi - c.lo ==> c.lo <= lo)
  }

  /** `c` is the widest sharing pair, the shallowest one when several are, among those whose first member
      comes before `i`, or is `i` with the second before `j`. */
  ghost predicate Widest(share: (nat, nat) -> bool, ds: seq<nat>, c: Choice, i: nat, j: nat) {
    && (c.Pair? ==> share(c.lo, c.hi) && exists g, h :: 0 <= g < h < |ds| && g <= i && ds[g] == c.lo && ds[h] == c.hi)
    && (forall g, h :: 0 <= g < h < |ds| && (g < i || (g == i && h < j)) && share(ds[g], ds[h]) ==>
          Covers(c, ds[g], ds[h]))
  }

  /** The wider of the pair so far and the pair (i, j), the earlier one when they tie. */
  function Wider(share: (nat, nat) -> bool, ds: seq<nat>, c: Choice, i: nat, j: nat): Choice
    requires i < j < |ds|
  {
    if share(ds[i], ds[j]) && (c.NoPair? || ds[j] - ds[i] > c.hi - c.lo) then Pair(ds[i], ds[j]) else c
  }

  lemma WidestStep(share: (nat, nat) -> bool, ds: seq<nat>, c: Choice, i: nat, j: nat)
    requires i < j < |ds| && Sorted(ds) && Widest(share, ds, c, i, j)
    ensures Widest(share, ds, Wider(share, ds, c, i, j), i, j + 1)
  {
  }

  /** The widest pair of depths that shares a launch bucket, the shallowest one when several are as wide;
      none exactly when no two share. */
  method WidestPair(share: (nat, nat) -> bool, depths: seq<nat>) returns (c: Choice)
    requires Sorted(depths)
    ensures c.Pair? ==> share(c.lo, c.hi) && c.lo <= c.hi
    ensures c.Pair? ==> exists g, h :: 0 <= g < h < |depths| && depths[g] == c.lo && depths[h] == c.hi
    ensures c.NoPair? <==> forall g, h :: 0 <= g < h < |depths| ==> !share(depths[g], depths[h])
    ensures forall g, h :: 0 <= g < h < |depths| && share(depths[g], depths[h]) ==>
      Covers(c, depths[g], depths[h])
  {
    c := NoPair;
    for i := 0 to |depths|
      invariant Widest(share, depths, c, i, 0)
    {
      c := WidestFrom(share, depths, c, i);
    }
  }

  /** The pairs that start at depth `i`. */
  method WidestFrom(share: (nat, nat) -> bool, depths: seq<nat>, c0: Choice, i: nat) returns (c: Choice)
    requires i < |depths| && Sorted(depths) && Widest(share, depths, c0, i, 0)
    ensures Widest(share, depths, c, i + 1, 0)
  {
    c := c0;
    for j := i + 1 to |depths|
      invariant Widest(share, depths, c, i, j)
    {
      WidestStep(share, depths, c, i, j);
      c := Wider(share, depths, c, i, j);
    }
  }

  /** The chosen pair differs by draft forwards alone: every depth from one to the other pays for the
      same launch. */
  lemma PairIsOneLaunch(arch: Arch, b: nat, lo: nat, d: nat, hi: nat)
    requires lo <= d <= hi && Shares(arch, b, lo, hi)
    ensures Shares(arch, b, lo, d)
  {
    RowsMonotone(b, 1 + lo, 1 + d);
    RowsMonotone(b, 1 + d, 1 + hi);
    BucketIsInterval(arch, Rows(b, 1 + lo), Rows(b, 1 + d), Rows(b, 1 + hi));
  }
}
