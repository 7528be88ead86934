/** The prefill kernels over the whole grid: scale-in-dequant, split-K with atomic adds, and
    scale-on-accumulator, each against the untiled product. */
module PrefillKernels {
  import opened Prelude
  import opened Sums
  import opened Fp4Codes
  import opened GemvSchedule
  import opened GemvCheck
  import opened PrefillGemm

  /** The epilogue: divide by the row's activation scale. */
  function Unscaled(v: real, s: real): real
    requires s != 0.0
  {
    v / s
  }

  /** Output element [m, n] of the untiled scaled product over k < hi. */
  function Product(p: Operands, a: Arith, m: int, n: int, hi: int): real
    requires p.ascale(m) != 0.0
  {
    Unscaled(Sum(Term(p.x, WeightOf(p, a), m, n), 0, hi), p.ascale(m))
  }

  /** The bytes pack these codes two by two, the even column in the low half. */
  ghost predicate Packs(p: Operands, codes: (int, int) -> int) {
    forall n: int, b: int :: Pair(p.wq(n, b), codes(n, 2 * b), codes(n, 2 * b + 1))
  }

  /** The k-th product of output element [m, n], written out over the unpacked codes. */
  function PlainTerm(p: Operands, a: Arith, codes: (int, int) -> int, m: int, n: int): int -> real {
    k => Scaled(p.x(m, k), PlainWeight(p, a, codes, n, k))
  }

  /** Weight [n, k]: code `k` of row `n` under the scale of its own 32 columns, narrowed. */
  function PlainWeight(p: Operands, a: Arith, codes: (int, int) -> int, n: int, k: int): real {
    a.cast(Scaled(a.decode(codes(n, k)), p.ws(n, k / 32)))
  }

  /** Scaling is multiplication, and the epilogue a division. */
  lemma PlainArithmetic(v: real, s: real)
    ensures Scaled(v, s) == v * s
    ensures s != 0.0 ==> Unscaled(v, s) == v / s
  {
  }

  lemma UnpackedCode(p: Operands, codes: (int, int) -> int, n: int, k: int)
    requires Packs(p, codes)
    ensures Code(p.wq(n, k / 2), k % 2) == codes(n, k)
  {
    var b := k / 2;
    var (lo, hi) := (codes(n, 2 * b), codes(n, 2 * b + 1));
    assert Pair(p.wq(n, b), lo, hi);
    CodesOfByte(lo, hi, p.wq(n, b));
    if k % 2 == 0 {
      assert k == 2 * b;
    } else {
      assert k == 2 * b + 1;
    }
  }

  lemma TermIsPlain(p: Operands, a: Arith, codes: (int, int) -> int, m: int, n: int, k: int)
    requires Code(p.wq(n, k / 2), k % 2) == codes(n, k)
    ensures Term(p.x, WeightOf(p, a), m, n)(k) == PlainTerm(p, a, codes, m, n)(k)
  {
    assert Weight(p, a, n, k) == PlainWeight(p, a, codes, n, k);
  }

  lemma PlainAt(p: Operands, a: Arith, codes: (int, int) -> int, m: int, n: int, k: int)
    requires Packs(p, codes)
    ensures Term(p.x, WeightOf(p, a), m, n)(k) == PlainTerm(p, a, codes, m, n)(k)
  {
    UnpackedCode(p, codes, n, k);
    TermIsPlain(p, a, codes, m, n, k);
  }

  lemma {:induction false} TermsArePlain(p: Operands, a: Arith, codes: (int, int) -> int, m: int, n: int, hi: nat)
    requires Packs(p, codes)
    ensures Sum(Term(p.x, WeightOf(p, a), m, n), 0, hi) == Sum(PlainTerm(p, a, codes, m, n), 0, hi)
  {
    if hi > 0 {
      TermsArePlain(p, a, codes, m, n, hi - 1);
      PlainAt(p, a, codes, m, n, hi - 1);
    }
  }

  /** The product the kernels are compared with: activations times narrowed scaled weights, code `k` of
      row `n` under the scale of its own 32 columns, summed and divided by the row's activation scale. */
  lemma ProductIsPlain(p: Operands, a: Arith, codes: (int, int) -> int, m: int, n: int, hi: nat)
    requires Packs(p, codes) && p.ascale(m) != 0.0
    ensures Product(p, a, m, n, hi) == Sum(PlainTerm(p, a, codes, m, n), 0, hi) / p.ascale(m)
  {
    TermsArePlain(p, a, codes, m, n, hi);
  }

  /** The activation quantizer never emits a zero scale. */
  ghost predicate ScalesNonZero(p: Operands) {
    forall m :: p.ascale(m) != 0.0
  }

  function Grid(n: nat, b: nat): nat
    requires b > 0
  {
    CeilDiv(n, b)
  }

  // ----- one thread block

  /** The accumulator holds the products of k in [lo, hi). */
  ghost predicate Accumulated(acc: array2<real>, p: Operands, a: Arith, m0: nat, n0: nat, lo: int, hi: int)
    reads acc
  {
    forall i, j :: 0 <= i < acc.Length0 && 0 <= j < acc.Length1 ==>
      acc[i, j] == Sum(Term(p.x, WeightOf(p, a), m0 + i, n0 + j), lo, hi)
  }

  /** The K-tile's weights, by either dequant. */
  method StageWeights(p: Operands, a: Arith, n0: nat, bN: nat, q: nat, k: nat, vectorized: bool, order: seq<int>,
                      at: nat)
    returns (ws: array2<real>)
    requires q > 0 && IsOrder(order, Times(bN, 2 * q)) && at == Times(k, 32 * q)
    ensures fresh(ws) && ws.Length0 == bN && ws.Length1 == 32 * q
    ensures Staged(ws, WeightOf(p, a), n0, at)
  {
    TimesIsProduct(bN, 2 * q);
    TimesIsProduct(k, 32 * q);
    if vectorized {
      ws := WeightTile(p, a, n0, bN, k, q, order, at);
    } else {
      ws := WeightTilePerElement(p, a, n0, bN, k, q, at);
    }
  }

  /** The K-tile's activations. */
  method StageActivations(p: Operands, m0: nat, bM: nat, wide: nat, at: nat) returns (xs: array2<real>)
    ensures fresh(xs) && xs.Length0 == bM && xs.Length1 == wide
    ensures Staged(xs, p.x, m0, at)
  {
    xs := new real[bM, wide];
    CopyTile(p.x, m0, at, xs);
  }

  /** A staged tile multiplied into the accumulator. */
  method AddStaged(p: Operands, a: Arith, m0: nat, n0: nat, xs: array2<real>, ws: array2<real>, acc: array2<real>,
                   ghost lo: int, ghost at: nat, ghost hi: nat)
    requires acc != ws && acc != xs
    requires xs.Length0 == acc.Length0 && ws.Length0 == acc.Length1 && xs.Length1 == ws.Length1
    requires lo <= at && hi == at + xs.Length1
    requires Staged(xs, p.x, m0, at) && Staged(ws, WeightOf(p, a), n0, at)
    requires Accumulated(acc, p, a, m0, n0, lo, at)
    modifies acc
    ensures Accumulated(acc, p, a, m0, n0, lo, hi)
  {
    Gemm(xs, ws, acc, p.x, WeightOf(p, a), m0, n0, at);
    forall i, j | 0 <= i < acc.Length0 && 0 <= j < acc.Length1
      ensures acc[i, j] == Sum(Term(p.x, WeightOf(p, a), m0 + i, n0 + j), lo, hi)
    {
      SumSplit(Term(p.x, WeightOf(p, a), m0 + i, n0 + j), lo, at, hi);
    }
  }

  /** One K-tile: stage activations and weights, multiply, accumulate. */
  method AddTile(p: Operands, a: Arith, m0: nat, n0: nat, bM: nat, bN: nat, q: nat, k: nat, vectorized: bool,
                 order: seq<int>,
                 acc: array2<real>, ghost lo: int, at: nat, ghost hi: nat)
    requires q > 0 && IsOrder(order, Times(bN, 2 * q)) && acc.Length0 == bM && acc.Length1 == bN
    requires lo <= at == Times(k, 32 * q) && hi == at + 32 * q && Accumulated(acc, p, a, m0, n0, lo, at)
    modifies acc
    ensures Accumulated(acc, p, a, m0, n0, lo, hi)
  {
    var ws := StageWeights(p, a, n0, bN, q, k, vectorized, order, at);
    var xs := StageActivations(p, m0, bM, ws.Length1, at);
    AddStaged(p, a, m0, n0, xs, ws, acc, lo, at, hi);
  }

  /** The accumulator of one thread block over K-tiles t0 .. t1 - 1 of width 32 * q. */
  method Block(p: Operands, a: Arith, m0: nat, n0: nat, bM: nat, bN: nat, q: nat, t0: nat, t1: nat,
               vectorized: bool, order: seq<int>)
    returns (acc: array2<real>)
    requires q > 0 && t0 <= t1 && IsOrder(order, Times(bN, 2 * q))
    ensures fresh(acc) && acc.Length0 == bM && acc.Length1 == bN
    ensures Accumulated(acc, p, a, m0, n0, Times(t0, 32 * q), Times(t1, 32 * q))
  {
    acc := new real[bM, bN]((_, _) => 0.0);
    AddTiles(p, a, m0, n0, bM, bN, q, t0, t1, vectorized, order, acc, Times(t0, 32 * q));
  }

  /** The K-tiles t0 .. t1 - 1, one after the other. */
  method AddTiles(p: Operands, a: Arith, m0: nat, n0: nat, bM: nat, bN: nat, q: nat, t0: nat, t1: nat,
                  vectorized: bool, order: seq<int>, acc: array2<real>, lo: nat)
    requires q > 0 && t0 <= t1 && IsOrder(order, Times(bN, 2 * q)) && acc.Length0 == bM && acc.Length1 == bN
    requires lo == Times(t0, 32 * q) && Accumulated(acc, p, a, m0, n0, lo, lo)
    modifies acc
    ensures Accumulated(acc, p, a, m0, n0, lo, Times(t1, 32 * q))
  {
    var at := lo;
    for k := t0 to t1
      invariant lo <= at == Times(k, 32 * q)
      invariant Accumulated(acc, p, a, m0, n0, lo, at)
    {
      ghost var hi := at + 32 * q;
      AddTile(p, a, m0, n0, bM, bN, q, k, vectorized, order, acc, lo, at, hi);
      at := at + 32 * q;
    }
  }

  lemma InBlock(m: nat, gy: nat, bM: nat)
    requires bM > 0
    ensures m / bM == gy <==> gy * bM <= m < gy * bM + bM
  {
    DivBounds(m, bM);
    if gy * bM <= m < gy * bM + bM {
      DivUnique(m, bM, gy, m - gy * bM);
    }
  }

  lemma BlockExists(m: nat, n: nat, b: nat)
    requires b > 0 && m < n
    ensures m / b < Grid(n, b)
  {
    DivBounds(m, b);
    DivBounds(n + b - 1, b);
    var g := Grid(n, b);
    if g <= m / b {
      MulMono(g, m / b, b);
    }
  }

  /** The store of one block, clipped to the output. */
  method Store(p: Operands, acc: array2<real>, y: array2<real>, gy: nat, gx: nat, bM: nat, bN: nat)
    requires bM > 0 && bN > 0 && ScalesNonZero(p) && acc != y
    requires acc.Length0 == bM && acc.Length1 == bN
    modifies y
    ensures forall m, n :: 0 <= m < y.Length0 && 0 <= n < y.Length1 ==>
      y[m, n] == if m / bM == gy && n / bN == gx
                 then Unscaled(acc[m - gy * bM, n - gx * bN], p.ascale(m)) else old(y[m, n])
  {
    var m0, n0 := gy * bM, gx * bN;
    forall m, n | 0 <= m < y.Length0 && 0 <= n < y.Length1 && m0 <= m < m0 + bM && n0 <= n < n0 + bN {
      y[m, n] := Unscaled(acc[m - m0, n - n0], p.ascale(m));
    }
    forall m, n | 0 <= m < y.Length0 && 0 <= n < y.Length1
      ensures y[m, n] == if m / bM == gy && n / bN == gx
                         then Unscaled(acc[m - gy * bM, n - gx * bN], p.ascale(m)) else old(y[m, n])
    {
      InBlock(m, gy, bM);
      InBlock(n, gx, bN);
    }
  }

  // ----- scale in dequant

  function ProductOf(p: Operands, a: Arith, hi: int): Matrix
    requires ScalesNonZero(p)
  {
    (m, n) => Product(p, a, m, n, hi)
  }

  /** Every output element of a block before (gy, gx) in row-major order has its value. */
  ghost predicate Written(y: array2<real>, value: Matrix, bM: nat, bN: nat, gy: nat, gx: nat)
    requires bM > 0 && bN > 0
    reads y
  {
    forall m, n :: 0 <= m < y.Length0 && 0 <= n < y.Length1 && (m / bM < gy || (m / bM == gy && n / bN < gx)) ==>
      y[m, n] == value(m, n)
  }

  /** A finished block stored. */
  method StoreBlock(p: Operands, acc: array2<real>, y: array2<real>, gy: nat, gx: nat, bM: nat, bN: nat,
                    ghost value: Matrix)
    requires bM > 0 && bN > 0 && ScalesNonZero(p) && acc != y
    requires acc.Length0 == bM && acc.Length1 == bN
    requires forall i, j :: 0 <= i < bM && 0 <= j < bN ==>
      Unscaled(acc[i, j], p.ascale(gy * bM + i)) == value(gy * bM + i, gx * bN + j)
    requires Written(y, value, bM, bN, gy, gx)
    modifies y
    ensures Written(y, value, bM, bN, gy, gx + 1)
  {
    Store(p, acc, y, gy, gx, bM, bN);
    forall m, n | 0 <= m < y.Length0 && 0 <= n < y.Length1 && (m / bM < gy || (m / bM == gy && n / bN < gx + 1))
      ensures y[m, n] == value(m, n)
    {
      InBlock(m, gy, bM);
      InBlock(n, gx, bN);
      if m / bM == gy && n / bN == gx {
        var i, j := m - gy * bM, n - gx * bN;
        assert Unscaled(acc[i, j], p.ascale(gy * bM + i)) == value(gy * bM + i, gx * bN + j);
      }
    }
  }

  /** One block of the scale-in-dequant kernel. */
  method ComputeBlock(p: Operands, a: Arith, y: array2<real>, gy: nat, gx: nat, bM: nat, bN: nat, q: nat, tiles: nat,
                      vectorized: bool, order: seq<int>, ghost hi: nat)
    requires bM > 0 && bN > 0 && q > 0 && ScalesNonZero(p)
    requires IsOrder(order, Times(bN, 2 * q)) && hi == Times(tiles, 32 * q)
    requires Written(y, ProductOf(p, a, hi), bM, bN, gy, gx)
    modifies y
    ensures Written(y, ProductOf(p, a, hi), bM, bN, gy, gx + 1)
  {
    var acc := Block(p, a, gy * bM, gx * bN, bM, bN, q, 0, tiles, vectorized, order);
    StoreBlock(p, acc, y, gy, gx, bM, bN, ProductOf(p, a, hi));
  }

  /** The scale-in-dequant kernel on a grid of blocks: every output element is the untiled product
      over the whole K-tiles, whatever the block sizes and the order of the dequant groups, with the
      vectorized dequant and with the per-element one. */
  method ScaleInDequant(p: Operands, a: Arith, M: nat, N: nat, K: nat, bM: nat, bN: nat, q: nat,
                        vectorized: bool, order: seq<int>)
    returns (y: array2<real>)
    requires bM > 0 && bN > 0 && q > 0 && ScalesNonZero(p) && IsOrder(order, bN * (2 * q))
    ensures fresh(y) && y.Length0 == M && y.Length1 == N
    ensures forall m, n :: 0 <= m < M && 0 <= n < N ==> y[m, n] == Product(p, a, m, n, K / (32 * q) * (32 * q))
    ensures forall codes {:trigger Packs(p, codes)} :: Packs(p, codes) ==>
      forall m, n :: 0 <= m < M && 0 <= n < N ==>
        y[m, n] == Sum(PlainTerm(p, a, codes, m, n), 0, K / (32 * q) * (32 * q)) / p.ascale(m)
  {
    y := ComputeProduct(p, a, M, N, K, bM, bN, q, vectorized, order);
    DivBounds(K, 32 * q);
    forall codes, m, n | Packs(p, codes) && 0 <= m < M && 0 <= n < N
      ensures y[m, n] == Sum(PlainTerm(p, a, codes, m, n), 0, K / (32 * q) * (32 * q)) / p.ascale(m)
    {
      ProductIsPlain(p, a, codes, m, n, K / (32 * q) * (32 * q));
    }
  }

  method ComputeProduct(p: Operands, a: Arith, M: nat, N: nat, K: nat, bM: nat, bN: nat, q: nat,
                        vectorized: bool, order: seq<int>)
    returns (y: array2<real>)
    requires bM > 0 && bN > 0 && q > 0 && ScalesNonZero(p) && IsOrder(order, bN * (2 * q))
    ensures fresh(y) && y.Length0 == M && y.Length1 == N
    ensures forall m, n :: 0 <= m < M && 0 <= n < N ==> y[m, n] == Product(p, a, m, n, K / (32 * q) * (32 * q))
  {
    y := new real[M, N];
    DivBounds(K, 32 * q);
    TimesIsProduct(bN, 2 * q);
    TimesIsProduct(K / (32 * q), 32 * q);
    ComputeGrid(p, a, y, bM, bN, q, K / (32 * q), vectorized, order, K / (32 * q) * (32 * q));
  }

  /** Every block of the grid, row by row. */
  method ComputeGrid(p: Operands, a: Arith, y: array2<real>, bM: nat, bN: nat, q: nat, tiles: nat,
                     vectorized: bool, order: seq<int>, ghost hi: nat)
    requires bM > 0 && bN > 0 && q > 0 && ScalesNonZero(p)
    requires IsOrder(order, Times(bN, 2 * q)) && hi == Times(tiles, 32 * q)
    modifies y
    ensures forall m, n :: 0 <= m < y.Length0 && 0 <= n < y.Length1 ==> y[m, n] == ProductOf(p, a, hi)(m, n)
  {
    ghost var value := ProductOf(p, a, hi);
    for gy := 0 to Grid(y.Length0, bM)
      invariant Written(y, value, bM, bN, gy, 0)
    {
      ComputeRow(p, a, y, gy, bM, bN, q, tiles, vectorized, order, hi);
    }
    AllDone(y, value, bM, bN);
  }

  /** One row of blocks. */
  method ComputeRow(p: Operands, a: Arith, y: array2<real>, gy: nat, bM: nat, bN: nat, q: nat, tiles: nat,
                    vectorized: bool, order: seq<int>, ghost hi: nat)
    requires bM > 0 && bN > 0 && q > 0 && ScalesNonZero(p)
    requires IsOrder(order, Times(bN, 2 * q)) && hi == Times(tiles, 32 * q)
    requires Written(y, ProductOf(p, a, hi), bM, bN, gy, 0)
    modifies y
    ensures Written(y, ProductOf(p, a, hi), bM, bN, gy + 1, 0)
  {
    for gx := 0 to Grid(y.Length1, bN)
      invariant Written(y, ProductOf(p, a, hi), bM, bN, gy, gx)
    {
      ComputeBlock(p, a, y, gy, gx, bM, bN, q, tiles, vectorized, order, hi);
    }
    RowDone(y, ProductOf(p, a, hi), bM, bN, gy);
  }

  /** A row of blocks written to its end is a row of the output written. */
  lemma RowDone(y: array2<real>, value: Matrix, bM: nat, bN: nat, gy: nat)
    requires bM > 0 && bN > 0
    requires Written(y, value, bM, bN, gy, Grid(y.Length1, bN))
    ensures Written(y, value, bM, bN, gy + 1, 0)
  {
    forall n | 0 <= n < y.Length1 ensures n / bN < Grid(y.Length1, bN) {
      BlockExists(n, y.Length1, bN);
    }
  }

  lemma AllDone(y: array2<real>, value: Matrix, bM: nat, bN: nat)
    requires bM > 0 && bN > 0
    requires Written(y, value, bM, bN, Grid(y.Length0, bM), 0)
    ensures forall m, n :: 0 <= m < y.Length0 && 0 <= n < y.Length1 ==> y[m, n] == value(m, n)
  {
    forall m | 0 <= m < y.Length0 ensures m / bM < Grid(y.Length0, bM) {
      BlockExists(m, y.Length0, bM);
    }
  }

  // ----- split-K

  /** One launched block: block row, block column, K-split. */
  datatype Launch = Launch(gy: nat, gx: nat, part: nat)

  /** The parts of block (gy, gx), in launch order. */
  function Parts(launches: seq<Launch>, gy: int, gx: int): seq<int> {
    if launches == [] then [] else
      var l := launches[|launches| - 1];
      Parts(launches[..|launches| - 1], gy, gx) + if l.gy == gy && l.gx == gx then [l.part] else []
  }

  lemma PartsSnoc(launches: seq<Launch>, l: Launch, gy: int, gx: int)
    ensures Parts(launches + [l], gy, gx) == Parts(launches, gy, gx) + if l.gy == gy && l.gx == gx then [l.part] else []
  {
    assert (launches + [l])[..|launches|] == launches;
  }

  /** Every block of the grid runs each of its parts once, in any interleaving. */
  ghost predicate EachOnce(launches: seq<Launch>, rows: nat, cols: nat, split: nat) {
    && (forall i :: 0 <= i < |launches| ==> launches[i].part < split)
    && (forall gy: nat, gx: nat :: gy < rows && gx < cols ==> IsOrder(Parts(launches, gy, gx), split))
  }

  /** K-tiles per part. */
  function PerPart(K: nat, split: nat): nat
    requires split > 0
  {
    K / split / 64
  }

  /** The divided products of 64-wide K-tiles t0 .. t1 - 1. */
  function Slice(p: Operands, a: Arith, m: int, n: int, t0: int, t1: int): real
    requires p.ascale(m) != 0.0
  {
    Unscaled(Sum(Term(p.x, WeightOf(p, a), m, n), t0 * (32 * 2), t1 * (32 * 2)), p.ascale(m))
  }

  /** What part `t` adds to output element [m, n]. */
  function Partial(p: Operands, a: Arith, m: int, n: int, per: nat): int -> real
    requires p.ascale(m) != 0.0
  {
    t => Slice(p, a, m, n, t * per, (t + 1) * per)
  }

  /** Atomic adds of one block's divided accumulator into the output. */
  method AtomicAdd(p: Operands, acc: array2<real>, y: array2<real>, gy: nat, gx: nat, bM: nat, bN: nat)
    requires bM > 0 && bN > 0 && ScalesNonZero(p) && acc != y
    requires acc.Length0 == bM && acc.Length1 == bN
    modifies y
    ensures forall m, n :: 0 <= m < y.Length0 && 0 <= n < y.Length1 ==>
      y[m, n] == if m / bM == gy && n / bN == gx
                 then old(y[m, n]) + Unscaled(acc[m - gy * bM, n - gx * bN], p.ascale(m)) else old(y[m, n])
  {
    var m0, n0 := gy * bM, gx * bN;
    forall m, n | 0 <= m < y.Length0 && 0 <= n < y.Length1 && m0 <= m < m0 + bM && n0 <= n < n0 + bN {
      y[m, n] := y[m, n] + Unscaled(acc[m - m0, n - n0], p.ascale(m));
    }
    forall m, n | 0 <= m < y.Length0 && 0 <= n < y.Length1
      ensures y[m, n] == if m / bM == gy && n / bN == gx
                         then old(y[m, n]) + Unscaled(acc[m - gy * bM, n - gx * bN], p.ascale(m)) else old(y[m, n])
    {
      InBlock(m, gy, bM);
      InBlock(n, gx, bN);
    }
  }

  /** What each part adds to each output element. */
  function PartialOf(p: Operands, a: Arith, per: nat): (int, int) -> (int -> real)
    requires ScalesNonZero(p)
  {
    (m, n) => Partial(p, a, m, n, per)
  }

  /** The output after a list of launches: the initial value plus each launched part's contribution. */
  ghost predicate Added(y: array2<real>, y0: Matrix, part: (int, int) -> (int -> real), bM: nat, bN: nat,
                        launches: seq<Launch>)
    requires bM > 0 && bN > 0
    reads y
  {
    forall m, n :: 0 <= m < y.Length0 && 0 <= n < y.Length1 ==>
      y[m, n] == y0(m, n) + SumSeq(part(m, n), Parts(launches, m / bM, n / bN))
  }

  /** One block's K-tiles t0 .. t1 - 1, added to the output. */
  method AddSlice(p: Operands, a: Arith, y: array2<real>, gy: nat, gx: nat, bM: nat, bN: nat, t0: nat, t1: nat,
                  order: seq<int>)
    requires bM > 0 && bN > 0 && ScalesNonZero(p) && IsOrder(order, bN * (2 * 2)) && t0 <= t1
    modifies y
    ensures forall m, n :: 0 <= m < y.Length0 && 0 <= n < y.Length1 ==>
      y[m, n] == if m / bM == gy && n / bN == gx then old(y[m, n]) + Slice(p, a, m, n, t0, t1) else old(y[m, n])
  {
    TimesIsProduct(bN, 2 * 2);
    TimesIsProduct(t0, 32 * 2);
    TimesIsProduct(t1, 32 * 2);
    var acc := Block(p, a, gy * bM, gx * bN, bM, bN, 2, t0, t1, true, order);
    AtomicAdd(p, acc, y, gy, gx, bM, bN);
    forall m, n | 0 <= m < y.Length0 && 0 <= n < y.Length1
      ensures y[m, n] == if m / bM == gy && n / bN == gx then old(y[m, n]) + Slice(p, a, m, n, t0, t1) else old(y[m, n])
    {
      InBlock(m, gy, bM);
      InBlock(n, gx, bN);
    }
  }

  /** One launch: K-tiles part * per .. (part + 1) * per - 1 of its block. */
  method RunLaunch(p: Operands, a: Arith, y: array2<real>, bM: nat, bN: nat, per: nat, order: seq<int>, l: Launch)
    requires bM > 0 && bN > 0 && ScalesNonZero(p) && IsOrder(order, bN * (2 * 2))
    modifies y
    ensures forall m, n :: 0 <= m < y.Length0 && 0 <= n < y.Length1 ==>
      y[m, n] == if m / bM == l.gy && n / bN == l.gx
                 then old(y[m, n]) + PartialOf(p, a, per)(m, n)(l.part) else old(y[m, n])
  {
    MulMono(l.part, l.part + 1, per);
    AddSlice(p, a, y, l.gy, l.gx, bM, bN, l.part * per, (l.part + 1) * per, order);
  }

  /** One more launch, one more contribution, to the elements of its block. */
  lemma PartStep(f: int -> real, y0: real, was: real, now: real, before: seq<Launch>, l: Launch, gy: int, gx: int)
    requires was == y0 + SumSeq(f, Parts(before, gy, gx))
    requires now == if gy == l.gy && gx == l.gx then was + f(l.part) else was
    ensures now == y0 + SumSeq(f, Parts(before + [l], gy, gx))
  {
    var parts := Parts(before, gy, gx);
    PartsSnoc(before, l, gy, gx);
    SumSeqSnoc(f, parts, l.part);
    assert parts + [] == parts;
  }

  lemma AddedSnoc(y: array2<real>, was: Matrix, y0: Matrix, part: (int, int) -> (int -> real), bM: nat, bN: nat,
                  before: seq<Launch>, l: Launch)
    requires bM > 0 && bN > 0
    requires forall m, n :: 0 <= m < y.Length0 && 0 <= n < y.Length1 ==>
      was(m, n) == y0(m, n) + SumSeq(part(m, n), Parts(before, m / bM, n / bN))
    requires forall m, n :: 0 <= m < y.Length0 && 0 <= n < y.Length1 ==>
      y[m, n] == if m / bM == l.gy && n / bN == l.gx then was(m, n) + part(m, n)(l.part) else was(m, n)
    ensures Added(y, y0, part, bM, bN, before + [l])
  {
    forall m, n | 0 <= m < y.Length0 && 0 <= n < y.Length1
      ensures y[m, n] == y0(m, n) + SumSeq(part(m, n), Parts(before + [l], m / bM, n / bN))
    {
      PartStep(part(m, n), y0(m, n), was(m, n), y[m, n], before, l, m / bM, n / bN);
    }
  }

  ghost function Rows(y: array2<real>): (r: seq<seq<real>>)
    reads y
    ensures |r| == y.Length0
    ensures forall i :: 0 <= i < |r| ==> |r[i]| == y.Length1
    ensures forall i, j :: 0 <= i < |r| && 0 <= j < |r[i]| ==> r[i][j] == y[i, j]
  {
    seq(y.Length0, i requires 0 <= i < y.Length0 reads y =>
      seq(y.Length1, j requires 0 <= j < y.Length1 reads y => y[i, j]))
  }

  ghost function MatrixOf(r: seq<seq<real>>): Matrix {
    (m, n) => if 0 <= m < |r| && 0 <= n < |r[m]| then r[m][n] else 0.0
  }

  /** Launches in any interleaving add up, on top of what the output held. */
  method RunLaunches(p: Operands, a: Arith, y: array2<real>, bM: nat, bN: nat, per: nat, order: seq<int>,
                     launches: seq<Launch>, ghost y0: Matrix)
    requires bM > 0 && bN > 0 && ScalesNonZero(p) && IsOrder(order, bN * (2 * 2))
    requires forall m, n :: 0 <= m < y.Length0 && 0 <= n < y.Length1 ==> y[m, n] == y0(m, n)
    modifies y
    ensures Added(y, y0, PartialOf(p, a, per), bM, bN, launches)
  {
    for i := 0 to |launches|
      invariant Added(y, y0, PartialOf(p, a, per), bM, bN, launches[..i])
    {
      ghost var was := MatrixOf(Rows(y));
      RunLaunch(p, a, y, bM, bN, per, order, launches[i]);
      AddedSnoc(y, was, y0, PartialOf(p, a, per), bM, bN, launches[..i], launches[i]);
      assert launches[..i + 1] == launches[..i] + [launches[i]];
    }
    assert launches[..|launches|] == launches;
  }

  /** The columns the parts cover. */
  function Covered(K: nat, split: nat): nat
    requires split > 0
  {
    split * (PerPart(K, split) * 64)
  }

  lemma UnscaledIsLinear(f: int -> real, g: int -> real, s: real, n: nat)
    requires s != 0.0 && forall t :: 0 <= t < n ==> g(t) == Unscaled(f(t), s)
    ensures Sum(g, 0, n) == Unscaled(Sum(f, 0, n), s)
  {
    SumScale(f, g, 1.0 / s, 0, n);
  }

  /** The parts of one output element add up to the product over the covered columns. */
  lemma PartsAddUp(p: Operands, a: Arith, m: int, n: int, per: nat, split: nat)
    requires p.ascale(m) != 0.0
    ensures Sum(Partial(p, a, m, n, per), 0, split) == Product(p, a, m, n, split * (per * 64))
  {
    var f := Term(p.x, WeightOf(p, a), m, n);
    var w := per * 64;
    forall t | 0 <= t < split
      ensures Partial(p, a, m, n, per)(t) == Unscaled(BlockSum(f, w)(t), p.ascale(m))
    {
      PartRange(t, per);
    }
    UnscaledIsLinear(BlockSum(f, w), Partial(p, a, m, n, per), p.ascale(m), split);
    SumBlocks(f, w, 0, split);
  }

  lemma PartRange(t: nat, per: nat)
    ensures t * per * (32 * 2) == t * (per * 64)
    ensures (t + 1) * per * (32 * 2) == t * (per * 64) + per * 64
  {
  }

  /** The split-K kernel: every block of the grid runs each of its parts once, in any order and
      interleaved with the other blocks; the divided partial products are added into the output. The
      result is the product over the columns the parts cover. */
  method SplitKernel(p: Operands, a: Arith, y: array2<real>, K: nat, split: nat, bM: nat, bN: nat,
                     order: seq<int>, launches: seq<Launch>)
    requires bM > 0 && bN > 0 && split > 0 && ScalesNonZero(p) && IsOrder(order, bN * (2 * 2))
    requires EachOnce(launches, Grid(y.Length0, bM), Grid(y.Length1, bN), split)
    modifies y
    ensures forall m, n :: 0 <= m < y.Length0 && 0 <= n < y.Length1 ==>
      y[m, n] == old(y[m, n]) + Product(p, a, m, n, Covered(K, split))
  {
    var per := PerPart(K, split);
    ghost var y0 := MatrixOf(Rows(y));
    RunLaunches(p, a, y, bM, bN, per, order, launches, y0);
    forall m, n | 0 <= m < y.Length0 && 0 <= n < y.Length1
      ensures y[m, n] == y0(m, n) + Product(p, a, m, n, Covered(K, split))
    {
      ElementTotal(p, a, m, n, y.Length0, y.Length1, K, split, bM, bN, launches);
    }
  }

  /** Whatever order an element's parts were added in, they total the product over the covered columns. */
  lemma ElementTotal(p: Operands, a: Arith, m: nat, n: nat, M: nat, N: nat, K: nat, split: nat, bM: nat, bN: nat,
                     launches: seq<Launch>)
    requires bM > 0 && bN > 0 && split > 0 && p.ascale(m) != 0.0 && m < M && n < N
    requires EachOnce(launches, Grid(M, bM), Grid(N, bN), split)
    ensures SumSeq(Partial(p, a, m, n, PerPart(K, split)), Parts(launches, m / bM, n / bN))
         == Product(p, a, m, n, Covered(K, split))
  {
    BlockExists(m, M, bM);
    BlockExists(n, N, bN);
    DivBounds(m, bM);
    DivBounds(n, bN);
    var gy: nat, gx: nat := m / bM, n / bN;
    assert IsOrder(Parts(launches, gy, gx), split);
    SumAnyOrder(Partial(p, a, m, n, PerPart(K, split)), Parts(launches, gy, gx), split);
    PartsAddUp(p, a, m, n, PerPart(K, split), split);
  }

  /** The parts cover every column exactly when whole 64-wide tiles split evenly. */
  lemma CoveredIff(K: nat, split: nat)
    requires split > 0
    ensures Covered(K, split) <= K
    ensures Covered(K, split) == K <==> K % (split * 64) == 0
  {
    CoveredBelow(K, split);
    if K % (split * 64) == 0 {
      WholeParts(K, split, K / (split * 64));
    } else if Covered(K, split) == K {
      CoveredDivides(K, split, PerPart(K, split));
    }
  }

  lemma CoveredBelow(K: nat, split: nat)
    requires split > 0
    ensures Covered(K, split) <= K
  {
    var u := K / split;
    DivBounds(K, split);
    DivBounds(u, 64);
    MulMono(u / 64 * 64, u, split);
  }

  /** A K of `per` tiles per part. */
  lemma CoveredDivides(K: nat, split: nat, per: nat)
    requires split > 0 && K == split * (per * 64)
    ensures K % (split * 64) == 0
  {
    Reassociate(split, per);
    DivUnique(K, split * 64, per, 0);
  }

  lemma WholeParts(K: nat, split: nat, c: nat)
    requires split > 0 && K == (split * 64) * c
    ensures Covered(K, split) == K
  {
    Reassociate(split, c);
    DivUnique(K, split, c * 64, 0);
    DivUnique(c * 64, 64, c, 0);
  }

  lemma Reassociate(split: nat, c: nat)
    ensures (split * 64) * c == split * (c * 64) == (c * 64) * split == c * (split * 64)
  {
  }

  /** Operands that put a one on the last column of every activation row, and the same code and scale on
      every weight. */
  function LastColumn(K: nat, c: int, s: real): Operands
    requires 0 <= c < 16
  {
    Operands((m, k) => if k == K - 1 then 1.0 else 0.0, (n, b) => Twin(c), (n, t) => s, m => 1.0)
  }

  /** The byte with one code in both halves. */
  function Twin(c: int): Byte
    requires 0 <= c < 16
  {
    c + 16 * c
  }

  lemma LastColumnTerm(a: Arith, K: nat, c: int, s: real, m: int, n: int, k: int)
    requires 0 <= c < 16
    ensures var p := LastColumn(K, c, s);
      Term(p.x, WeightOf(p, a), m, n)(k) == Narrowed(a, s)(c) * Indicator(K - 1)(k)
  {
    assert Code(Twin(c), k % 2) == c;
    var p := LastColumn(K, c, s);
    assert WeightOf(p, a)(n, k) == Narrowed(a, s)(c);
  }

  lemma LastColumnProduct(a: Arith, K: nat, c: int, s: real, m: int, n: int, hi: nat)
    requires 0 <= c < 16 && K > 0 && hi <= K
    ensures Product(LastColumn(K, c, s), a, m, n, hi) == if hi == K then Narrowed(a, s)(c) else 0.0
  {
    var p := LastColumn(K, c, s);
    var f := Term(p.x, WeightOf(p, a), m, n);
    forall k | 0 <= k < hi ensures f(k) == Narrowed(a, s)(c) * Indicator(K - 1)(k) {
      LastColumnTerm(a, K, c, s, m, n, k);
    }
    SumScale(Indicator(K - 1), f, Narrowed(a, s)(c), 0, hi);
    SumIndicator(K - 1, 0, hi);
  }

  /** Split-K gives the whole product for all operands exactly when nothing is dropped: unless every
      weight narrows to zero, dropping the tail shows. */
  lemma SplitIsWholeIff(a: Arith, K: nat, split: nat, c: int, s: real)
    requires split > 0 && 0 <= c < 16 && a.cast(Scaled(a.decode(c), s)) != 0.0
    ensures (forall p: Operands, m: int, n: int | ScalesNonZero(p) ::
               Product(p, a, m, n, Covered(K, split)) == Product(p, a, m, n, K))
       <==> K % (split * 64) == 0
  {
    CoveredIff(K, split);
    if K % (split * 64) != 0 {
      var p := LastColumn(K, c, s);
      LastColumnProduct(a, K, c, s, 0, 0, Covered(K, split));
      LastColumnProduct(a, K, c, s, 0, 0, K);
      assert ScalesNonZero(p);
      assert Product(p, a, 0, 0, Covered(K, split)) != Product(p, a, 0, 0, K);
    }
  }

  // ----- scale on the accumulator

  /** The unscaled weight: the e4m3 reading of each code. */
  function CodeOf(p: Operands, decode: int -> real): Matrix {
    (n, k) => decode(Code(p.wq(n, k / 2), k % 2))
  }

  /** 32-wide K-tile `k` of output element [m, n]: unscaled partial product times the block scale. */
  function ScaledTile(p: Operands, decode: int -> real, m: int, n: int): int -> real {
    k => Scaled(Sum(Term(p.x, CodeOf(p, decode), m, n), k * 32, k * 32 + 32), p.ws(n, k))
  }

  function AccumulatorValue(p: Operands, decode: int -> real, tiles: int): Matrix
    requires ScalesNonZero(p)
  {
    (m, n) => Unscaled(Sum(ScaledTile(p, decode, m, n), 0, tiles), p.ascale(m))
  }

  /** The unscaled weight tile, staged and dequantized by the integer macro. */
  method IntWeightTile(p: Operands, decode: int -> real, n0: nat, bN: nat, k: nat, order: seq<int>)
    returns (ws: array2<real>)
    requires IsOrder(order, bN * (2 * 1))
    ensures fresh(ws) && ws.Length0 == bN && ws.Length1 == 32
    ensures Staged(ws, CodeOf(p, decode), n0, k * 32)
  {
    var wq := new Byte[bN, 16];
    ws := new real[bN, 32];
    CopyBytes(p.wq, n0, k * 32 / 2, wq);
    IntDequantTile(wq, ws, decode, 1, order);
    forall r, c | 0 <= r < bN && 0 <= c < 32 ensures ws[r, c] == CodeOf(p, decode)(n0 + r, k * 32 + c) {
      TileColumn(k, 1, c, k * 32);
    }
  }

  /** One 32-wide K-tile into a cleared local accumulator. */
  method LocalTile(p: Operands, decode: int -> real, m0: nat, n0: nat, bM: nat, bN: nat, k: nat, order: seq<int>)
    returns (acc: array2<real>)
    requires IsOrder(order, bN * (2 * 1))
    ensures fresh(acc) && acc.Length0 == bM && acc.Length1 == bN
    ensures forall i, j :: 0 <= i < bM && 0 <= j < bN ==>
      acc[i, j] == Sum(Term(p.x, CodeOf(p, decode), m0 + i, n0 + j), k * 32, k * 32 + 32)
  {
    acc := new real[bM, bN]((_, _) => 0.0);
    var xs := new real[bM, 32];
    CopyTile(p.x, m0, k * 32, xs);
    var ws := IntWeightTile(p, decode, n0, bN, k, order);
    Gemm(xs, ws, acc, p.x, CodeOf(p, decode), m0, n0, k * 32);
  }

  /** `C_accum += C_local * WScale` over one block. */
  method AddScaled(p: Operands, acc: array2<real>, local: array2<real>, n0: nat, k: nat)
    requires acc != local && acc.Length0 == local.Length0 && acc.Length1 == local.Length1
    modifies acc
    ensures forall i, j :: 0 <= i < acc.Length0 && 0 <= j < acc.Length1 ==>
      acc[i, j] == old(acc[i, j]) + Scaled(local[i, j], p.ws(n0 + j, k))
  {
    forall i, j | 0 <= i < acc.Length0 && 0 <= j < acc.Length1 {
      acc[i, j] := acc[i, j] + Scaled(local[i, j], p.ws(n0 + j, k));
    }
  }

  method ScaledBlock(p: Operands, decode: int -> real, m0: nat, n0: nat, bM: nat, bN: nat, tiles: nat, order: seq<int>)
    returns (acc: array2<real>)
    requires IsOrder(order, bN * (2 * 1))
    ensures fresh(acc) && acc.Length0 == bM && acc.Length1 == bN
    ensures forall i, j :: 0 <= i < bM && 0 <= j < bN ==>
      acc[i, j] == Sum(ScaledTile(p, decode, m0 + i, n0 + j), 0, tiles)
  {
    acc := new real[bM, bN]((_, _) => 0.0);
    for k := 0 to tiles
      invariant forall i, j :: 0 <= i < bM && 0 <= j < bN ==>
        acc[i, j] == Sum(ScaledTile(p, decode, m0 + i, n0 + j), 0, k)
    {
      var local := LocalTile(p, decode, m0, n0, bM, bN, k, order);
      AddScaled(p, acc, local, n0, k);
    }
  }

  /** The scale-on-accumulator kernel. */
  method ScaleOnAccumulator(p: Operands, decode: int -> real, M: nat, N: nat, K: nat, bM: nat, bN: nat, order: seq<int>)
    returns (y: array2<real>)
    requires bM > 0 && bN > 0 && ScalesNonZero(p) && IsOrder(order, bN * (2 * 1))
    ensures fresh(y) && y.Length0 == M && y.Length1 == N
    ensures forall m, n :: 0 <= m < M && 0 <= n < N ==> y[m, n] == AccumulatorValue(p, decode, K / 32)(m, n)
  {
    y := new real[M, N];
    AccumulateGrid(p, decode, y, bM, bN, K / 32, order);
  }

  method AccumulateGrid(p: Operands, decode: int -> real, y: array2<real>, bM: nat, bN: nat, tiles: nat,
                        order: seq<int>)
    requires bM > 0 && bN > 0 && ScalesNonZero(p) && IsOrder(order, bN * (2 * 1))
    modifies y
    ensures forall m, n :: 0 <= m < y.Length0 && 0 <= n < y.Length1 ==>
      y[m, n] == AccumulatorValue(p, decode, tiles)(m, n)
  {
    ghost var value := AccumulatorValue(p, decode, tiles);
    for gy := 0 to Grid(y.Length0, bM)
      invariant Written(y, value, bM, bN, gy, 0)
    {
      AccumulateRow(p, decode, y, gy, bM, bN, tiles, order, value);
    }
    AllDone(y, value, bM, bN);
  }

  method AccumulateRow(p: Operands, decode: int -> real, y: array2<real>, gy: nat, bM: nat, bN: nat, tiles: nat,
                       order: seq<int>, ghost value: Matrix)
    requires bM > 0 && bN > 0 && ScalesNonZero(p) && IsOrder(order, bN * (2 * 1))
    requires value == AccumulatorValue(p, decode, tiles) && Written(y, value, bM, bN, gy, 0)
    modifies y
    ensures Written(y, value, bM, bN, gy + 1, 0)
  {
    for gx := 0 to Grid(y.Length1, bN)
      invariant Written(y, value, bM, bN, gy, gx)
    {
      var acc := ScaledBlock(p, decode, gy * bM, gx * bN, bM, bN, tiles, order);
      StoreBlock(p, acc, y, gy, gx, bM, bN, value);
    }
    RowDone(y, value, bM, bN, gy);
  }

  /** Narrowing the scaled weights of row `n` below column `hi` loses nothing. */
  ghost predicate CastExact(p: Operands, a: Arith, n: int, hi: int) {
    forall k: int | 0 <= k < hi :: ExactAt(p, a, n, k)
  }

  ghost predicate ExactAt(p: Operands, a: Arith, n: int, k: int) {
    Weight(p, a, n, k) == Scaled(a.decode(Code(p.wq(n, k / 2), k % 2)), p.ws(n, k / 32))
  }

  /** Two decode tables agree on the sixteen codes. */
  ghost predicate SameOnCodes(d: int -> real, e: int -> real) {
    forall c :: 0 <= c < 16 ==> d(c) == e(c)
  }

  lemma MoveThrough(x: real, v: real, s: real)
    ensures Scaled(x, Scaled(v, s)) == Scaled(Scaled(x, v), s)
  {
  }

  lemma SumScaled(f: int -> real, g: int -> real, s: real, lo: int, hi: int)
    requires forall c :: lo <= c < hi ==> g(c) == Scaled(f(c), s)
    ensures Sum(g, lo, hi) == Scaled(Sum(f, lo, hi), s)
  {
    SumScale(f, g, s, lo, hi);
  }

  /** The product at `c` is the unscaled one under the scale of its 32-wide tile. */
  ghost predicate ScaledAt(f: int -> real, g: int -> real, scale: int -> real, c: int) {
    g(c) == Scaled(f(c), scale(c / 32))
  }

  lemma ElementScale(p: Operands, a: Arith, decode: int -> real, m: int, n: int, c: int)
    requires ExactAt(p, a, n, c) && SameOnCodes(decode, a.decode)
    ensures ScaledAt(Term(p.x, CodeOf(p, decode), m, n), Term(p.x, WeightOf(p, a), m, n), RowScale(p, n), c)
  {
    MoveThrough(p.x(m, c), a.decode(Code(p.wq(n, c / 2), c % 2)), p.ws(n, c / 32));
  }

  /** One scale per 32-wide tile: applied to each product, or to the tile's sum of products. */
  lemma TileScaleCommutes(f: int -> real, g: int -> real, scale: int -> real, k: int, lo: int, hi: int)
    requires lo == k * 32 && hi == lo + 32
    requires forall c :: lo <= c < hi ==> ScaledAt(f, g, scale, c)
    ensures Sum(g, lo, hi) == Scaled(Sum(f, lo, hi), scale(k))
  {
    forall c | lo <= c < hi ensures g(c) == Scaled(f(c), scale(k)) {
      assert ScaledAt(f, g, scale, c);
      DivUnique(c, 32, k, c - lo);
    }
    SumScaled(f, g, scale(k), lo, hi);
  }

  /** The scales of weight row `n`. */
  function RowScale(p: Operands, n: int): int -> real {
    t => p.ws(n, t)
  }

  lemma ScaledTileAt(p: Operands, decode: int -> real, m: int, n: int, k: int)
    ensures ScaledTile(p, decode, m, n)(k)
         == Scaled(Sum(Term(p.x, CodeOf(p, decode), m, n), k * 32, k * 32 + 32), RowScale(p, n)(k))
  {
  }

  /** One tile's scaled partial product is the sum of its products of scaled weights. */
  lemma TileIsScaledSum(p: Operands, a: Arith, decode: int -> real, m: nat, n: nat, k: nat)
    requires CastExact(p, a, n, k * 32 + 32) && SameOnCodes(decode, a.decode)
    ensures ScaledTile(p, decode, m, n)(k) == BlockSum(Term(p.x, WeightOf(p, a), m, n), 32)(k)
  {
    RowIsScaled(p, a, decode, m, n, k * 32, k * 32 + 32);
    var f, g := Term(p.x, CodeOf(p, decode), m, n), Term(p.x, WeightOf(p, a), m, n);
    TileScaleCommutes(f, g, RowScale(p, n), k, k * 32, k * 32 + 32);
    ScaledTileAt(p, decode, m, n, k);
  }

  lemma RowIsScaled(p: Operands, a: Arith, decode: int -> real, m: nat, n: nat, lo: nat, hi: nat)
    requires CastExact(p, a, n, hi) && SameOnCodes(decode, a.decode)
    ensures forall c :: lo <= c < hi ==>
      ScaledAt(Term(p.x, CodeOf(p, decode), m, n), Term(p.x, WeightOf(p, a), m, n), RowScale(p, n), c)
  {
    forall c | lo <= c < hi
      ensures ScaledAt(Term(p.x, CodeOf(p, decode), m, n), Term(p.x, WeightOf(p, a), m, n), RowScale(p, n), c)
    {
      assert ExactAt(p, a, n, c);
      ElementScale(p, a, decode, m, n, c);
    }
  }

  lemma SumsAgree(p: Operands, a: Arith, decode: int -> real, m: nat, n: nat, tiles: nat)
    requires CastExact(p, a, n, tiles * 32) && SameOnCodes(decode, a.decode)
    ensures Sum(ScaledTile(p, decode, m, n), 0, tiles) == Sum(Term(p.x, WeightOf(p, a), m, n), 0, tiles * 32)
  {
    var g, h := Term(p.x, WeightOf(p, a), m, n), ScaledTile(p, decode, m, n);
    forall k | 0 <= k < tiles ensures h(k) == BlockSum(g, 32)(k) {
      TileIsScaledSum(p, a, decode, m, n, k);
    }
    SumSame(h, BlockSum(g, 32), 0, tiles);
    SumBlocks(g, 32, 0, tiles);
  }

  /** With a cast exact on the weights it reads, the scale-on-accumulator kernel computes the
      scale-in-dequant product. */
  lemma AccumulatorIsProduct(p: Operands, a: Arith, decode: int -> real, m: nat, n: nat, tiles: nat)
    requires ScalesNonZero(p) && CastExact(p, a, n, tiles * 32) && SameOnCodes(decode, a.decode)
    ensures AccumulatorValue(p, decode, tiles)(m, n) == Product(p, a, m, n, tiles * 32)
  {
    SumsAgree(p, a, decode, m, n, tiles);
  }

  /** Written out: no cast, decoded codes under their scales, summed and divided by the activation scale. */
  lemma AccumulatorIsPlain(p: Operands, decode: int -> real, codes: (int, int) -> int, m: nat, n: nat, tiles: nat)
    requires ScalesNonZero(p) && Packs(p, codes)
    ensures AccumulatorValue(p, decode, tiles)(m, n)
         == Sum(PlainTerm(p, Arith(decode, v => v), codes, m, n), 0, tiles * 32) / p.ascale(m)
  {
    var a := Arith(decode, v => v);
    forall k | 0 <= k < tiles * 32 ensures ExactAt(p, a, n, k) {
    }
    AccumulatorIsProduct(p, a, decode, m, n, tiles);
    ProductIsPlain(p, a, codes, m, n, tiles * 32);
  }

  /** The decode table of the single-precision macro. */
  function Fp32Arith(cast: real -> real): Arith {
    Arith(c => if 0 <= c < 16 then Decode32(c) else 0.0, cast)
  }

  /** The decode table of the integer macro. */
  function E4M3Decode(): int -> real {
    c => if 0 <= c < 16 then Decode8(c) else 0.0
  }

  /** The two kernels as written: the integer codes with the scale on the accumulator give the product
      of the single-precision decode with the scale in the dequant, for every cast that is exact on
      the scaled weights. */
  lemma IntKernelIsProduct(p: Operands, cast: real -> real, m: nat, n: nat, tiles: nat)
    requires ScalesNonZero(p) && CastExact(p, Fp32Arith(cast), n, tiles * 32)
    ensures AccumulatorValue(p, E4M3Decode(), tiles)(m, n) == Product(p, Fp32Arith(cast), m, n, tiles * 32)
  {
    forall c | 0 <= c < 16 ensures E4M3Decode()(c) == Fp32Arith(cast).decode(c) {
      SameDecode(c);
    }
    AccumulatorIsProduct(p, Fp32Arith(cast), E4M3Decode(), m, n, tiles);
  }

  // ----- zero padding

  function RoundUp(x: nat, m: nat): nat
    requires m > 0
  {
    (x + m - 1) / m * m
  }

  lemma RoundUpBounds(x: nat, m: nat)
    requires m > 0
    ensures x <= RoundUp(x, m) < x + m && RoundUp(x, m) % m == 0
  {
    DivBounds(x + m - 1, m);
    var c := (x + m - 1) / m;
    DivUnique(c * m, m, c, 0);
  }

  function PaddedByte(p: Operands, N: nat, K: nat, n: int, b: int): Byte {
    if 0 <= n < N && 0 <= b < K / 2 then p.wq(n, b) else 0
  }

  /** Operands of an M x K by N x K problem copied into larger zeroed buffers. */
  function Padded(p: Operands, M: nat, N: nat, K: nat): Operands {
    Operands(
      (m, k) => if 0 <= m < M && 0 <= k < K then p.x(m, k) else 0.0,
      (n, b) => PaddedByte(p, N, K, n, b),
      (n, t) => if 0 <= n < N && 0 <= t < K / 32 then p.ws(n, t) else 0.0,
      p.ascale)
  }

  lemma ZeroTimes(w: real)
    ensures Scaled(0.0, w) == 0.0
  {
  }

  lemma InsideSame(p: Operands, a: Arith, M: nat, N: nat, K: nat, m: nat, n: nat, k: nat)
    requires m < M && n < N && K % 32 == 0 && k < K
    ensures Term(Padded(p, M, N, K).x, WeightOf(Padded(p, M, N, K), a), m, n)(k) == Term(p.x, WeightOf(p, a), m, n)(k)
  {
    PaddedWeight(p, a, M, N, K, n, k);
    assert Padded(p, M, N, K).x(m, k) == p.x(m, k);
  }

  lemma PaddedWeight(p: Operands, a: Arith, M: nat, N: nat, K: nat, n: nat, k: nat)
    requires n < N && K % 32 == 0 && k < K
    ensures WeightOf(Padded(p, M, N, K), a)(n, k) == WeightOf(p, a)(n, k)
  {
    var pp := Padded(p, M, N, K);
    assert pp.wq(n, k / 2) == p.wq(n, k / 2);
    assert pp.ws(n, k / 32) == p.ws(n, k / 32);
  }

  lemma OutsideZero(p: Operands, a: Arith, M: nat, N: nat, K: nat, m: nat, n: nat, k: nat)
    requires k >= K
    ensures Term(Padded(p, M, N, K).x, WeightOf(Padded(p, M, N, K), a), m, n)(k) == 0.0
  {
    ZeroTimes(WeightOf(Padded(p, M, N, K), a)(n, k));
  }

  /** On the unpadded rectangle the padded product is the unpadded one: padded activations are zero,
      so it does not matter what the padded weights decode to. */
  lemma PaddingIsNeutral(p: Operands, a: Arith, M: nat, N: nat, K: nat, Kp: nat, m: nat, n: nat)
    requires m < M && n < N && K % 32 == 0 && K <= Kp && p.ascale(m) != 0.0
    ensures Product(Padded(p, M, N, K), a, m, n, Kp) == Product(p, a, m, n, K)
  {
    var pp := Padded(p, M, N, K);
    var f, g := Term(pp.x, WeightOf(pp, a), m, n), Term(p.x, WeightOf(p, a), m, n);
    forall k | 0 <= k < K ensures f(k) == g(k) {
      InsideSame(p, a, M, N, K, m, n, k);
    }
    forall k | K <= k < Kp ensures f(k) == 0.0 {
      OutsideZero(p, a, M, N, K, m, n, k);
    }
    SumSplit(f, 0, K, Kp);
    SumSame(f, g, 0, K);
    SumZero(f, K, Kp);
  }

  lemma WholeTiles(Kp: nat, q: nat)
    requires Kp % 128 == 0 && (q == 1 || q == 2 || q == 4)
    ensures Kp / (32 * q) * (32 * q) == Kp
  {
    if q == 1 { assert Kp % 32 == 0; } else if q == 2 { assert Kp % 64 == 0; }
  }

  /** A variant over inputs padded to whole 128-wide K-tiles, cut back to the original rectangle: the
      untiled product of the original operands. */
  method RunBaseline(p: Operands, a: Arith, M: nat, N: nat, K: nat, bM: nat, bN: nat, q: nat, vectorized: bool,
                     order: seq<int>)
    returns (y: array2<real>)
    requires bM > 0 && bN > 0 && ScalesNonZero(p) && K % 32 == 0 && (q == 1 || q == 2 || q == 4)
    requires IsOrder(order, bN * (2 * q))
    ensures y.Length0 >= M && y.Length1 >= N
    ensures forall m, n :: 0 <= m < M && 0 <= n < N ==> y[m, n] == Product(p, a, m, n, K)
  {
    var Mp, Np, Kp := RoundUp(M, 64), RoundUp(N, 128), RoundUp(K, 128);
    RoundUpBounds(M, 64);
    RoundUpBounds(N, 128);
    RoundUpBounds(K, 128);
    WholeTiles(Kp, q);
    y := ScaleInDequant(Padded(p, M, N, K), a, Mp, Np, Kp, bM, bN, q, vectorized, order);
    forall m, n | 0 <= m < M && 0 <= n < N ensures y[m, n] == Product(p, a, m, n, K) {
      PaddingIsNeutral(p, a, M, N, K, Kp, m, n);
    }
  }

  /** Split-K over zeroed output and inputs padded to whole 128-wide K-tiles: the untiled product of the
      original operands whenever the parts cover the padded K, which for two parts they always do. */
  method RunSplit(p: Operands, a: Arith, M: nat, N: nat, K: nat, split: nat, bM: nat, bN: nat,
                  order: seq<int>, launches: seq<Launch>)
    returns (y: array2<real>)
    requires bM > 0 && bN > 0 && split > 0 && ScalesNonZero(p) && K % 32 == 0 && IsOrder(order, bN * (2 * 2))
    requires EachOnce(launches, Grid(RoundUp(M, 64), bM), Grid(RoundUp(N, 128), bN), split)
    ensures y.Length0 >= M && y.Length1 >= N
    ensures split == 2 || RoundUp(K, 128) % (split * 64) == 0 ==>
      forall m, n :: 0 <= m < M && 0 <= n < N ==> y[m, n] == Product(p, a, m, n, K)
  {
    var Mp, Np, Kp := RoundUp(M, 64), RoundUp(N, 128), RoundUp(K, 128);
    RoundUpBounds(M, 64);
    RoundUpBounds(N, 128);
    RoundUpBounds(K, 128);
    y := new real[Mp, Np]((_, _) => 0.0);
    SplitKernel(Padded(p, M, N, K), a, y, Kp, split, bM, bN, order, launches);
    CoveredIff(Kp, split);
    if split == 2 || Kp % (split * 64) == 0 {
      forall m, n | 0 <= m < M && 0 <= n < N ensures y[m, n] == Product(p, a, m, n, K) {
        PaddingIsNeutral(p, a, M, N, K, Kp, m, n);
      }
    }
  }

  lemma PaddedCode(p: Operands, decode: int -> real, M: nat, N: nat, K: nat, m: nat, n: nat, c: nat)
    requires m < M && n < N && K % 32 == 0
    ensures Term(Padded(p, M, N, K).x, CodeOf(Padded(p, M, N, K), decode), m, n)(c)
         == if c < K then Term(p.x, CodeOf(p, decode), m, n)(c) else 0.0
  {
    var pp := Padded(p, M, N, K);
    if c < K {
      assert pp.wq(n, c / 2) == p.wq(n, c / 2) && pp.x(m, c) == p.x(m, c);
    } else {
      ZeroTimes(CodeOf(pp, decode)(n, c));
    }
  }

  /** A K-tile of the padded operands is the original's, or zero past its end. */
  lemma PaddedTile(p: Operands, decode: int -> real, M: nat, N: nat, K: nat, m: nat, n: nat, k: nat)
    requires m < M && n < N && K % 32 == 0
    ensures ScaledTile(Padded(p, M, N, K), decode, m, n)(k)
         == if k < K / 32 then ScaledTile(p, decode, m, n)(k) else 0.0
  {
    if k < K / 32 {
      PaddedTileInside(p, decode, M, N, K, m, n, k, k * 32, k * 32 + 32);
    } else {
      PaddedTileOutside(p, decode, M, N, K, m, n, k, k * 32, k * 32 + 32);
    }
  }

  lemma PaddedTileInside(p: Operands, decode: int -> real, M: nat, N: nat, K: nat, m: nat, n: nat, k: nat, lo: nat,
                         hi: nat)
    requires m < M && n < N && K % 32 == 0 && k < K / 32 && lo == k * 32 && hi == lo + 32
    ensures ScaledTile(Padded(p, M, N, K), decode, m, n)(k) == ScaledTile(p, decode, m, n)(k)
  {
    var pp := Padded(p, M, N, K);
    var f, g := Term(pp.x, CodeOf(pp, decode), m, n), Term(p.x, CodeOf(p, decode), m, n);
    assert hi <= K;
    forall c: nat | lo <= c < hi ensures f(c) == g(c) {
      PaddedCode(p, decode, M, N, K, m, n, c);
    }
    SumSame(f, g, lo, hi);
    assert pp.ws(n, k) == p.ws(n, k);
  }

  lemma PaddedTileOutside(p: Operands, decode: int -> real, M: nat, N: nat, K: nat, m: nat, n: nat, k: nat, lo: nat,
                          hi: nat)
    requires m < M && n < N && K % 32 == 0 && k >= K / 32 && lo == k * 32 && hi == lo + 32
    ensures ScaledTile(Padded(p, M, N, K), decode, m, n)(k) == 0.0
  {
    var pp := Padded(p, M, N, K);
    var f := Term(pp.x, CodeOf(pp, decode), m, n);
    assert K <= lo;
    forall c: nat | lo <= c < hi ensures f(c) == 0.0 {
      PaddedCode(p, decode, M, N, K, m, n, c);
    }
    SumZero(f, lo, hi);
    ZeroTimes(pp.ws(n, k));
  }

  /** On the unpadded rectangle padding does not change what the scale-on-accumulator kernel computes. */
  lemma PaddingIsNeutralOnAccumulator(p: Operands, decode: int -> real, M: nat, N: nat, K: nat, Kp: nat, m: nat, n: nat)
    requires ScalesNonZero(p) && m < M && n < N && K % 32 == 0 && K <= Kp
    ensures AccumulatorValue(Padded(p, M, N, K), decode, Kp / 32)(m, n) == AccumulatorValue(p, decode, K / 32)(m, n)
  {
    var h, g := ScaledTile(Padded(p, M, N, K), decode, m, n), ScaledTile(p, decode, m, n);
    forall k: nat | k < Kp / 32 ensures h(k) == if k < K / 32 then g(k) else 0.0 {
      PaddedTile(p, decode, M, N, K, m, n, k);
    }
    SumSplit(h, 0, K / 32, Kp / 32);
    SumSame(h, g, 0, K / 32);
    SumZero(h, K / 32, Kp / 32);
  }

  /** The scale-on-accumulator variant over padded inputs: the untiled product of the original operands
      wherever the cast is exact on the original weight row. */
  method RunAccumulator(p: Operands, a: Arith, decode: int -> real, M: nat, N: nat, K: nat, bM: nat, bN: nat,
                        order: seq<int>)
    returns (y: array2<real>)
    requires bM > 0 && bN > 0 && ScalesNonZero(p) && K % 32 == 0 && IsOrder(order, bN * (2 * 1))
    requires SameOnCodes(decode, a.decode)
    ensures y.Length0 >= M && y.Length1 >= N
    ensures forall m, n :: 0 <= m < M && 0 <= n < N && CastExact(p, a, n, K) ==> y[m, n] == Product(p, a, m, n, K)
  {
    var Mp, Np, Kp := RoundUp(M, 64), RoundUp(N, 128), RoundUp(K, 128);
    RoundUpBounds(M, 64);
    RoundUpBounds(N, 128);
    RoundUpBounds(K, 128);
    y := ScaleOnAccumulator(Padded(p, M, N, K), decode, Mp, Np, Kp, bM, bN, order);
    forall m, n | 0 <= m < M && 0 <= n < N && CastExact(p, a, n, K) ensures y[m, n] == Product(p, a, m, n, K) {
      AccumulatorOnRectangle(p, a, decode, M, N, K, Kp, m, n);
    }
  }

  lemma AccumulatorOnRectangle(p: Operands, a: Arith, decode: int -> real, M: nat, N: nat, K: nat, Kp: nat, m: nat,
                               n: nat)
    requires ScalesNonZero(p) && m < M && n < N && K % 32 == 0 && K <= Kp
    requires SameOnCodes(decode, a.decode) && CastExact(p, a, n, K)
    ensures AccumulatorValue(Padded(p, M, N, K), decode, Kp / 32)(m, n) == Product(p, a, m, n, K)
  {
    PaddingIsNeutralOnAccumulator(p, decode, M, N, K, Kp, m, n);
    assert K / 32 * 32 == K;
    AccumulatorIsProduct(p, a, decode, m, n, K / 32);
  }
}
