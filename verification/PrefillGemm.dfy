/** The fp8 prefill GEMM: vectorized 4-bit dequant of a weight tile, tiled accumulation, split-K
    and the scale-on-accumulator variant, against the untiled scaled product. Exact arithmetic;
    the narrowing cast of a scaled weight is an uninterpreted function. */
module PrefillGemm {
  import opened Sums
  import opened Fp4Codes
  import opened GemvSchedule
  import opened GemvCheck

  type Matrix = (int, int) -> real

  /** Quantized activations [M, K], packed codes [N, K / 2], weight scales [N, K / 32] and activation
      scales [M], zero outside their shapes as far as a kernel reads them. */
  datatype Operands = Operands(x: Matrix, wq: (int, int) -> Byte, ws: Matrix, ascale: int -> real)

  /** How a code becomes a number, and how a scaled number is narrowed to e4m3. */
  datatype Arith = Arith(decode: int -> real, cast: real -> real)

  function Scaled(v: real, scale: real): real {
    v * scale
  }

  /** What the scale-in-dequant macro stores for a code under a scale. */
  function Narrowed(a: Arith, scale: real): int -> real {
    code => a.cast(Scaled(a.decode(code), scale))
  }

  /** Element [n, k] of the dequantized weight: decoded code times its 32-block's scale, narrowed. */
  function Weight(p: Operands, a: Arith, n: int, k: int): real {
    Narrowed(a, p.ws(n, k / 32))(Code(p.wq(n, k / 2), k % 2))
  }

  function WeightOf(p: Operands, a: Arith): Matrix {
    (n, k) => Weight(p, a, n, k)
  }

  /** The k-th product of output element [m, n]. */
  function Term(x: Matrix, w: Matrix, m: int, n: int): int -> real {
    k => Scaled(x(m, k), w(n, k))
  }

  // ----- where a 16-wide group sits in its tile

  /** Element `v` of group `i`, in a tile of `2 * q` groups (32 * q elements) per row. */
  lemma ElementPosition(i: nat, v: nat, q: nat)
    requires q > 0 && v < 16
    ensures (i * 16 + v) / (32 * q) == i / (2 * q)
    ensures (i * 16 + v) % (32 * q) == i % (2 * q) * 16 + v
  {
    var r, g := i / (2 * q), i % (2 * q);
    assert i == (2 * q) * r + g && 0 <= g < 2 * q;
    assert (2 * q) * r * 16 == r * (32 * q);
    DivUnique(i * 16 + v, 32 * q, r, g * 16 + v);
  }

  /** Byte `v` of group `i`. */
  lemma BytePosition(i: nat, v: nat, q: nat)
    requires q > 0 && v < 8
    ensures (i * 8 + v) / (16 * q) == i / (2 * q)
    ensures (i * 8 + v) % (16 * q) == i % (2 * q) * 8 + v
  {
    var r, g := i / (2 * q), i % (2 * q);
    assert i == (2 * q) * r + g && 0 <= g < 2 * q;
    assert (2 * q) * r * 8 == r * (16 * q);
    DivUnique(i * 8 + v, 16 * q, r, g * 8 + v);
  }

  /** The group an element belongs to. */
  function Group(r: nat, c: nat, q: nat): nat
    requires q > 0
  {
    r * (2 * q) + c / 16
  }

  lemma GroupInverse(r: nat, c: nat, i: nat, q: nat)
    requires q > 0 && c < 32 * q
    ensures Group(r, c, q) == i <==> r == i / (2 * q) && i % (2 * q) * 16 <= c < i % (2 * q) * 16 + 16
  {
    assert c / 16 < 2 * q;
    DivUnique(Group(r, c, q), 2 * q, r, c / 16);
    assert i == (2 * q) * (i / (2 * q)) + i % (2 * q);
    if r == i / (2 * q) {
      assert r * (2 * q) == (2 * q) * (i / (2 * q));
    }
  }

  lemma RowInRange(i: nat, n: nat, q: nat)
    requires q > 0 && i < n * (2 * q)
    ensures i / (2 * q) < n
  {
    var r := i / (2 * q);
    DivBounds(i, 2 * q);
    if n <= r {
      MulMono(n, r, 2 * q);
    }
  }

  lemma GroupInRange(r: nat, c: nat, n: nat, q: nat)
    requires q > 0 && r < n && c < 32 * q
    ensures Group(r, c, q) < n * (2 * q)
  {
    assert c / 16 < 2 * q;
    MulMono(r + 1, n, 2 * q);
    assert (r + 1) * (2 * q) == r * (2 * q) + 2 * q;
  }

  // ----- dequantizing one tile

  /** The eight bytes of a group, one 64-bit load. */
  method StageBytes(wq: array2<Byte>, i: nat, q: nat) returns (staged: seq<Byte>)
    requires q > 0 && wq.Length1 == 16 * q && i < wq.Length0 * (2 * q)
    ensures i / (2 * q) < wq.Length0 && |staged| == 8
    ensures forall v :: 0 <= v < 8 ==> staged[v] == wq[i / (2 * q), i % (2 * q) * 8 + v]
  {
    RowInRange(i, wq.Length0, q);
    var half := 16 * q;
    staged := [];
    for v := 0 to 8
      invariant |staged| == v
      invariant forall u :: 0 <= u < v ==> staged[u] == wq[i / (2 * q), i % (2 * q) * 8 + u]
    {
      BytePosition(i, v, q);
      staged := staged + [wq[(i * 8 + v) / half, (i * 8 + v) % half]];
    }
  }

  lemma SameParity(g: int, v: int)
    ensures (16 * g + v) % 2 == v % 2
  {
  }

  /** The sixteen elements of a group, which lie in row `r0` from column `16 * g0` on; `elem` is
      what is stored for a code. */
  method WriteGroup(w: array2<real>, elem: int -> real, i: nat, q: nat, staged: seq<Byte>, ghost r0: nat, ghost g0: nat)
    requires q > 0 && w.Length1 == 32 * q && |staged| == 8
    requires r0 == i / (2 * q) < w.Length0 && g0 == i % (2 * q)
    modifies w
    ensures forall r, c :: 0 <= r < w.Length0 && 0 <= c < w.Length1 ==>
      w[r, c] == if r == r0 && 16 * g0 <= c < 16 * g0 + 16
                 then elem(Code(staged[(c - 16 * g0) / 2], c % 2)) else old(w[r, c])
  {
    var bK := w.Length1;
    for v := 0 to 16
      invariant forall r, c :: 0 <= r < w.Length0 && 0 <= c < w.Length1 ==>
        w[r, c] == if r == r0 && 16 * g0 <= c < 16 * g0 + v
                   then elem(Code(staged[(c - 16 * g0) / 2], c % 2)) else old(w[r, c])
    {
      ElementPosition(i, v, q);
      var row, col := (i * 16 + v) / bK, (i * 16 + v) % bK;
      assert row == r0 && col == 16 * g0 + v;
      SameParity(g0, v);
      w[row, col] := elem(Code(staged[v / 2], v % 2));
    }
  }

  /** One vectorized group: eight bytes staged, one scale read, sixteen elements written. */
  method DequantGroup(wq: array2<Byte>, scale: array2<real>, w: array2<real>, a: Arith, i: nat, q: nat)
    requires q > 0 && wq.Length1 == 16 * q && scale.Length1 == q && w.Length1 == 32 * q
    requires wq.Length0 == scale.Length0 == w.Length0 && i < w.Length0 * (2 * q)
    requires w != scale
    modifies w
    ensures forall r, c :: 0 <= r < w.Length0 && 0 <= c < w.Length1 ==>
      w[r, c] == if Group(r, c, q) == i
                 then Narrowed(a, scale[r, c / 32])(Code(wq[r, c / 2], c % 2)) else old(w[r, c])
  {
    var staged := StageBytes(wq, i, q);
    RowInRange(i, w.Length0, q);
    ElementPosition(i, 0, q);
    var s := scale[i * 16 / (32 * q), i * 16 % (32 * q) / 32];
    WriteGroup(w, Narrowed(a, s), i, q, staged, i / (2 * q), i % (2 * q));
    forall r, c | 0 <= r < w.Length0 && 0 <= c < w.Length1
      ensures w[r, c] == if Group(r, c, q) == i
                         then Narrowed(a, scale[r, c / 32])(Code(wq[r, c / 2], c % 2)) else old(w[r, c])
    {
      GroupInverse(r, c, i, q);
      if Group(r, c, q) == i {
        SameHalves(c, i % (2 * q));
      }
    }
  }

  /** Column `c` of the 16-wide group `g`: its byte and its 32-block. */
  lemma SameHalves(c: nat, g: nat)
    requires g * 16 <= c < g * 16 + 16
    ensures c / 2 == g * 8 + (c - g * 16) / 2 && c / 32 == g * 16 / 32
  {
    var d := c - g * 16;
    assert (g * 16 + d) / 2 == g * 8 + d / 2;
    var h := g / 2;
    assert g == 2 * h || g == 2 * h + 1;
    DivUnique(g * 16, 32, h, g * 16 - 32 * h);
    DivUnique(c, 32, h, c - 32 * h);
  }

  /** The tile's bytes pack these codes two by two, the even column in the low half. */
  ghost predicate PacksTile(wq: array2<Byte>, codes: (int, int) -> int)
    reads wq
  {
    forall r, b :: 0 <= r < wq.Length0 && 0 <= b < wq.Length1 ==> Pair(wq[r, b], codes(r, 2 * b), codes(r, 2 * b + 1))
  }

  ghost predicate Pair(b: Byte, lo: int, hi: int) {
    0 <= lo < 16 && 0 <= hi < 16 && b == lo + 16 * hi
  }

  lemma CodeOfTile(wq: array2<Byte>, codes: (int, int) -> int, r: nat, c: nat)
    requires PacksTile(wq, codes) && r < wq.Length0 && c < 2 * wq.Length1
    ensures Code(wq[r, c / 2], c % 2) == codes(r, c)
  {
    var b := c / 2;
    assert Pair(wq[r, b], codes(r, 2 * b), codes(r, 2 * b + 1));
    CodesOfByte(codes(r, 2 * b), codes(r, 2 * b + 1), wq[r, b]);
    assert c == 2 * b || c == 2 * b + 1;
  }

  /** The vectorized dequant of a tile, groups in any order, writes every element once: each is the
      per-element dequant of its own byte, nibble and 32-block scale, so that whatever codes the bytes
      pack come out in column order. */
  method DequantTile(wq: array2<Byte>, scale: array2<real>, w: array2<real>, a: Arith, q: nat, order: seq<int>)
    requires q > 0 && wq.Length1 == 16 * q && scale.Length1 == q && w.Length1 == 32 * q
    requires wq.Length0 == scale.Length0 == w.Length0
    requires w != scale && IsOrder(order, w.Length0 * (2 * q))
    modifies w
    ensures forall r, c :: 0 <= r < w.Length0 && 0 <= c < w.Length1 ==>
      w[r, c] == Narrowed(a, scale[r, c / 32])(Code(wq[r, c / 2], c % 2))
    ensures forall codes {:trigger PacksTile(wq, codes)} :: PacksTile(wq, codes) ==>
      forall r, c :: 0 <= r < w.Length0 && 0 <= c < w.Length1 ==> w[r, c] == Narrowed(a, scale[r, c / 32])(codes(r, c))
  {
    DequantGroups(wq, scale, w, a, q, order);
    forall codes, r, c | PacksTile(wq, codes) && 0 <= r < w.Length0 && 0 <= c < w.Length1
      ensures w[r, c] == Narrowed(a, scale[r, c / 32])(codes(r, c))
    {
      CodeOfTile(wq, codes, r, c);
    }
  }

  method DequantGroups(wq: array2<Byte>, scale: array2<real>, w: array2<real>, a: Arith, q: nat, order: seq<int>)
    requires q > 0 && wq.Length1 == 16 * q && scale.Length1 == q && w.Length1 == 32 * q
    requires wq.Length0 == scale.Length0 == w.Length0
    requires w != scale && IsOrder(order, w.Length0 * (2 * q))
    modifies w
    ensures forall r, c :: 0 <= r < w.Length0 && 0 <= c < w.Length1 ==>
      w[r, c] == Narrowed(a, scale[r, c / 32])(Code(wq[r, c / 2], c % 2))
  {
    for j := 0 to |order|
      invariant forall r, c :: 0 <= r < w.Length0 && 0 <= c < w.Length1 && Group(r, c, q) in order[..j] ==>
        w[r, c] == Narrowed(a, scale[r, c / 32])(Code(wq[r, c / 2], c % 2))
    {
      DequantGroup(wq, scale, w, a, order[j], q);
      assert order[..j + 1] == order[..j] + [order[j]];
    }
    assert order[..|order|] == order;
    forall r, c | 0 <= r < w.Length0 && 0 <= c < w.Length1 ensures Group(r, c, q) in order {
      GroupInRange(r, c, w.Length0, q);
    }
  }

  /** The integer dequant of a tile: the same groups, no scale and no cast. */
  method IntDequantTile(wq: array2<Byte>, w: array2<real>, decode: int -> real, q: nat, order: seq<int>)
    requires q > 0 && wq.Length1 == 16 * q && w.Length1 == 32 * q
    requires wq.Length0 == w.Length0 && IsOrder(order, w.Length0 * (2 * q))
    modifies w
    ensures forall r, c :: 0 <= r < w.Length0 && 0 <= c < w.Length1 ==> w[r, c] == decode(Code(wq[r, c / 2], c % 2))
    ensures forall codes {:trigger PacksTile(wq, codes)} :: PacksTile(wq, codes) ==>
      forall r, c :: 0 <= r < w.Length0 && 0 <= c < w.Length1 ==> w[r, c] == decode(codes(r, c))
  {
    IntDequantGroups(wq, w, decode, q, order);
    forall codes, r, c | PacksTile(wq, codes) && 0 <= r < w.Length0 && 0 <= c < w.Length1
      ensures w[r, c] == decode(codes(r, c))
    {
      CodeOfTile(wq, codes, r, c);
    }
  }

  method IntDequantGroups(wq: array2<Byte>, w: array2<real>, decode: int -> real, q: nat, order: seq<int>)
    requires q > 0 && wq.Length1 == 16 * q && w.Length1 == 32 * q
    requires wq.Length0 == w.Length0 && IsOrder(order, w.Length0 * (2 * q))
    modifies w
    ensures forall r, c :: 0 <= r < w.Length0 && 0 <= c < w.Length1 ==> w[r, c] == decode(Code(wq[r, c / 2], c % 2))
  {
    for j := 0 to |order|
      invariant forall r, c :: 0 <= r < w.Length0 && 0 <= c < w.Length1 && Group(r, c, q) in order[..j] ==>
        w[r, c] == decode(Code(wq[r, c / 2], c % 2))
    {
      IntDequantGroup(wq, w, decode, order[j], q);
      assert order[..j + 1] == order[..j] + [order[j]];
    }
    assert order[..|order|] == order;
    forall r, c | 0 <= r < w.Length0 && 0 <= c < w.Length1 ensures Group(r, c, q) in order {
      GroupInRange(r, c, w.Length0, q);
    }
  }

  method IntDequantGroup(wq: array2<Byte>, w: array2<real>, decode: int -> real, i: nat, q: nat)
    requires q > 0 && wq.Length1 == 16 * q && w.Length1 == 32 * q
    requires wq.Length0 == w.Length0 && i < w.Length0 * (2 * q)
    modifies w
    ensures forall r, c :: 0 <= r < w.Length0 && 0 <= c < w.Length1 ==>
      w[r, c] == if Group(r, c, q) == i then decode(Code(wq[r, c / 2], c % 2)) else old(w[r, c])
  {
    var staged := StageBytes(wq, i, q);
    RowInRange(i, w.Length0, q);
    WriteGroup(w, decode, i, q, staged, i / (2 * q), i % (2 * q));
    forall r, c | 0 <= r < w.Length0 && 0 <= c < w.Length1
      ensures w[r, c] == if Group(r, c, q) == i then decode(Code(wq[r, c / 2], c % 2)) else old(w[r, c])
    {
      GroupInverse(r, c, i, q);
      if Group(r, c, q) == i {
        SameHalves(c, i % (2 * q));
      }
    }
  }

  // ----- staging and multiplying tiles

  /** The tile holds the matrix from row `r0` and column `c0` on. */
  ghost predicate Staged(tile: array2<real>, src: Matrix, r0: int, c0: int)
    reads tile
  {
    forall i, j :: 0 <= i < tile.Length0 && 0 <= j < tile.Length1 ==> tile[i, j] == src(r0 + i, c0 + j)
  }

  method CopyTile(src: Matrix, r0: int, c0: int, dst: array2<real>)
    modifies dst
    ensures Staged(dst, src, r0, c0)
  {
    forall i, j | 0 <= i < dst.Length0 && 0 <= j < dst.Length1 {
      dst[i, j] := src(r0 + i, c0 + j);
    }
  }

  method CopyBytes(src: (int, int) -> Byte, r0: int, c0: int, dst: array2<Byte>)
    modifies dst
    ensures forall i, j :: 0 <= i < dst.Length0 && 0 <= j < dst.Length1 ==> dst[i, j] == src(r0 + i, c0 + j)
  {
    forall i, j | 0 <= i < dst.Length0 && 0 <= j < dst.Length1 {
      dst[i, j] := src(r0 + i, c0 + j);
    }
  }

  /** Byte, nibble and 32-block of column `c` of K-tile `k`. */
  lemma TileColumn(k: nat, q: nat, c: nat, c0: nat)
    requires c0 == k * (32 * q)
    ensures c0 / 2 + c / 2 == (c0 + c) / 2 && c % 2 == (c0 + c) % 2
    ensures c0 / 32 + c / 32 == (c0 + c) / 32
  {
    var t := k * q;
    assert c0 == 32 * t by {
      Thirtytwo(k, q);
    }
    Aligned(t, c);
  }

  lemma Thirtytwo(k: nat, q: nat)
    ensures k * (32 * q) == 32 * (k * q)
  {
  }

  lemma Aligned(t: nat, c: nat)
    ensures 32 * t / 2 + c / 2 == (32 * t + c) / 2 && c % 2 == (32 * t + c) % 2
    ensures 32 * t / 32 + c / 32 == (32 * t + c) / 32
  {
    DivUnique(32 * t, 2, 16 * t, 0);
    DivUnique(32 * t + c, 2, 16 * t + c / 2, c % 2);
    DivUnique(32 * t, 32, t, 0);
    DivUnique(32 * t + c, 32, t + c / 32, c % 32);
  }

  /** A staged byte and scale dequantize to the weight's element. */
  lemma StagedElement(p: Operands, a: Arith, n: int, k: nat, q: nat, c: nat, c0: nat, byte: Byte, s: real)
    requires c0 == k * (32 * q) && byte == p.wq(n, c0 / 2 + c / 2) && s == p.ws(n, c0 / 32 + c / 32)
    ensures Narrowed(a, s)(Code(byte, c % 2)) == WeightOf(p, a)(n, c0 + c)
  {
    TileColumn(k, q, c, c0);
  }

  /** The weight tile of rows `n0 ..` and K-tile `k`, staged and dequantized by the vectorized macro. */
  method WeightTile(p: Operands, a: Arith, n0: nat, bN: nat, k: nat, q: nat, order: seq<int>, c0: nat)
    returns (w: array2<real>)
    requires q > 0 && IsOrder(order, bN * (2 * q)) && c0 == k * (32 * q)
    ensures fresh(w) && w.Length0 == bN && w.Length1 == 32 * q
    ensures Staged(w, WeightOf(p, a), n0, c0)
  {
    var bK := 32 * q;
    var wq := new Byte[bN, bK / 2];
    var scale := new real[bN, bK / 32];
    w := new real[bN, bK];
    CopyBytes(p.wq, n0, c0 / 2, wq);
    CopyTile(p.ws, n0, c0 / 32, scale);
    DequantTile(wq, scale, w, a, q, order);
    forall r, c | 0 <= r < bN && 0 <= c < 32 * q ensures w[r, c] == WeightOf(p, a)(n0 + r, c0 + c) {
      StagedElement(p, a, n0 + r, k, q, c, c0, wq[r, c / 2], scale[r, c / 32]);
    }
  }

  /** The older kernel's dequant, element by element, reading the scale straight from memory. */
  method PerElement(p: Operands, a: Arith, wq: array2<Byte>, n0: nat, c0: nat, w: array2<real>)
    requires w.Length0 == wq.Length0 && w.Length1 == 2 * wq.Length1
    modifies w
    ensures forall i, j :: 0 <= i < w.Length0 && 0 <= j < w.Length1 ==>
      w[i, j] == Narrowed(a, p.ws(n0 + i, (c0 + j) / 32))(Code(wq[i, j / 2], j % 2))
  {
    forall i, j | 0 <= i < w.Length0 && 0 <= j < w.Length1 {
      w[i, j] := Narrowed(a, p.ws(n0 + i, (c0 + j) / 32))(Code(wq[i, j / 2], j % 2));
    }
  }

  /** The same tile by the per-element dequant. */
  method WeightTilePerElement(p: Operands, a: Arith, n0: nat, bN: nat, k: nat, q: nat, c0: nat)
    returns (w: array2<real>)
    requires q > 0 && c0 == k * (32 * q)
    ensures fresh(w) && w.Length0 == bN && w.Length1 == 32 * q
    ensures Staged(w, WeightOf(p, a), n0, c0)
  {
    var wq := new Byte[bN, 16 * q];
    w := new real[bN, 32 * q];
    CopyBytes(p.wq, n0, c0 / 2, wq);
    PerElement(p, a, wq, n0, c0, w);
    forall r, c | 0 <= r < bN && 0 <= c < 32 * q ensures w[r, c] == WeightOf(p, a)(n0 + r, c0 + c) {
      TileColumn(k, q, c, c0);
    }
  }

  /** One output element's partial dot product over a staged tile. */
  method DotTile(xs: array2<real>, ws: array2<real>, i: nat, j: nat, ghost f: int -> real, ghost k0: int)
    returns (v: real)
    requires i < xs.Length0 && j < ws.Length0 && xs.Length1 == ws.Length1
    requires forall c :: 0 <= c < xs.Length1 ==> Scaled(xs[i, c], ws[j, c]) == f(k0 + c)
    ensures v == Sum(f, k0, k0 + xs.Length1)
  {
    v := 0.0;
    for c := 0 to xs.Length1
      invariant v == Sum(f, k0, k0 + c)
    {
      v := v + Scaled(xs[i, c], ws[j, c]);
    }
  }

  /** `T.gemm` with the second operand transposed: adds the tile product to the accumulator. */
  method Gemm(xs: array2<real>, ws: array2<real>, acc: array2<real>,
              ghost x: Matrix, ghost w: Matrix, ghost m0: int, ghost n0: int, ghost k0: int)
    requires acc != xs && acc != ws
    requires acc.Length0 == xs.Length0 && acc.Length1 == ws.Length0 && xs.Length1 == ws.Length1
    requires Staged(xs, x, m0, k0) && Staged(ws, w, n0, k0)
    modifies acc
    ensures forall i, j :: 0 <= i < acc.Length0 && 0 <= j < acc.Length1 ==>
      acc[i, j] == old(acc[i, j]) + Sum(Term(x, w, m0 + i, n0 + j), k0, k0 + xs.Length1)
  {
    for i := 0 to acc.Length0
      invariant forall r, c :: 0 <= r < acc.Length0 && 0 <= c < acc.Length1 ==>
        acc[r, c] == if r < i then old(acc[r, c]) + Sum(Term(x, w, m0 + r, n0 + c), k0, k0 + xs.Length1)
                     else old(acc[r, c])
    {
      for j := 0 to acc.Length1
        invariant forall r, c :: 0 <= r < acc.Length0 && 0 <= c < acc.Length1 ==>
          acc[r, c] == if r < i || (r == i && c < j)
                       then old(acc[r, c]) + Sum(Term(x, w, m0 + r, n0 + c), k0, k0 + xs.Length1)
                       else old(acc[r, c])
      {
        var v := DotTile(xs, ws, i, j, Term(x, w, m0 + i, n0 + j), k0);
        acc[i, j] := acc[i, j] + v;
      }
    }
  }
}
