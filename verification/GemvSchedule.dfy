/** The fp4 decode GEMV's K schedule: 32 threads, tiles of `micro` elements per thread taken in
    groups, each tile cut into segments that are meant to lie inside one scale block. */
module GemvSchedule {
  import opened Prelude
  import opened Sums

  const RT: nat := 32

  /** (k0, length, scale index) */
  datatype Segment = Segment(k0: nat, len: nat, scale: nat)

  // ----- the schedule

  /** Tiles of `groups` whole groups, in issue order. */
  function GroupedTiles(groups: nat, group: nat): (r: seq<nat>)
    ensures |r| == groups * group
  {
    if groups == 0 then [] else
      assert groups * group == (groups - 1) * group + group;
      GroupedTiles(groups - 1, group) + seq(group, g requires 0 <= g => (groups - 1) * group + g)
  }

  /** The whole groups, then the tail tiles one at a time. */
  function Tiles(numKo: nat, group: nat): seq<nat>
    requires group > 0
  {
    var numG := numKo / group;
    GroupedTiles(numG, group) + seq(numKo - numG * group, kt requires 0 <= kt => numG * group + kt)
  }

  /** Segments per tile. */
  function NumSegs(micro: nat, block: nat): (r: nat)
    requires micro > 0 && block > 0
    ensures 1 <= r <= micro
  {
    DivBounds(micro, block);
    if micro / block >= 1 then micro / block else 1
  }

  function SegLen(micro: nat, block: nat): (r: nat)
    requires micro > 0 && block > 0
    ensures 1 <= r && NumSegs(micro, block) * r <= micro
  {
    DivBounds(micro, NumSegs(micro, block));
    micro / NumSegs(micro, block)
  }

  lemma DivBounds(a: nat, b: nat)
    requires b > 0
    ensures 0 <= a / b <= a && b * (a / b) <= a < b * (a / b) + b
    ensures b <= a ==> a / b >= 1
  {
    assert a == b * (a / b) + a % b;
    if a / b > a {
      assert b * (a / b) >= 1 * (a / b) by { MulMono(1, b, a / b); }
    }
  }

  lemma MulMono(x: nat, y: nat, c: nat)
    requires x <= y
    ensures x * c <= y * c
  {
  }

  /** The segments of the tile that starts at `base`. */
  function TileSegs(base: nat, n: nat, len: nat, block: nat): (r: seq<Segment>)
    requires block > 0
    ensures |r| == n
  {
    seq(n, s requires 0 <= s => Segment(base + s * len, len, (base + s * len) / block))
  }

  /** One thread's segments over a list of tiles. */
  function ThreadSegs(kr: nat, tiles: seq<nat>, micro: nat, nseg: nat, len: nat, block: nat): seq<Segment>
    requires block > 0
  {
    if tiles == [] then [] else
      ThreadSegs(kr, tiles[..|tiles| - 1], micro, nseg, len, block)
        + TileSegs(tiles[|tiles| - 1] * (RT * micro) + kr * micro, nseg, len, block)
  }

  /** The segments of threads 0 .. n - 1. */
  function ThreadsSegs(n: nat, tiles: seq<nat>, micro: nat, nseg: nat, len: nat, block: nat): seq<Segment>
    requires block > 0
  {
    if n == 0 then [] else
      ThreadsSegs(n - 1, tiles, micro, nseg, len, block) + ThreadSegs(n - 1, tiles, micro, nseg, len, block)
  }

  function NumKo(micro: nat, k: nat): nat
    requires micro > 0
  {
    CeilDiv(k, RT * micro)
  }

  /** Every segment, in issue order. */
  function Segments(micro: nat, group: nat, k: nat, block: nat): seq<Segment>
    requires micro > 0 && group > 0 && block > 0
  {
    ThreadsSegs(RT, Tiles(NumKo(micro, k), group), micro, NumSegs(micro, block), SegLen(micro, block), block)
  }

  // ----- grouping does not reorder the tiles

  /** Tiles 0, 1, 2, ... */
  predicate Ascending(tiles: seq<nat>) {
    forall i :: 0 <= i < |tiles| ==> tiles[i] == i
  }

  lemma {:induction false} GroupedInOrder(groups: nat, group: nat)
    ensures Ascending(GroupedTiles(groups, group))
  {
    if groups > 0 {
      GroupedInOrder(groups - 1, group);
      assert groups * group == (groups - 1) * group + group;
      var part := seq(group, g requires 0 <= g => (groups - 1) * group + g);
      forall i: nat | i < groups * group ensures GroupedTiles(groups, group)[i] == i {
        if i >= (groups - 1) * group {
          assert part[i - (groups - 1) * group] == i;
        }
      }
    }
  }

  /** Whatever the group size, the tiles are issued in ascending order, each once. */
  lemma TilesInOrder(numKo: nat, group: nat)
    requires group > 0
    ensures |Tiles(numKo, group)| == numKo && Ascending(Tiles(numKo, group))
  {
    var numG := numKo / group;
    assert numG * group <= numKo;
    GroupedInOrder(numG, group);
    var tail := seq(numKo - numG * group, kt requires 0 <= kt => numG * group + kt);
    forall i: nat | i < numKo ensures Tiles(numKo, group)[i] == i {
      if i >= numG * group {
        assert tail[i - numG * group] == i;
      }
    }
  }

  // ----- accumulating over the schedule

  /** A per-segment contribution, accumulated over a list of segments. */
  function Acc(h: Segment -> real, segs: seq<Segment>): real {
    if segs == [] then 0.0 else Acc(h, segs[..|segs| - 1]) + h(segs[|segs| - 1])
  }

  lemma {:induction false} AccConcat(h: Segment -> real, a: seq<Segment>, b: seq<Segment>)
    ensures Acc(h, a + b) == Acc(h, a) + Acc(h, b)
    decreases |b|
  {
    if b == [] {
      assert a + b == a;
    } else {
      AccConcat(h, a, b[..|b| - 1]);
      assert (a + b)[..|a + b| - 1] == a + b[..|b| - 1];
    }
  }

  /** The contribution of tile number `t`, the one that starts at `t * micro`. */
  function TileAcc(h: Segment -> real, micro: nat, nseg: nat, len: nat, block: nat): int -> real
    requires block > 0
  {
    t => if t < 0 then 0.0 else Acc(h, TileSegs(t * micro, nseg, len, block))
  }

  lemma OneTile(h: Segment -> real, ko: nat, kr: nat, micro: nat, nseg: nat, len: nat, block: nat)
    requires block > 0
    ensures Acc(h, TileSegs(ko * (RT * micro) + kr * micro, nseg, len, block))
         == Column(TileAcc(h, micro, nseg, len, block), RT, kr)(ko)
  {
    TileStart(ko, kr, micro);
  }

  lemma TileStart(ko: nat, kr: nat, micro: nat)
    ensures ko * (RT * micro) + kr * micro == (ko * RT + kr) * micro
  {
  }

  lemma {:induction false} ThreadAcc(h: Segment -> real, kr: nat, tiles: seq<nat>, micro: nat, nseg: nat, len: nat,
                                     block: nat)
    requires block > 0 && Ascending(tiles)
    ensures Acc(h, ThreadSegs(kr, tiles, micro, nseg, len, block))
         == Sum(Column(TileAcc(h, micro, nseg, len, block), RT, kr), 0, |tiles|)
    decreases |tiles|
  {
    if tiles != [] {
      var init := tiles[..|tiles| - 1];
      var ko := |tiles| - 1;
      ThreadAcc(h, kr, init, micro, nseg, len, block);
      OneTile(h, ko, kr, micro, nseg, len, block);
      var last := TileSegs(ko * (RT * micro) + kr * micro, nseg, len, block);
      AccConcat(h, ThreadSegs(kr, init, micro, nseg, len, block), last);
    }
  }

  lemma OneThread(h: Segment -> real, kr: nat, tiles: seq<nat>, micro: nat, nseg: nat, len: nat, block: nat)
    requires block > 0 && Ascending(tiles)
    ensures Acc(h, ThreadSegs(kr, tiles, micro, nseg, len, block))
         == Strided(TileAcc(h, micro, nseg, len, block), RT, |tiles|)(kr)
  {
    ThreadAcc(h, kr, tiles, micro, nseg, len, block);
  }

  lemma {:induction false} ThreadsAcc(h: Segment -> real, n: nat, tiles: seq<nat>, micro: nat, nseg: nat, len: nat,
                                      block: nat)
    requires block > 0 && Ascending(tiles)
    ensures Acc(h, ThreadsSegs(n, tiles, micro, nseg, len, block))
         == Sum(Strided(TileAcc(h, micro, nseg, len, block), RT, |tiles|), 0, n)
    decreases n
  {
    if n > 0 {
      ThreadsAcc(h, n - 1, tiles, micro, nseg, len, block);
      OneThread(h, n - 1, tiles, micro, nseg, len, block);
      var mine := ThreadSegs(n - 1, tiles, micro, nseg, len, block);
      AccConcat(h, ThreadsSegs(n - 1, tiles, micro, nseg, len, block), mine);
    }
  }

  /** Thread by thread, group by group, tail tiles last: the schedule accumulates what accumulating
      the tiles in ascending order would. */
  lemma ScheduleAcc(h: Segment -> real, micro: nat, group: nat, k: nat, block: nat)
    requires micro > 0 && group > 0 && block > 0
    ensures Acc(h, Segments(micro, group, k, block))
         == Sum(TileAcc(h, micro, NumSegs(micro, block), SegLen(micro, block), block), 0, NumKo(micro, k) * RT)
  {
    var m := NumKo(micro, k);
    TilesInOrder(m, group);
    ThreadsAcc(h, RT, Tiles(m, group), micro, NumSegs(micro, block), SegLen(micro, block), block);
    SumStrided(TileAcc(h, micro, NumSegs(micro, block), SegLen(micro, block), block), RT, m);
  }

  /** A segment's contribution when every element contributes f. */
  function Elements(f: int -> real): Segment -> real {
    (s: Segment) => Sum(f, s.k0, s.k0 + s.len)
  }

  /** Each segment starts where the one before it ends. */
  ghost predicate Chain(segs: seq<Segment>, base: nat, end: nat) {
    if segs == [] then base == end
    else
      var last := segs[|segs| - 1];
      last.k0 + last.len == end && Chain(segs[..|segs| - 1], base, last.k0)
  }

  lemma {:induction false} ChainFrom(segs: seq<Segment>, base: nat, end: nat)
    requires Chain(segs, base, end)
    ensures base <= end
  {
    if segs != [] { ChainFrom(segs[..|segs| - 1], base, segs[|segs| - 1].k0); }
  }

  /** A chain of segments visits every element it spans once. */
  lemma {:induction false} ChainElements(f: int -> real, segs: seq<Segment>, base: nat, end: nat)
    requires Chain(segs, base, end)
    ensures Acc(Elements(f), segs) == Sum(f, base, end)
  {
    if segs != [] {
      var init, last := segs[..|segs| - 1], segs[|segs| - 1];
      ChainElements(f, init, base, last.k0);
      ChainFrom(init, base, last.k0);
      SumSplit(f, base, last.k0, end);
    }
  }

  /** The segments of a tile are a chain. */
  lemma {:induction false} TileChain(base: nat, n: nat, len: nat, block: nat)
    requires block > 0
    ensures Chain(TileSegs(base, n, len, block), base, base + Times(n, len))
  {
    if n > 0 {
      TileChain(base, n - 1, len, block);
      TimesIsProduct(n - 1, len);
      assert TileSegs(base, n, len, block)[..n - 1] == TileSegs(base, n - 1, len, block);
    }
  }

  lemma AllTiles(f: int -> real, tiles: nat, micro: nat, nseg: nat, len: nat, block: nat)
    requires micro > 0 && block > 0 && nseg * len == micro
    ensures Sum(TileAcc(Elements(f), micro, nseg, len, block), 0, tiles) == Sum(f, 0, tiles * micro)
  {
    var tile := TileAcc(Elements(f), micro, nseg, len, block);
    TimesIsProduct(nseg, len);
    forall t | 0 <= t < tiles ensures tile(t) == BlockSum(f, micro)(t) {
      TileChain(t * micro, nseg, len, block);
      ChainElements(f, TileSegs(t * micro, nseg, len, block), t * micro, t * micro + micro);
    }
    SumSame(tile, BlockSum(f, micro), 0, tiles);
    SumBlocks(f, micro, 0, tiles);
  }

  /** When the segments fill their tiles, the schedule visits every element below the padded K once,
      whatever the group size. */
  lemma ScheduleElements(f: int -> real, micro: nat, group: nat, k: nat, block: nat)
    requires micro > 0 && group > 0 && block > 0
    requires NumSegs(micro, block) * SegLen(micro, block) == micro
    ensures Acc(Elements(f), Segments(micro, group, k, block)) == Sum(f, 0, NumKo(micro, k) * RT * micro)
  {
    ScheduleAcc(Elements(f), micro, group, k, block);
    AllTiles(f, NumKo(micro, k) * RT, micro, NumSegs(micro, block), SegLen(micro, block), block);
  }

  // ----- where the segments are

  function SegAt(t: nat, s: nat, micro: nat, len: nat, block: nat): Segment
    requires block > 0
  {
    Segment(t * micro + s * len, len, (t * micro + s * len) / block)
  }

  lemma {:induction false} ThreadHas(kr: nat, tiles: seq<nat>, micro: nat, nseg: nat, len: nat, block: nat, ko: nat,
                                     s: nat)
    requires block > 0 && Ascending(tiles) && ko < |tiles| && s < nseg
    ensures SegAt(ko * RT + kr, s, micro, len, block) in ThreadSegs(kr, tiles, micro, nseg, len, block)
    decreases |tiles|
  {
    TileStart(ko, kr, micro);
    if ko < |tiles| - 1 {
      ThreadHas(kr, tiles[..|tiles| - 1], micro, nseg, len, block, ko, s);
    } else {
      var last := TileSegs(ko * (RT * micro) + kr * micro, nseg, len, block);
      assert last[s] == SegAt(ko * RT + kr, s, micro, len, block);
    }
  }

  lemma InEither(seg: Segment, x: seq<Segment>, y: seq<Segment>)
    ensures seg in x + y <==> seg in x || seg in y
  {
  }

  lemma {:induction false} ThreadsHave(n: nat, tiles: seq<nat>, micro: nat, nseg: nat, len: nat, block: nat, kr: nat,
                                       ko: nat, s: nat)
    requires block > 0 && Ascending(tiles) && kr < n && ko < |tiles| && s < nseg
    ensures SegAt(ko * RT + kr, s, micro, len, block) in ThreadsSegs(n, tiles, micro, nseg, len, block)
    decreases n
  {
    var before := ThreadsSegs(n - 1, tiles, micro, nseg, len, block);
    var mine := ThreadSegs(n - 1, tiles, micro, nseg, len, block);
    if kr < n - 1 {
      ThreadsHave(n - 1, tiles, micro, nseg, len, block, kr, ko, s);
      InEither(SegAt(ko * RT + kr, s, micro, len, block), before, mine);
    } else {
      ThreadHas(kr, tiles, micro, nseg, len, block, ko, s);
      InEither(SegAt(ko * RT + kr, s, micro, len, block), before, mine);
    }
  }

  lemma SegmentOfTiles(tiles: seq<nat>, micro: nat, nseg: nat, len: nat, block: nat, t: nat, s: nat)
    requires block > 0 && Ascending(tiles) && t < |tiles| * RT && s < nseg
    ensures SegAt(t, s, micro, len, block) in ThreadsSegs(RT, tiles, micro, nseg, len, block)
  {
    var ko, kr := TileThread(t, |tiles|);
    ThreadsHave(RT, tiles, micro, nseg, len, block, kr, ko, s);
  }

  /** Every tile below the padded K has all its segments. */
  lemma SegmentThere(micro: nat, group: nat, k: nat, block: nat, t: nat, s: nat)
    requires micro > 0 && group > 0 && block > 0
    requires t < NumKo(micro, k) * RT && s < NumSegs(micro, block)
    ensures SegAt(t, s, micro, SegLen(micro, block), block) in Segments(micro, group, k, block)
  {
    TilesInOrder(NumKo(micro, k), group);
    SegmentOfTiles(Tiles(NumKo(micro, k), group), micro, NumSegs(micro, block), SegLen(micro, block), block, t, s);
  }

  /** Tile `t` is thread `kr`'s share of K-tile `ko`. */
  lemma TileThread(t: nat, m: nat) returns (ko: nat, kr: nat)
    requires t < m * RT
    ensures ko < m && kr < RT && t == ko * RT + kr
  {
    ko, kr := t / RT, t % RT;
  }

  ghost predicate OfTile(seg: Segment, tiles: nat, micro: nat, nseg: nat, len: nat, block: nat)
    requires block > 0
  {
    exists t: nat, s: nat :: t < tiles && s < nseg && seg == SegAt(t, s, micro, len, block)
  }

  lemma {:induction false} ThreadForm(kr: nat, tiles: seq<nat>, micro: nat, nseg: nat, len: nat, block: nat,
                                      seg: Segment)
    requires block > 0 && Ascending(tiles) && kr < RT
    requires seg in ThreadSegs(kr, tiles, micro, nseg, len, block)
    ensures OfTile(seg, |tiles| * RT, micro, nseg, len, block)
    decreases |tiles|
  {
    var init := tiles[..|tiles| - 1];
    var ko := |tiles| - 1;
    var last := TileSegs(ko * (RT * micro) + kr * micro, nseg, len, block);
    InEither(seg, ThreadSegs(kr, init, micro, nseg, len, block), last);
    if seg in ThreadSegs(kr, init, micro, nseg, len, block) {
      ThreadForm(kr, init, micro, nseg, len, block, seg);
      OfMoreTiles(seg, ko * RT, |tiles| * RT, micro, nseg, len, block);
    } else {
      var s: nat :| s < nseg && seg == last[s];
      TileStart(ko, kr, micro);
      InTile(seg, ko, kr, s, |tiles|, micro, nseg, len, block);
    }
  }

  lemma InTile(seg: Segment, ko: nat, kr: nat, s: nat, m: nat, micro: nat, nseg: nat, len: nat, block: nat)
    requires block > 0 && ko < m && kr < RT && s < nseg && seg == SegAt(ko * RT + kr, s, micro, len, block)
    ensures OfTile(seg, m * RT, micro, nseg, len, block)
  {
    var t := ko * RT + kr;
    assert t < m * RT;
  }

  lemma OfMoreTiles(seg: Segment, a: nat, b: nat, micro: nat, nseg: nat, len: nat, block: nat)
    requires block > 0 && a <= b && OfTile(seg, a, micro, nseg, len, block)
    ensures OfTile(seg, b, micro, nseg, len, block)
  {
    var t: nat, s: nat :| t < a && s < nseg && seg == SegAt(t, s, micro, len, block);
    assert t < b && s < nseg;
  }

  lemma {:induction false} ThreadsForm(n: nat, tiles: seq<nat>, micro: nat, nseg: nat, len: nat, block: nat,
                                       seg: Segment)
    requires block > 0 && Ascending(tiles) && n <= RT
    requires seg in ThreadsSegs(n, tiles, micro, nseg, len, block)
    ensures OfTile(seg, |tiles| * RT, micro, nseg, len, block)
    decreases n
  {
    if seg in ThreadsSegs(n - 1, tiles, micro, nseg, len, block) {
      ThreadsForm(n - 1, tiles, micro, nseg, len, block, seg);
    } else {
      ThreadForm(n - 1, tiles, micro, nseg, len, block, seg);
    }
  }

  /** Every segment is one of some tile's. */
  lemma SegmentForm(micro: nat, group: nat, k: nat, block: nat, seg: Segment)
    requires micro > 0 && group > 0 && block > 0
    requires seg in Segments(micro, group, k, block)
    ensures OfTile(seg, NumKo(micro, k) * RT, micro, NumSegs(micro, block), SegLen(micro, block), block)
  {
    TilesInOrder(NumKo(micro, k), group);
    ThreadsForm(RT, Tiles(NumKo(micro, k), group), micro, NumSegs(micro, block), SegLen(micro, block), block, seg);
  }
}
