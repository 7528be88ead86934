/** The index check and the numeric check of the GEMV schedule: when they pass, and what the
    accumulation adds up to. */
module GemvCheck {
  import opened Prelude
  import opened Sums
  import opened GemvSchedule

  // ----- arithmetic

  lemma DivUnique(x: int, b: int, q: int, r: int)
    requires b > 0 && x == q * b + r && 0 <= r < b
    ensures x / b == q && x % b == r
  {
    var q', r' := x / b, x % b;
    assert x == b * q' + r' && 0 <= r' < b;
    if q' < q {
      assert b * (q - q') >= b by { Grow(b, q - q'); }
    } else if q < q' {
      assert b * (q' - q) >= b by { Grow(b, q' - q); }
    }
  }

  lemma Grow(b: int, n: int)
    requires b > 0 && n >= 1
    ensures b * n >= b
  {
    MulMono(1, n, b);
  }

  lemma Padded(micro: nat, k: nat)
    requires micro > 0
    ensures NumKo(micro, k) * RT * micro >= k
    ensures k % (RT * micro) == 0 <==> NumKo(micro, k) * RT * micro == k
    ensures k > 0 ==> NumKo(micro, k) >= 1
  {
    var w := RT * micro;
    var m := NumKo(micro, k);
    var x := k + w - 1;
    assert x == w * (x / w) + x % w && 0 <= x % w < w;
    assert m * RT * micro == m * w;
    assert m * w == w * (x / w);
    if k % w == 0 {
      var q := k / w;
      assert k == w * q + 0 && k == q * w;
      DivUnique(x, w, q, w - 1);
    } else if m * w == k {
      DivUnique(k, w, m, 0);
    }
  }

  // ----- what the index check looks at

  /** The segment is in range and every element of it belongs to the block whose scale it reads. */
  ghost predicate Good(seg: Segment, k: nat, block: nat)
    requires block > 0
  {
    seg.k0 + seg.len <= k && forall kk :: seg.k0 <= kk < seg.k0 + seg.len ==> kk / block == seg.scale
  }

  /** How many segments contain `kk`. */
  function Covers(segs: seq<Segment>, kk: int): nat {
    if segs == [] then 0 else
      var s := segs[|segs| - 1];
      Covers(segs[..|segs| - 1], kk) + if s.k0 <= kk < s.k0 + s.len then 1 else 0
  }

  lemma {:induction false} CoversCounts(segs: seq<Segment>, kk: int)
    ensures Covers(segs, kk) == |set i: nat | i < |segs| && segs[i].k0 <= kk < segs[i].k0 + segs[i].len|
    decreases |segs|
  {
    if segs != [] {
      var init, s := segs[..|segs| - 1], segs[|segs| - 1];
      CoversCounts(init, kk);
      assert segs == init + [s];
      assert (set i: nat | i < |segs| && segs[i].k0 <= kk < segs[i].k0 + segs[i].len)
          == (set i: nat | i < |init| && init[i].k0 <= kk < init[i].k0 + init[i].len)
             + if s.k0 <= kk < s.k0 + s.len then {|init|} else {};
    }
  }

  lemma {:induction false} CoversAcc(segs: seq<Segment>, kk: int)
    ensures Acc(Elements(Indicator(kk)), segs) == Covers(segs, kk) as real
    decreases |segs|
  {
    if segs != [] {
      CoversAcc(segs[..|segs| - 1], kk);
      var s := segs[|segs| - 1];
      SumIndicator(kk, s.k0, s.k0 + s.len);
    }
  }

  lemma {:induction false} CoversNone(segs: seq<Segment>, kk: int)
    requires forall s :: s in segs ==> !(s.k0 <= kk < s.k0 + s.len)
    ensures Covers(segs, kk) == 0
    decreases |segs|
  {
    if segs != [] {
      assert segs[|segs| - 1] in segs;
      CoversNone(segs[..|segs| - 1], kk);
    }
  }

  /** The condition a caller can check: whole rows of tiles, and segments that do not straddle blocks. */
  predicate Sound(micro: nat, block: nat, k: nat)
    requires micro > 0 && block > 0
  {
    && k % (RT * micro) == 0
    && if micro <= block then block % micro == 0 || k <= block else micro % block == 0
  }

  /** The segments partition [0, k) and each lies inside the block of its scale. */
  ghost predicate Clean(segs: seq<Segment>, k: nat, block: nat)
    requires block > 0
  {
    && (forall s :: s in segs ==> Good(s, k, block))
    && (forall kk :: 0 <= kk < k ==> Covers(segs, kk) == 1)
  }

  // ----- sound parameters give a clean schedule

  lemma SegmentShape(micro: nat, block: nat)
    requires micro > 0 && block > 0
    ensures micro <= block ==> NumSegs(micro, block) == 1 && SegLen(micro, block) == micro
    ensures micro > block ==> NumSegs(micro, block) == micro / block
    ensures micro > block && micro % block == 0 ==>
      SegLen(micro, block) == block && NumSegs(micro, block) * block == micro
  {
    DivBounds(micro, block);
    if micro < block {
      DivUnique(micro, block, 0, micro);
    } else if micro == block {
      DivUnique(micro, block, 1, 0);
    } else if micro % block == 0 {
      var n := micro / block;
      assert micro == block * n + 0;
      DivUnique(micro, n, block, 0);
    }
  }

  /** A block-aligned span no longer than a block lies inside one block. */
  lemma SameBlock(start: nat, d: nat, micro: nat, block: nat, t: nat)
    requires 0 < micro <= block && block % micro == 0 && start == t * micro && d < micro
    ensures (start + d) / block == start / block
  {
    var q, r := BlockPosition(t, micro, block);
    DivUnique(start, block, q, r);
    DivUnique(start + d, block, q, r + d);
  }

  /** Tile `t` lies `r` elements into block `q`, and wholly inside it. */
  lemma BlockPosition(t: nat, micro: nat, block: nat) returns (q: nat, r: nat)
    requires 0 < micro <= block && block % micro == 0
    ensures t * micro == q * block + r && r + micro <= block
  {
    var c := block / micro;
    assert block == c * micro;
    q := t / c;
    var i := t % c;
    r := i * micro;
    assert t == c * q + i;
    Regroup(c, q, i, micro);
    MulMono(i + 1, c, micro);
    assert (i + 1) * micro == r + micro;
  }

  lemma Regroup(c: nat, q: nat, r: nat, w: nat)
    ensures (c * q + r) * w == q * (c * w) + r * w
  {
    assert (c * q + r) * w == c * q * w + r * w;
    assert c * q * w == q * (c * w);
  }

  lemma TileEnd(t: nat, tiles: nat, micro: nat, k: nat)
    requires t < tiles && tiles * micro <= k
    ensures t * micro + micro <= k
  {
    MulMono(t + 1, tiles, micro);
    assert (t + 1) * micro == t * micro + micro;
  }

  /** A tile no longer than a block, as one segment. */
  lemma GoodShort(t: nat, micro: nat, block: nat, k: nat)
    requires 0 < micro <= block && (block % micro == 0 || k <= block)
    requires t * micro + micro <= k
    ensures Good(SegAt(t, 0, micro, micro, block), k, block)
  {
    var seg := SegAt(t, 0, micro, micro, block);
    assert seg.k0 == t * micro;
    forall kk | seg.k0 <= kk < seg.k0 + seg.len ensures kk / block == seg.scale {
      if block % micro == 0 {
        SameBlock(seg.k0, kk - seg.k0, micro, block, t);
      } else {
        DivUnique(kk, block, 0, kk);
        DivUnique(seg.k0, block, 0, seg.k0);
      }
    }
  }

  /** One block of a tile that is a whole number of blocks. */
  lemma GoodLong(t: nat, s: nat, nseg: nat, micro: nat, block: nat, k: nat)
    requires 0 < block && nseg * block == micro && s < nseg
    requires t * micro + micro <= k
    ensures Good(SegAt(t, s, micro, block, block), k, block)
  {
    var seg := SegAt(t, s, micro, block, block);
    var q := t * nseg + s;
    MulMono(s + 1, nseg, block);
    assert (s + 1) * block == s * block + block;
    Regroup(nseg, t, s, block);
    assert nseg * t == t * nseg;
    assert seg.k0 == q * block;
    DivUnique(seg.k0, block, q, 0);
    forall kk | seg.k0 <= kk < seg.k0 + seg.len ensures kk / block == seg.scale {
      DivUnique(kk, block, q, kk - seg.k0);
    }
  }

  lemma SoundGood(micro: nat, group: nat, k: nat, block: nat, seg: Segment)
    requires micro > 0 && group > 0 && block > 0 && Sound(micro, block, k)
    requires seg in Segments(micro, group, k, block)
    ensures Good(seg, k, block)
  {
    SegmentForm(micro, group, k, block, seg);
    SegmentShape(micro, block);
    Padded(micro, k);
    var tiles := NumKo(micro, k) * RT;
    var nseg, len := NumSegs(micro, block), SegLen(micro, block);
    var t: nat, s: nat :| t < tiles && s < nseg && seg == SegAt(t, s, micro, len, block);
    TileEnd(t, tiles, micro, k);
    if micro <= block {
      GoodShort(t, micro, block, k);
    } else {
      GoodLong(t, s, nseg, micro, block, k);
    }
  }

  lemma SoundFills(micro: nat, block: nat, k: nat)
    requires micro > 0 && block > 0 && Sound(micro, block, k)
    ensures NumSegs(micro, block) * SegLen(micro, block) == micro
  {
    SegmentShape(micro, block);
  }

  lemma SoundIsClean(micro: nat, group: nat, k: nat, block: nat)
    requires micro > 0 && group > 0 && block > 0 && Sound(micro, block, k)
    ensures Clean(Segments(micro, group, k, block), k, block)
  {
    var segs := Segments(micro, group, k, block);
    forall s | s in segs ensures Good(s, k, block) {
      SoundGood(micro, group, k, block, s);
    }
    SoundFills(micro, block, k);
    Padded(micro, k);
    forall kk | 0 <= kk < k ensures Covers(segs, kk) == 1 {
      CoversAcc(segs, kk);
      ScheduleElements(Indicator(kk), micro, group, k, block);
      SumIndicator(kk, 0, k);
    }
  }

  // ----- unsound parameters do not

  /** No segment that falls short of its tile reaches the first tile's last element. */
  lemma ShortSegment(t: nat, s: nat, nseg: nat, len: nat, micro: nat, block: nat)
    requires block > 0 && s < nseg && nseg * len < micro
    ensures var seg := SegAt(t, s, micro, len, block); !(seg.k0 <= micro - 1 < seg.k0 + seg.len)
  {
    if t == 0 {
      MulMono(s + 1, nseg, len);
      assert (s + 1) * len == s * len + len;
    } else {
      MulMono(1, t, micro);
    }
  }

  lemma OutOfReach(micro: nat, group: nat, k: nat, block: nat, seg: Segment)
    requires micro > 0 && group > 0 && block > 0
    requires NumSegs(micro, block) * SegLen(micro, block) < micro && seg in Segments(micro, group, k, block)
    ensures !(seg.k0 <= micro - 1 < seg.k0 + seg.len)
  {
    SegmentForm(micro, group, k, block, seg);
    var t: nat, s: nat :| s < NumSegs(micro, block) && seg == SegAt(t, s, micro, SegLen(micro, block), block);
    ShortSegment(t, s, NumSegs(micro, block), SegLen(micro, block), micro, block);
  }

  /** A K shorter than one tile is over-read by the second thread. */
  lemma ShorterThanATile(micro: nat, group: nat, k: nat, block: nat)
    requires micro > 0 && group > 0 && block > 0 && 0 < k < micro
    ensures !Clean(Segments(micro, group, k, block), k, block)
  {
    Padded(micro, k);
    SegmentThere(micro, group, k, block, 1, 0);
    assert !Good(SegAt(1, 0, micro, SegLen(micro, block), block), k, block);
  }

  /** Segments that fall short of their tile leave its last element uncovered. */
  lemma ShortTile(micro: nat, group: nat, k: nat, block: nat)
    requires micro > 0 && group > 0 && block > 0 && k > 0
    requires NumSegs(micro, block) * SegLen(micro, block) < micro
    ensures !Clean(Segments(micro, group, k, block), k, block)
  {
    if k < micro {
      ShorterThanATile(micro, group, k, block);
    } else {
      var segs := Segments(micro, group, k, block);
      forall seg | seg in segs ensures !(seg.k0 <= micro - 1 < seg.k0 + seg.len) {
        OutOfReach(micro, group, k, block, seg);
      }
      CoversNone(segs, micro - 1);
    }
  }

  /** A K that is not a whole number of tile rows is over-read by the last thread. */
  lemma RaggedK(micro: nat, group: nat, k: nat, block: nat)
    requires micro > 0 && group > 0 && block > 0 && k > 0
    requires NumSegs(micro, block) * SegLen(micro, block) == micro && k % (RT * micro) != 0
    ensures !Clean(Segments(micro, group, k, block), k, block)
  {
    Padded(micro, k);
    var nseg, len := NumSegs(micro, block), SegLen(micro, block);
    var tiles := NumKo(micro, k) * RT;
    LastSegment(tiles, nseg, micro, len, block);
    SegmentThere(micro, group, k, block, tiles - 1, nseg - 1);
    assert !Good(SegAt(tiles - 1, nseg - 1, micro, len, block), k, block);
  }

  lemma LastSegment(tiles: nat, nseg: nat, micro: nat, len: nat, block: nat)
    requires tiles > 0 && nseg > 0 && block > 0 && nseg * len == micro
    ensures var seg := SegAt(tiles - 1, nseg - 1, micro, len, block);
            seg.k0 + seg.len == tiles * micro
  {
    assert (tiles - 1) * micro == tiles * micro - micro;
    assert (nseg - 1) * len == micro - len;
  }

  /** The tile that holds the last element of the first block, when tiles do not divide blocks, also
      holds an element of the second. */
  lemma TileAtBoundary(micro: nat, block: nat) returns (t: nat)
    requires 0 < micro < block && block % micro != 0
    ensures t * micro < block < t * micro + micro
  {
    t := block / micro;
    DivBounds(block, micro);
    assert block == micro * t + block % micro;
  }

  lemma StraddlesBoundary(start: nat, len: nat, k: nat, block: nat, seg: Segment)
    requires start < block < start + len && seg == Segment(start, len, start / block)
    ensures !Good(seg, k, block)
  {
    DivUnique(start, block, 0, start);
    DivUnique(block, block, 1, 0);
    assert seg.k0 <= block < seg.k0 + seg.len && block / block != seg.scale;
  }

  /** A tile no longer than a block that does not divide it straddles a boundary, if there is one below k. */
  lemma StraddlingTile(micro: nat, group: nat, k: nat, block: nat)
    requires 0 < micro < block < k && group > 0
    requires block % micro != 0 && k % (RT * micro) == 0
    ensures !Clean(Segments(micro, group, k, block), k, block)
  {
    SegmentShape(micro, block);
    Padded(micro, k);
    var t := TileAtBoundary(micro, block);
    TileBelow(t, NumKo(micro, k) * RT, micro, k);
    SegmentThere(micro, group, k, block, t, 0);
    StraddlesBoundary(t * micro, micro, k, block, SegAt(t, 0, micro, micro, block));
  }

  lemma TileBelow(t: nat, tiles: nat, micro: nat, k: nat)
    requires tiles * micro >= k && t * micro < k
    ensures t < tiles
  {
    if tiles <= t {
      MulMono(tiles, t, micro);
    }
  }

  lemma LongerThanABlock(micro: nat, block: nat)
    requires 0 < block < micro && micro % block != 0
    requires NumSegs(micro, block) * SegLen(micro, block) == micro
    ensures SegLen(micro, block) > block
  {
    SegmentShape(micro, block);
    var nseg, len := NumSegs(micro, block), SegLen(micro, block);
    assert micro == block * nseg + micro % block;
    if len <= block {
      MulMono(len, block, nseg);
    }
  }

  /** A first segment that reaches past the first block holds an element of the second. */
  lemma FirstSpans(micro: nat, len: nat, k: nat, block: nat)
    requires 0 < block < len
    ensures !Good(SegAt(0, 0, micro, len, block), k, block)
  {
    DivUnique(0, block, 0, 0);
    DivUnique(block, block, 1, 0);
    var seg := SegAt(0, 0, micro, len, block);
    assert seg.k0 == 0 && seg.scale == 0;
    assert seg.k0 <= block < seg.k0 + seg.len && block / block != seg.scale;
  }

  /** A tile longer than a block that is not a multiple of it reads a wrong scale or leaves a gap. */
  lemma UnevenTile(micro: nat, group: nat, k: nat, block: nat)
    requires 0 < block < micro && micro % block != 0 && group > 0 && k > 0 && k % (RT * micro) == 0
    requires NumSegs(micro, block) * SegLen(micro, block) == micro
    ensures !Clean(Segments(micro, group, k, block), k, block)
  {
    Padded(micro, k);
    LongerThanABlock(micro, block);
    SegmentThere(micro, group, k, block, 0, 0);
    FirstSpans(micro, SegLen(micro, block), k, block);
  }

  /** The schedule partitions [0, k) under the right scales exactly for sound parameters, whatever
      the group size. */
  lemma CleanIffSound(micro: nat, group: nat, k: nat, block: nat)
    requires micro > 0 && group > 0 && block > 0 && k > 0
    ensures Clean(Segments(micro, group, k, block), k, block) <==> Sound(micro, block, k)
  {
    if Sound(micro, block, k) {
      SoundIsClean(micro, group, k, block);
    } else if NumSegs(micro, block) * SegLen(micro, block) < micro {
      ShortTile(micro, group, k, block);
    } else if k % (RT * micro) != 0 {
      RaggedK(micro, group, k, block);
    } else if micro <= block {
      if micro == block {
        DivUnique(block, micro, 1, 0);
      }
      StraddlingTile(micro, group, k, block);
    } else {
      UnevenTile(micro, group, k, block);
    }
  }

  // ----- the index check

  /** `EmptyK` is the ValueError of `min` over no elements. */
  datatype Verdict =
    | Ok
    | OverRead(at: nat)
    | WrongScale(at: nat, got: nat, want: nat)
    | Coverage(lo: nat, hi: nat)
    | EmptyK

  method MinMax(a: array<nat>) returns (lo: nat, hi: nat)
    requires a.Length > 0
    ensures (exists i :: 0 <= i < a.Length && a[i] == lo) && (exists i :: 0 <= i < a.Length && a[i] == hi)
    ensures forall i :: 0 <= i < a.Length ==> lo <= a[i] <= hi
  {
    lo, hi := a[0], a[0];
    for i := 1 to a.Length
      invariant exists j :: 0 <= j < i && a[j] == lo
      invariant exists j :: 0 <= j < i && a[j] == hi
      invariant forall j :: 0 <= j < i ==> lo <= a[j] <= hi
    {
      if a[i] < lo { lo := a[i]; }
      if a[i] > hi { hi := a[i]; }
    }
  }

  /** Counts one segment's elements; `bad` is the first element that is not in the segment's block. */
  method ScanSegment(seen: array<nat>, seg: Segment, block: nat) returns (bad: int)
    requires block > 0 && seg.k0 + seg.len <= seen.Length
    modifies seen
    ensures bad < 0 <==> forall q :: seg.k0 <= q < seg.k0 + seg.len ==> q / block == seg.scale
    ensures bad < 0 ==> forall q :: 0 <= q < seen.Length ==>
      seen[q] == old(seen[q]) + if seg.k0 <= q < seg.k0 + seg.len then 1 else 0
    ensures bad >= 0 ==> seg.k0 <= bad < seg.k0 + seg.len && bad / block != seg.scale
  {
    for kk := seg.k0 to seg.k0 + seg.len
      invariant forall q :: seg.k0 <= q < kk ==> q / block == seg.scale
      invariant forall q :: 0 <= q < seen.Length ==> seen[q] == old(seen[q]) + if seg.k0 <= q < kk then 1 else 0
    {
      seen[kk] := seen[kk] + 1;
      if seg.scale != kk / block {
        return kk;
      }
    }
    return -1;
  }

  /** What an answer says about the segments it was given for. */
  ghost predicate Explains(v: Verdict, segs: seq<Segment>, k: nat, block: nat)
    requires block > 0
  {
    match v
    case Ok => k > 0 && Clean(segs, k, block)
    case OverRead(at) => at >= k && exists s :: s in segs && s.k0 + s.len == at + 1
    case WrongScale(at, got, want) => at < k && got != want == at / block
      && exists s :: s in segs && s.k0 <= at < s.k0 + s.len && s.scale == got
    case Coverage(lo, hi) => (lo != 1 || hi != 1)
      && (forall kk :: 0 <= kk < k ==> lo <= Covers(segs, kk) <= hi)
      && (exists kk :: 0 <= kk < k && Covers(segs, kk) == lo) && (exists kk :: 0 <= kk < k && Covers(segs, kk) == hi)
    case EmptyK => k == 0
  }

  /** The counting loop over any list of non-empty segments: "ok" iff they are clean. */
  method CheckSegments(segs: seq<Segment>, k: nat, block: nat) returns (v: Verdict)
    requires block > 0 && forall s :: s in segs ==> s.len >= 1
    ensures Explains(v, segs, k, block)
    ensures k > 0 ==> (v.Ok? <==> Clean(segs, k, block))
  {
    var bad, seen := CountSegments(segs, k, block);
    if bad.Some? {
      return bad.value;
    }
    if k == 0 {
      return EmptyK;
    }
    var lo, hi := MinMax(seen);
    assert forall kk :: 0 <= kk < k ==> seen[kk] == Covers(segs, kk);
    if lo != 1 || hi != 1 {
      return Coverage(lo, hi);
    }
    return Ok;
  }

  /** Counts every element's segments, up to the first defect. */
  method CountSegments(segs: seq<Segment>, k: nat, block: nat) returns (bad: Option<Verdict>, seen: array<nat>)
    requires block > 0 && forall s :: s in segs ==> s.len >= 1
    ensures seen.Length == k
    ensures bad.None? ==> (forall s :: s in segs ==> Good(s, k, block)) && Counted(seen[..], segs)
    ensures bad.Some? ==> (bad.value.OverRead? || bad.value.WrongScale?) && Explains(bad.value, segs, k, block)
    ensures bad.Some? ==> exists s :: s in segs && !Good(s, k, block)
  {
    seen := new nat[k](_ => 0);
    for i := 0 to |segs|
      invariant forall j :: 0 <= j < i ==> Good(segs[j], k, block)
      invariant Counted(seen[..], segs[..i])
    {
      var seg := segs[i];
      assert seg in segs;
      if seg.k0 + seg.len > k {
        assert !Good(seg, k, block);
        return Some(OverRead(seg.k0 + seg.len - 1)), seen;
      }
      ghost var was := seen[..];
      var at := ScanSegment(seen, seg, block);
      if at >= 0 {
        assert !Good(seg, k, block);
        return Some(WrongScale(at, seg.scale, at / block)), seen;
      }
      CountedNext(was, seen[..], segs, i);
    }
    assert segs[..|segs|] == segs;
    return None, seen;
  }

  ghost predicate Counted(counts: seq<nat>, segs: seq<Segment>) {
    forall q :: 0 <= q < |counts| ==> counts[q] == Covers(segs, q)
  }

  lemma CountedNext(was: seq<nat>, now: seq<nat>, segs: seq<Segment>, i: nat)
    requires i < |segs| && |was| == |now| && Counted(was, segs[..i])
    requires forall q :: 0 <= q < |now| ==>
      now[q] == was[q] + if segs[i].k0 <= q < segs[i].k0 + segs[i].len then 1 else 0
    ensures Counted(now, segs[..i + 1])
  {
    assert segs[..i + 1][..i] == segs[..i];
  }

  /** The index check answers "ok" exactly for sound parameters, whatever the group size; every other
      answer names a real defect of the schedule. */
  method CheckIndex(micro: nat, group: nat, k: nat, block: nat) returns (v: Verdict)
    requires micro > 0 && group > 0 && block > 0
    ensures v.Ok? <==> k > 0 && Sound(micro, block, k)
    ensures Explains(v, Segments(micro, group, k, block), k, block)
  {
    var segs := Segments(micro, group, k, block);
    forall s | s in segs ensures s.len >= 1 {
      SegmentLength(micro, group, k, block, s);
    }
    v := CheckSegments(segs, k, block);
    if k > 0 {
      CleanIffSound(micro, group, k, block);
    }
  }

  lemma SegmentLength(micro: nat, group: nat, k: nat, block: nat, seg: Segment)
    requires micro > 0 && group > 0 && block > 0 && seg in Segments(micro, group, k, block)
    ensures seg.len == SegLen(micro, block) >= 1
  {
    SegmentForm(micro, group, k, block, seg);
  }

  // ----- the numeric check, one output row

  /** Activation times unscaled weight. */
  function Prod(x: seq<real>, g: seq<real>): int -> real {
    k => if 0 <= k < |x| && k < |g| then x[k] * g[k] else 0.0
  }

  function ScaleOf(s: seq<real>, i: int): real {
    if 0 <= i < |s| then s[i] else 0.0
  }

  /** An activation times a scaled weight, and a product under a scale. */
  function Weighted(x: real, g: real, s: real): real { x * (g * s) }

  function Under(s: real, v: real): real { s * v }

  /** Where the tile of element `i` starts. */
  function TileBase(i: nat, micro: nat): nat
    requires micro > 0
  {
    i / micro * micro
  }

  /** The reference: element k under the scale of its own block. */
  function RefTerm(x: seq<real>, g: seq<real>, s: seq<real>, block: nat): int -> real
    requires block > 0
  {
    k => if 0 <= k < |x| && k < |g| then Weighted(x[k], g[k], ScaleOf(s, k / block)) else 0.0
  }

  /** Element k under the scale of the first element of its tile. */
  function FirstScaleTerm(x: seq<real>, g: seq<real>, s: seq<real>, micro: nat, block: nat): int -> real
    requires micro > 0 && block > 0
  {
    k => if 0 <= k < |x| && k < |g| then Weighted(x[k], g[k], ScaleOf(s, TileBase(k, micro) / block)) else 0.0
  }

  /** The two sums the checks speak of, element by element: an activation times a code's value under the
      scale of the element's own block, or of the first element of its tile. */
  lemma TermsSpelledOut(x: seq<real>, g: seq<real>, s: seq<real>, micro: nat, block: nat, k: nat)
    requires micro > 0 && block > 0 && k < |x| == |g| && k / block < |s|
    ensures RefTerm(x, g, s, block)(k) == Weighted(x[k], g[k], s[k / block])
    ensures 0 <= (k - k % micro) / block < |s|
    ensures FirstScaleTerm(x, g, s, micro, block)(k) == Weighted(x[k], g[k], s[(k - k % micro) / block])
  {
    DivBounds(k, micro);
    assert k == micro * (k / micro) + k % micro;
    assert TileBase(k, micro) == k - k % micro;
    DivOrder(k - k % micro, k, block);
  }

  lemma DivOrder(a: nat, b: nat, d: nat)
    requires a <= b && d > 0
    ensures 0 <= a / d <= b / d
  {
    DivBounds(a, d);
    DivBounds(b, d);
    if b / d < a / d {
      MulMono(b / d + 1, a / d, d);
    }
  }

  lemma GemvArithmetic(x: real, g: real, s: real)
    ensures Weighted(x, g, s) == x * (g * s) && Under(s, x) == s * x
  {
  }

  /** One scale per segment, applied to the segment's partial dot product. */
  function SegmentTerm(x: seq<real>, g: seq<real>, s: seq<real>): Segment -> real {
    (seg: Segment) => Under(ScaleOf(s, seg.scale), Sum(Prod(x, g), seg.k0, seg.k0 + seg.len))
  }

  /** The un-segmented control: a tile's first segment stands for the whole tile. */
  function WholeTileTerm(x: seq<real>, g: seq<real>, s: seq<real>, micro: nat): Segment -> real
    requires micro > 0
  {
    (seg: Segment) =>
      if seg.k0 % micro != 0 then 0.0
      else Under(ScaleOf(s, seg.scale), Sum(Prod(x, g), seg.k0, seg.k0 + micro))
  }

  lemma {:induction false} AccSame(h1: Segment -> real, h2: Segment -> real, segs: seq<Segment>)
    requires forall seg :: seg in segs ==> h1(seg) == h2(seg)
    ensures Acc(h1, segs) == Acc(h2, segs)
    decreases |segs|
  {
    if segs != [] {
      assert segs[|segs| - 1] in segs;
      AccSame(h1, h2, segs[..|segs| - 1]);
    }
  }

  lemma MoveScale(x: real, g: real, s: real)
    ensures Weighted(x, g, s) == Under(s, x * g)
  {
  }

  lemma SumUnder(f: int -> real, g: int -> real, s: real, lo: int, hi: int)
    requires forall i :: lo <= i < hi ==> g(i) == Under(s, f(i))
    ensures Sum(g, lo, hi) == Under(s, Sum(f, lo, hi))
  {
    SumScale(f, g, s, lo, hi);
  }

  lemma SegmentIsRef(x: seq<real>, g: seq<real>, s: seq<real>, k: nat, block: nat, seg: Segment)
    requires block > 0 && |x| == |g| == k && Good(seg, k, block)
    ensures SegmentTerm(x, g, s)(seg) == Elements(RefTerm(x, g, s, block))(seg)
  {
    var f, c := RefTerm(x, g, s, block), ScaleOf(s, seg.scale);
    forall i | seg.k0 <= i < seg.k0 + seg.len ensures f(i) == Under(c, Prod(x, g)(i)) {
      MoveScale(x[i], g[i], c);
    }
    SumUnder(Prod(x, g), f, c, seg.k0, seg.k0 + seg.len);
  }

  lemma SegmentedIsRef(x: seq<real>, g: seq<real>, s: seq<real>, micro: nat, group: nat, k: nat, block: nat)
    requires micro > 0 && group > 0 && block > 0 && |x| == |g| == k && Sound(micro, block, k)
    ensures Acc(SegmentTerm(x, g, s), Segments(micro, group, k, block)) == Sum(RefTerm(x, g, s, block), 0, k)
  {
    var segs := Segments(micro, group, k, block);
    var f := RefTerm(x, g, s, block);
    forall seg | seg in segs ensures SegmentTerm(x, g, s)(seg) == Elements(f)(seg) {
      SoundGood(micro, group, k, block, seg);
      SegmentIsRef(x, g, s, k, block, seg);
    }
    AccSame(SegmentTerm(x, g, s), Elements(f), segs);
    SoundFills(micro, block, k);
    ScheduleElements(f, micro, group, k, block);
    Padded(micro, k);
  }

  /** Only the first segment of a tile starts at a multiple of the tile length. */
  lemma {:induction false} WholeTile(x: seq<real>, g: seq<real>, s: seq<real>, micro: nat, block: nat, t: nat,
                                     n: nat, len: nat, start: nat)
    requires micro > 0 && block > 0 && 1 <= n && 1 <= len && n * len <= micro && start == t * micro
    ensures Acc(WholeTileTerm(x, g, s, micro), TileSegs(start, n, len, block))
         == Under(ScaleOf(s, start / block), Sum(Prod(x, g), start, start + micro))
    decreases n
  {
    var h := WholeTileTerm(x, g, s, micro);
    var segs := TileSegs(start, n, len, block);
    assert segs[..n - 1] == TileSegs(start, n - 1, len, block);
    var last := segs[n - 1];
    assert last.k0 == start + (n - 1) * len;
    if n == 1 {
      DivUnique(start, micro, t, 0);
      assert Acc(h, segs[..0]) == 0.0;
    } else {
      assert n * len == (n - 1) * len + len;
      MulMono(1, n - 1, len);
      DivUnique(last.k0, micro, t, (n - 1) * len);
      WholeTile(x, g, s, micro, block, t, n - 1, len, start);
    }
  }

  lemma FirstOfTile(i: nat, t: nat, micro: nat, start: nat)
    requires micro > 0 && start == t * micro && start <= i < start + micro
    ensures TileBase(i, micro) == start
  {
    DivUnique(i, micro, t, i - start);
  }

  lemma FirstScaleElement(x: seq<real>, g: seq<real>, s: seq<real>, micro: nat, block: nat, t: nat, start: nat, i: nat)
    requires micro > 0 && block > 0 && |x| == |g| && start == t * micro && start <= i < start + micro && i < |x|
    ensures FirstScaleTerm(x, g, s, micro, block)(i) == Under(ScaleOf(s, start / block), Prod(x, g)(i))
  {
    FirstOfTile(i, t, micro, start);
    MoveScale(x[i], g[i], ScaleOf(s, start / block));
  }

  lemma TileIsFirstScale(x: seq<real>, g: seq<real>, s: seq<real>, micro: nat, k: nat, block: nat, t: nat, start: nat)
    requires micro > 0 && block > 0 && |x| == |g| == k && start == t * micro && start + micro <= k
    ensures Under(ScaleOf(s, start / block), Sum(Prod(x, g), start, start + micro))
         == Sum(FirstScaleTerm(x, g, s, micro, block), start, start + micro)
  {
    var f, c := FirstScaleTerm(x, g, s, micro, block), ScaleOf(s, start / block);
    forall i | start <= i < start + micro ensures f(i) == Under(c, Prod(x, g)(i)) {
      FirstScaleElement(x, g, s, micro, block, t, start, i);
    }
    SumUnder(Prod(x, g), f, c, start, start + micro);
  }

  lemma WholeTileIsFirstScale(x: seq<real>, g: seq<real>, s: seq<real>, micro: nat, k: nat, block: nat, t: nat,
                              nseg: nat, len: nat, start: nat)
    requires micro > 0 && block > 0 && |x| == |g| == k && start == t * micro && start + micro <= k
    requires 1 <= nseg && 1 <= len && nseg * len <= micro
    ensures Acc(WholeTileTerm(x, g, s, micro), TileSegs(start, nseg, len, block))
         == Sum(FirstScaleTerm(x, g, s, micro, block), start, start + micro)
  {
    WholeTile(x, g, s, micro, block, t, nseg, len, start);
    TileIsFirstScale(x, g, s, micro, k, block, t, start);
  }

  lemma UnsegmentedIsFirstScale(x: seq<real>, g: seq<real>, s: seq<real>, micro: nat, group: nat, k: nat, block: nat)
    requires micro > 0 && group > 0 && block > 0 && |x| == |g| == k && k % (RT * micro) == 0
    ensures Acc(WholeTileTerm(x, g, s, micro), Segments(micro, group, k, block))
         == Sum(FirstScaleTerm(x, g, s, micro, block), 0, k)
  {
    Padded(micro, k);
    ScheduleAcc(WholeTileTerm(x, g, s, micro), micro, group, k, block);
    AllFirstScale(x, g, s, micro, k, block, NumKo(micro, k) * RT, NumSegs(micro, block), SegLen(micro, block));
  }

  lemma AllFirstScale(x: seq<real>, g: seq<real>, s: seq<real>, micro: nat, k: nat, block: nat, tiles: nat,
                      nseg: nat, len: nat)
    requires micro > 0 && block > 0 && |x| == |g| == k == tiles * micro
    requires 1 <= nseg && 1 <= len && nseg * len <= micro
    ensures Sum(TileAcc(WholeTileTerm(x, g, s, micro), micro, nseg, len, block), 0, tiles)
         == Sum(FirstScaleTerm(x, g, s, micro, block), 0, k)
  {
    var tile := TileAcc(WholeTileTerm(x, g, s, micro), micro, nseg, len, block);
    var f := FirstScaleTerm(x, g, s, micro, block);
    forall t | 0 <= t < tiles ensures tile(t) == BlockSum(f, micro)(t) {
      TileEnd(t, tiles, micro, k);
      WholeTileIsFirstScale(x, g, s, micro, k, block, t, nseg, len, t * micro);
    }
    SumSame(tile, BlockSum(f, micro), 0, tiles);
    SumBlocks(f, micro, 0, tiles);
  }

  /** `y += h(segment)` over the schedule. */
  method Accumulate(h: Segment -> real, segs: seq<Segment>) returns (y: real)
    ensures y == Acc(h, segs)
  {
    y := 0.0;
    for i := 0 to |segs|
      invariant y == Acc(h, segs[..i])
    {
      assert segs[..i + 1][..i] == segs[..i];
      y := y + h(segs[i]);
    }
    assert segs[..|segs|] == segs;
  }

  /** One output row accumulated in the kernel's order, in exact arithmetic. Segmented, it is the
      reference dot product whenever the index check passes; un-segmented, over whole rows of tiles,
      every tile is under its first block's scale. */
  method CheckNumericRow(x: seq<real>, g: seq<real>, s: seq<real>, micro: nat, group: nat, block: nat,
                         unsegmented: bool)
    returns (y: real)
    requires micro > 0 && group > 0 && block > 0 && |x| == |g|
    ensures !unsegmented && Sound(micro, block, |x|) ==> y == Sum(RefTerm(x, g, s, block), 0, |x|)
    ensures unsegmented && |x| % (RT * micro) == 0 ==> y == Sum(FirstScaleTerm(x, g, s, micro, block), 0, |x|)
  {
    var segs := Segments(micro, group, |x|, block);
    if unsegmented {
      y := Accumulate(WholeTileTerm(x, g, s, micro), segs);
      if |x| % (RT * micro) == 0 {
        UnsegmentedIsFirstScale(x, g, s, micro, group, |x|, block);
      }
    } else {
      y := Accumulate(SegmentTerm(x, g, s), segs);
      if Sound(micro, block, |x|) {
        SegmentedIsRef(x, g, s, micro, group, |x|, block);
      }
    }
  }

  // ----- the negative control

  /** The un-segmented row agrees with the reference on all inputs. */
  ghost predicate FirstScaleSuffices(micro: nat, block: nat, k: nat)
    requires micro > 0 && block > 0
  {
    forall x: seq<real>, g: seq<real>, s: seq<real> :: |x| == |g| == k && |s| == k / block ==>
      Sum(FirstScaleTerm(x, g, s, micro, block), 0, k) == Sum(RefTerm(x, g, s, block), 0, k)
  }

  /** One scale per tile is right exactly when a tile does not span two blocks. */
  lemma FirstScaleSufficesIff(micro: nat, block: nat, k: nat)
    requires micro > 0 && block > 0 && k > 0 && Sound(micro, block, k)
    ensures FirstScaleSuffices(micro, block, k) <==> micro <= block
  {
    if micro <= block {
      forall x: seq<real>, g: seq<real>, s: seq<real> | |x| == |g| == k && |s| == k / block
        ensures Sum(FirstScaleTerm(x, g, s, micro, block), 0, k) == Sum(RefTerm(x, g, s, block), 0, k)
      {
        forall i | 0 <= i < k ensures TileBase(i, micro) / block == i / block {
          TileScale(i, micro, block, k);
        }
        SumSame(FirstScaleTerm(x, g, s, micro, block), RefTerm(x, g, s, block), 0, k);
      }
    } else {
      SpanningTile(micro, block, k);
    }
  }

  lemma TileScale(i: nat, micro: nat, block: nat, k: nat)
    requires 0 < micro <= block && i < k && (block % micro == 0 || k <= block)
    ensures TileBase(i, micro) / block == i / block
  {
    DivBounds(i, micro);
    var t := i / micro;
    if block % micro == 0 {
      SameBlock(t * micro, i - t * micro, micro, block, t);
    } else {
      DivUnique(i, block, 0, i);
      DivUnique(t * micro, block, 0, t * micro);
    }
  }

  lemma SecondBlock(micro: nat, block: nat, k: nat)
    requires 0 < block < micro <= k && micro % block == 0
    ensures k / block >= 2
  {
    DivBounds(micro, block);
    DivBounds(k, block);
    if micro / block == 1 {
      DivUnique(micro, block, 1, micro - block);
    } else if k / block < 2 {
      MulMono(k / block, 1, block);
      MulMono(2, micro / block, block);
    }
  }

  /** Zero everywhere but in the second block. */
  lemma SecondScaleOnly(s: seq<real>, micro: nat, block: nat, k: nat)
    requires 0 < block < micro <= k && micro % block == 0 && s == seq(k / block, b => if b == 1 then 1.0 else 0.0)
    ensures ScaleOf(s, block / block) == 1.0 && ScaleOf(s, TileBase(block, micro) / block) == 0.0
  {
    SecondBlock(micro, block, k);
    DivUnique(block, block, 1, 0);
    DivUnique(block, micro, 0, block);
    DivUnique(0, block, 0, 0);
  }

  /** A one at the second block of the first tile, seen by the reference and missed without segments. */
  lemma SpanningTile(micro: nat, block: nat, k: nat)
    requires 0 < block < micro && k > 0 && Sound(micro, block, k)
    ensures !FirstScaleSuffices(micro, block, k)
  {
    Padded(micro, k);
    assert k >= micro;
    var x := seq(k, i => if i == block then 1.0 else 0.0);
    var g := seq(k, _ => 1.0);
    var s := seq(k / block, b => if b == 1 then 1.0 else 0.0);
    SecondScaleOnly(s, micro, block, k);
    SumSame(RefTerm(x, g, s, block), Indicator(block), 0, k);
    SumIndicator(block, 0, k);
    SumZero(FirstScaleTerm(x, g, s, micro, block), 0, k);
    assert Sum(FirstScaleTerm(x, g, s, micro, block), 0, k) != Sum(RefTerm(x, g, s, block), 0, k);
  }
}
