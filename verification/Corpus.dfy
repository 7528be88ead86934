/** Cutting prompts out of text: bounded re-encoding of a row prefix, disjoint spans of one token
    stream, and the preparation of held-out and training spans from articles. */
module Corpus {

  import opened Prelude

  // ----- bounded re-encoding

  /** Rows joined by a newline. */
  function Join(rows: seq<string>): string {
    if rows == [] then ""
    else if |rows| == 1 then rows[0]
    else Join(rows[..|rows| - 1]) + "\n" + rows[|rows| - 1]
  }

  /** Characters of the first `k` rows, with one separator each. */
  function Chars(rows: seq<string>, k: nat): nat
    requires k <= |rows|
  {
    if k == 0 then 0 else Chars(rows, k - 1) + |rows[k - 1]| + 1
  }

  lemma {:induction false} JoinLength(rows: seq<string>, k: nat)
    requires 0 < k <= |rows|
    ensures |Join(rows[..k])| == Chars(rows, k) - 1
  {
    if k > 1 {
      JoinLength(rows, k - 1);
      assert rows[..k][..k - 1] == rows[..k - 1];
    } else {
      assert Chars(rows, 0) == 0;
    }
  }

  lemma {:induction false} CharsPrefix(rows: seq<string>, k: nat)
    requires k <= |rows|
    ensures Chars(rows, k) <= Chars(rows, |rows|)
    decreases |rows| - k
  {
    if k < |rows| { CharsPrefix(rows, k + 1); }
  }

  /** Each row stands in the join after the rows before it and their separators, and a newline follows
      unless it is the last. */
  lemma {:induction false} JoinAt(rows: seq<string>, k: nat)
    requires k < |rows|
    ensures Chars(rows, k) + |rows[k]| <= |Join(rows)|
    ensures Join(rows)[Chars(rows, k)..Chars(rows, k) + |rows[k]|] == rows[k]
    ensures if k + 1 == |rows| then |Join(rows)| == Chars(rows, k) + |rows[k]|
      else Chars(rows, k) + |rows[k]| < |Join(rows)| && Join(rows)[Chars(rows, k) + |rows[k]|] == '\n'
    decreases |rows|
  {
    var n := |rows| - 1;
    if n > 0 {
      JoinLength(rows, n);
      CharsOfPrefix(rows, n, if k < n then k else n);
      assert Join(rows) == Join(rows[..n]) + "\n" + rows[n];
      if k < n {
        JoinAt(rows[..n], k);
        SliceOfPrefix(Join(rows[..n]), "\n" + rows[n], Chars(rows, k), Chars(rows, k) + |rows[k]|);
        assert Join(rows) == Join(rows[..n]) + ("\n" + rows[n]);
      }
    }
  }

  lemma SliceOfPrefix(x: string, y: string, i: nat, j: nat)
    requires i <= j <= |x|
    ensures (x + y)[i..j] == x[i..j]
  {
  }

  lemma {:induction false} CharsOfPrefix(rows: seq<string>, n: nat, k: nat)
    requires k <= n <= |rows|
    ensures Chars(rows[..n], k) == Chars(rows, k)
  {
    if k > 0 { CharsOfPrefix(rows, n, k - 1); }
  }

  /** Characters at which the encoding number `e` (from 0) is due. */
  function Budget(maxTokens: nat, e: nat): nat {
    if e == 0 then 4 * maxTokens else 2 * Budget(maxTokens, e - 1)
  }

  lemma {:induction false} BudgetIsPower(maxTokens: nat, e: nat)
    ensures Budget(maxTokens, e) == 4 * maxTokens * Pow2(e)
  {
    if e > 0 { BudgetIsPower(maxTokens, e - 1); }
  }

  /** The first `j` rows encode to fewer ids than wanted. */
  ghost predicate Short(encode: string -> seq<nat>, rows: seq<string>, j: nat, maxTokens: nat) {
    j <= |rows| && |encode(Join(rows[..j]))| < maxTokens
  }

  /** The first `k` rows overshoot what was called for by less than a factor of two: less than the first
      budget, or less than twice the first `last` rows, which encode to too few ids. */
  ghost predicate Modest(encode: string -> seq<nat>, rows: seq<string>, k: nat, maxTokens: nat, last: nat) {
    k <= |rows| && (Chars(rows, k) < 4 * maxTokens
      || (0 < last <= |rows| && Short(encode, rows, last, maxTokens) && Chars(rows, k) < 2 * Chars(rows, last)))
  }

  /** After `calls` encodings, the last one of the first `k` rows: no more of the rows are encoded than a
      factor of two calls for, and no more often than the budget doubles; once, when all the rows
      together stay below the first budget. */
  ghost predicate Frugal(encode: string -> seq<nat>, rows: seq<string>, maxTokens: nat,
                         k: nat, calls: nat, last: nat) {
    && calls >= 1 && (k > 0 ==> Modest(encode, rows, k - 1, maxTokens, last))
    && (Chars(rows, |rows|) < 4 * maxTokens ==> calls == 1 && k == |rows|)
    && (calls >= 2 ==> Budget(maxTokens, calls - 2) <= Chars(rows, |rows|))
  }

  /** A tokenizer, with the texts it was given. */
  class Tokenizer {
    const encode: string -> seq<nat>
    var texts: seq<string>

    constructor (encode: string -> seq<nat>)
      ensures this.encode == encode && texts == []
    {
      this.encode, texts := encode, [];
    }

    method Encode(text: string) returns (ids: seq<nat>)
      modifies this
      ensures ids == encode(text) && texts == old(texts) + [text]
    {
      ids := encode(text);
      texts := texts + [text];
    }
  }

  /** The first prefix whose encoding is seen to be long enough, or everything. The tokenizer is called
      once when all the rows stay below the first budget, and otherwise at most twice more than the
      budget fits doubled into the rows; its last call is for the `k` rows returned, which overshoot
      what was called for by less than a factor of two. `last` is the prefix encoded before, if any. */
  method BoundedJoinEncode(tok: Tokenizer, rows: seq<string>, maxTokens: nat)
    returns (ids: seq<nat>, ghost k: nat, ghost last: nat)
    requires maxTokens >= 1
    modifies tok
    ensures k <= |rows| && ids == tok.encode(Join(rows[..k])) && (|ids| >= maxTokens || k == |rows|)
    ensures old(tok.texts) < tok.texts && tok.texts[|tok.texts| - 1] == Join(rows[..k])
    ensures var calls := |tok.texts| - |old(tok.texts)|;
      && (Chars(rows, |rows|) < 4 * maxTokens ==> calls == 1 && k == |rows|)
      && (calls >= 2 ==> 4 * maxTokens * Pow2(calls - 2) <= Chars(rows, |rows|))
    ensures k > 0 ==> Modest(tok.encode, rows, k - 1, maxTokens, last)
  {
    ids, k, last := EncodePrefix(tok, rows, maxTokens);
    ghost var calls := |tok.texts| - |old(tok.texts)|;
    if calls >= 2 {
      BudgetIsPower(maxTokens, calls - 2);
    }
  }

  method EncodePrefix(tok: Tokenizer, rows: seq<string>, maxTokens: nat)
    returns (ids: seq<nat>, ghost k: nat, ghost last: nat)
    requires maxTokens >= 1
    modifies tok
    ensures k <= |rows| && ids == tok.encode(Join(rows[..k])) && (|ids| >= maxTokens || k == |rows|)
    ensures old(tok.texts) < tok.texts && tok.texts[|tok.texts| - 1] == Join(rows[..k])
    ensures Frugal(tok.encode, rows, maxTokens, k, |tok.texts| - |old(tok.texts)|, last)
  {
    var found;
    ghost var e;
    found, ids, k, last, e := ScanRows(tok, rows, maxTokens);
    if !found {
      assert rows[..|rows|] == rows;
      ids := tok.Encode(Join(rows));
      Exhausted(tok.encode, rows, maxTokens, e, last);
      k := |rows|;
    }
  }

  /** The loop over the rows: `e` failed encodings, and the one that was long enough when `found`. */
  method ScanRows(tok: Tokenizer, rows: seq<string>, maxTokens: nat)
    returns (found: bool, ids: seq<nat>, ghost k: nat, ghost last: nat, ghost e: nat)
    requires maxTokens >= 1
    modifies tok
    ensures old(tok.texts) <= tok.texts
    ensures found ==> |tok.texts| == |old(tok.texts)| + e + 1 && Frugal(tok.encode, rows, maxTokens, k, e + 1, last)
    ensures found ==> k <= |rows| && tok.texts[|tok.texts| - 1] == Join(rows[..k])
    ensures found ==> ids == tok.encode(Join(rows[..k])) && |ids| >= maxTokens
    ensures !found ==> |tok.texts| == |old(tok.texts)| + e && Progress(tok.encode, rows, maxTokens, |rows|, e, last)
  {
    var buf: seq<string> := [];
    var used, budget := 0, maxTokens * 4;
    found, ids, k, last, e := false, [], 0, 0, 0;
    for i := 0 to |rows|
      invariant buf == rows[..i] && used == Chars(rows, i) && budget == Budget(maxTokens, e)
      invariant old(tok.texts) <= tok.texts && |tok.texts| == |old(tok.texts)| + e
      invariant !found && Progress(tok.encode, rows, maxTokens, i, e, last)
    {
      buf, used, budget, ids, found, e, last := TakeRow(tok, rows, maxTokens, buf, used, budget, i, e, last);
      if found {
        k := i + 1;
        return;
      }
    }
  }

  /** One more row, and an encoding when that reaches the budget. */
  method TakeRow(tok: Tokenizer, rows: seq<string>, maxTokens: nat, buf0: seq<string>, used0: nat, budget0: nat,
                 i: nat, ghost e0: nat, ghost last0: nat)
    returns (buf: seq<string>, used: nat, budget: nat, ids: seq<nat>, found: bool, ghost e: nat, ghost last: nat)
    requires i < |rows| && buf0 == rows[..i] && used0 == Chars(rows, i) && budget0 == Budget(maxTokens, e0)
    requires Progress(tok.encode, rows, maxTokens, i, e0, last0)
    modifies tok
    ensures buf == rows[..i + 1] && used == Chars(rows, i + 1) && budget == Budget(maxTokens, e)
    ensures found ==> tok.texts == old(tok.texts) + [Join(rows[..i + 1])] && e == e0
    ensures found ==> ids == tok.encode(Join(rows[..i + 1])) && |ids| >= maxTokens
    ensures found ==> Frugal(tok.encode, rows, maxTokens, i + 1, e + 1, last)
    ensures !found ==> old(tok.texts) <= tok.texts && |tok.texts| - |old(tok.texts)| == e - e0
    ensures !found ==> Progress(tok.encode, rows, maxTokens, i + 1, e, last)
  {
    e, last, ids, found := e0, last0, [], false;
    buf, budget := buf0 + [rows[i]], budget0;
    assert buf == rows[..i + 1];
    used := used0 + |rows[i]| + 1;
    if used >= budget {
      ids, found := Attempt(tok, rows, maxTokens, buf, i, e, last);
      if !found {
        e, last := e + 1, i + 1;
        budget := budget * 2;
      }
    } else {
      NotDue(tok.encode, rows, maxTokens, i, e, last);
    }
  }

  /** One encoding of the rows taken so far, due because they have reached the budget. */
  method Attempt(tok: Tokenizer, ghost rows: seq<string>, maxTokens: nat, buf: seq<string>,
                 ghost i: nat, ghost e: nat, ghost last: nat)
    returns (ids: seq<nat>, enough: bool)
    requires i < |rows| && buf == rows[..i + 1] && Progress(tok.encode, rows, maxTokens, i, e, last)
    requires Chars(rows, i + 1) >= Budget(maxTokens, e)
    modifies tok
    ensures tok.texts == old(tok.texts) + [Join(rows[..i + 1])]
    ensures ids == tok.encode(Join(rows[..i + 1])) && (enough <==> |ids| >= maxTokens)
    ensures enough ==> Frugal(tok.encode, rows, maxTokens, i + 1, e + 1, last)
    ensures !enough ==> Progress(tok.encode, rows, maxTokens, i + 1, e + 1, i + 1)
  {
    ids := tok.Encode(Join(buf));
    enough := |ids| >= maxTokens;
    CharsPrefix(rows, i + 1);
    BudgetGrows(maxTokens, e);
  }

  /** After `i` rows and `e` failed encodings, the last one of the first `last` rows. */
  ghost predicate Progress(encode: string -> seq<nat>, rows: seq<string>, maxTokens: nat, i: nat, e: nat, last: nat) {
    && Modest(encode, rows, i, maxTokens, last) && (i > 0 ==> Modest(encode, rows, i - 1, maxTokens, last))
    && (e > 0 ==> Budget(maxTokens, e - 1) <= Chars(rows, i) && 4 * maxTokens <= Chars(rows, i))
    && (e > 0 ==> 0 < last <= i && Short(encode, rows, last, maxTokens))
    && (e > 0 ==> Budget(maxTokens, e) <= 2 * Chars(rows, last))
  }

  lemma NotDue(encode: string -> seq<nat>, rows: seq<string>, maxTokens: nat, i: nat, e: nat, last: nat)
    requires i < |rows| && Progress(encode, rows, maxTokens, i, e, last)
    requires Chars(rows, i + 1) < Budget(maxTokens, e)
    ensures Progress(encode, rows, maxTokens, i + 1, e, last)
  {
  }

  lemma Exhausted(encode: string -> seq<nat>, rows: seq<string>, maxTokens: nat, e: nat, last: nat)
    requires Progress(encode, rows, maxTokens, |rows|, e, last)
    ensures Frugal(encode, rows, maxTokens, |rows|, e + 1, last)
  {
  }

  lemma {:induction false} BudgetGrows(maxTokens: nat, e: nat)
    ensures Budget(maxTokens, e) >= 4 * maxTokens
  {
    if e > 0 { BudgetGrows(maxTokens, e - 1); }
  }

  // ----- spans of one stream

  function Flatten<T>(xss: seq<seq<T>>): seq<T> {
    if xss == [] then [] else Flatten(xss[..|xss| - 1]) + xss[|xss| - 1]
  }

  /** `n` contiguous slices of `ctx` elements from `from`. */
  function Slices<T>(ids: seq<T>, n: nat, ctx: nat, from: nat): (r: seq<seq<T>>)
    requires from + Times(n, ctx) <= |ids|
    ensures |r| == n
  {
    if n == 0 then []
    else Slices(ids, n - 1, ctx, from) + [ids[from + Times(n - 1, ctx)..from + Times(n, ctx)]]
  }

  /** Spans are one stretch of the stream, all of one length. */
  ghost predicate Stretch<T>(spans: seq<seq<T>>, ctx: nat, stream: seq<T>, from: nat, to: nat) {
    && from <= to <= |stream| && Flatten(spans) == stream[from..to]
    && forall s :: s in spans ==> |s| == ctx
  }

  lemma FlattenSnoc<T>(xss: seq<seq<T>>, xs: seq<T>)
    ensures Flatten(xss + [xs]) == Flatten(xss) + xs
  {
    assert (xss + [xs])[..|xss|] == xss;
  }

  lemma StretchSnoc<T>(spans: seq<seq<T>>, ctx: nat, stream: seq<T>, from: nat, to: nat)
    requires Stretch(spans, ctx, stream, from, to) && to + ctx <= |stream|
    ensures Stretch(spans + [stream[to..to + ctx]], ctx, stream, from, to + ctx)
  {
    FlattenSnoc(spans, stream[to..to + ctx]);
    Abut(stream, from, to, to + ctx);
  }

  /** Slices are disjoint and leave nothing out: end to end they are one stretch of the stream. */
  lemma {:induction false} SlicesAreAStretch<T>(ids: seq<T>, n: nat, ctx: nat, from: nat)
    requires from + Times(n, ctx) <= |ids|
    ensures Stretch(Slices(ids, n, ctx, from), ctx, ids, from, from + Times(n, ctx))
  {
    if n > 0 {
      var mid := from + Times(n - 1, ctx);
      var init := Slices(ids, n - 1, ctx, from);
      SlicesAreAStretch(ids, n - 1, ctx, from);
      assert mid + ctx == from + Times(n, ctx);
      assert Slices(ids, n, ctx, from) == init + [ids[mid..mid + ctx]];
      StretchSnoc(init, ctx, ids, from, mid);
    }
  }

  /** Exactly `n` spans or a refusal. */
  function Spans<T>(ids: seq<T>, n: nat, ctx: nat, skip: nat): Option<seq<seq<T>>> {
    if |ids| < skip + Times(n, ctx) then None else Some(Slices(ids, n, ctx, skip))
  }

  function Effective(len: nat, n: nat, ctx: nat, skip: nat): nat
    requires ctx > 0
  {
    var fit := (len - skip) / ctx;
    var least := if n <= fit then n else fit;
    if least < 0 then 0 else least
  }

  /** How many spans fit between `skip` and the end; negative when the stream ends before `skip`. */
  lemma FitBounds(len: nat, ctx: nat, skip: nat) returns (fit: int)
    requires ctx > 0
    ensures fit == (len - skip) / ctx
    ensures fit >= 0 ==> skip + Times(fit, ctx) <= len < skip + Times(fit + 1, ctx)
    ensures fit < 0 ==> len < skip
  {
    fit := (len - skip) / ctx;
    assert len - skip == ctx * fit + (len - skip) % ctx;
    if fit >= 0 {
      TimesIsProduct(fit, ctx);
    }
  }

  lemma EffectiveFits(len: nat, n: nat, ctx: nat, skip: nat)
    requires ctx > 0
    ensures var e := Effective(len, n, ctx, skip);
      && e <= n && (e > 0 ==> skip + Times(e, ctx) <= len)
      && (e < n ==> len < skip + Times(e + 1, ctx))
  {
    var fit := FitBounds(len, ctx, skip);
    if fit >= 0 {
      TimesGrows(Effective(len, n, ctx, skip), fit, ctx);
    }
  }

  /** As many of `n` spans as the stream holds. */
  function TiledSpans<T>(ids: seq<T>, n: nat, ctx: nat, skip: nat): (seq<seq<T>>, nat)
    requires ctx > 0
  {
    EffectiveFits(|ids|, n, ctx, skip);
    var e := Effective(|ids|, n, ctx, skip);
    (if e == 0 then [] else Slices(ids, e, ctx, skip), e)
  }

  /** The adapting form equals the refusing one whenever that does not refuse, and otherwise returns
      the largest number of spans that it would not have refused. */
  lemma TiledAgreesAndIsMaximal<T>(ids: seq<T>, n: nat, ctx: nat, skip: nat)
    requires ctx > 0
    ensures var (spans, e) := TiledSpans(ids, n, ctx, skip);
      && |spans| == e <= n
      && (Spans(ids, n, ctx, skip).Some? ==> e == n && Spans(ids, n, ctx, skip) == Some(spans))
      && (e > 0 ==> Spans(ids, e, ctx, skip) == Some(spans))
      && forall more :: e < more <= n ==> Spans(ids, more, ctx, skip).None?
  {
    EffectiveFits(|ids|, n, ctx, skip);
    var e := Effective(|ids|, n, ctx, skip);
    forall more | e < more <= n ensures Spans(ids, more, ctx, skip).None? {
      TimesGrows(e + 1, more, ctx);
    }
  }

  /** Span `i` is what stands `i` lengths after `skip`. */
  lemma {:induction false} SliceAt<T>(ids: seq<T>, n: nat, ctx: nat, from: nat, i: nat)
    requires from + Times(n, ctx) <= |ids| && i < n
    ensures 0 <= from + i * ctx <= from + (i + 1) * ctx <= |ids|
    ensures Slices(ids, n, ctx, from)[i] == ids[from + i * ctx..from + (i + 1) * ctx]
  {
    TimesGrows(n - 1, n, ctx);
    if i < n - 1 {
      SliceAt(ids, n - 1, ctx, from, i);
    } else {
      TimesIsProduct(i, ctx);
      TimesIsProduct(i + 1, ctx);
    }
  }

  /** Spans `n` lengths from `skip`, or a refusal when the stream is shorter. */
  lemma SpansSpelledOut<T>(ids: seq<T>, n: nat, ctx: nat, skip: nat)
    ensures Spans(ids, n, ctx, skip).Some? <==> skip + n * ctx <= |ids|
    ensures Spans(ids, n, ctx, skip).Some? ==>
      && |Spans(ids, n, ctx, skip).value| == n
      && forall i :: 0 <= i < n ==> StandsAt(Spans(ids, n, ctx, skip).value[i], ids, ctx, skip, i)
  {
    TimesIsProduct(n, ctx);
    if Spans(ids, n, ctx, skip).Some? {
      forall i | 0 <= i < n ensures StandsAt(Spans(ids, n, ctx, skip).value[i], ids, ctx, skip, i) {
        SliceAt(ids, n, ctx, skip, i);
      }
    }
  }

  ghost predicate StandsAt<T>(span: seq<T>, ids: seq<T>, ctx: nat, skip: nat, i: nat) {
    && 0 <= skip + i * ctx <= skip + (i + 1) * ctx <= |ids|
    && span == ids[skip + i * ctx..skip + (i + 1) * ctx]
  }

  // ----- spans of several lengths

  /** How many spans of `ctx`, `gap` apart, fit from `pos` on. */
  function Fit(len: nat, pos: nat, ctx: nat, gap: nat): nat
    requires ctx > 0
  {
    if pos + ctx > len then 0 else (len - pos - ctx) / (ctx + gap) + 1
  }

  /** Where span `j` of a region from `pos` starts. */
  function SpanStart(pos: nat, ctx: nat, gap: nat, j: nat): nat {
    pos + Times(j, ctx + gap)
  }

  /** Where the region of length number `i` starts: after everything the lengths before it cut. */
  function StartOf(len: nat, contexts: seq<nat>, i: nat, skip: nat, gap: nat): nat
    requires i <= |contexts| && forall k :: 0 <= k < |contexts| ==> contexts[k] > 0
  {
    if i == 0 then skip
    else
      var pos := StartOf(len, contexts, i - 1, skip, gap);
      SpanStart(pos, contexts[i - 1], gap, Fit(len, pos, contexts[i - 1], gap))
  }

  /** The count is exact: those spans fit and one more would not. */
  lemma FitIsExact(len: nat, pos: nat, ctx: nat, gap: nat, j: nat)
    requires ctx > 0
    ensures j < Fit(len, pos, ctx, gap) <==> SpanStart(pos, ctx, gap, j) + ctx <= len
  {
    if pos + ctx <= len {
      var (room, step) := (len - pos - ctx, ctx + gap);
      TimesIsProduct(j, step);
      QuotientBounds(room, step, j);
    }
  }

  lemma QuotientBounds(a: nat, b: nat, j: nat)
    requires b > 0
    ensures j * b <= a <==> j <= a / b
  {
    var q := a / b;
    assert a == q * b + a % b;
    if j <= q {
      assert (q - j) * b >= 0;
      assert j * b + (q - j) * b == q * b;
    } else {
      assert (j - q - 1) * b >= 0;
      assert j * b == q * b + b + (j - q - 1) * b;
    }
  }

  /** The region from `pos` holds every span of its length that fits, each what stands in the stream at
      its place. */
  ghost predicate RegionFrom<T>(region: seq<seq<T>>, ids: seq<T>, ctx: nat, gap: nat, pos: nat)
    requires ctx > 0
  {
    && |region| == Fit(|ids|, pos, ctx, gap)
    && forall j :: 0 <= j < |region| ==> SpanAt(region[j], ids, SpanStart(pos, ctx, gap, j), ctx)
  }

  ghost predicate SpanAt<T>(span: seq<T>, ids: seq<T>, start: nat, ctx: nat) {
    start + ctx <= |ids| && span == ids[start..start + ctx]
  }

  /** One region: every span of this length that still fits, from `pos0` on. */
  method Region<T>(ids: seq<T>, ctx: nat, gap: nat, pos0: nat) returns (region: seq<seq<T>>, pos: nat)
    requires ctx > 0
    ensures RegionFrom(region, ids, ctx, gap, pos0)
    ensures pos == SpanStart(pos0, ctx, gap, Fit(|ids|, pos0, ctx, gap))
  {
    region, pos := [], pos0;
    while pos + ctx <= |ids|
      invariant pos == SpanStart(pos0, ctx, gap, |region|)
      invariant forall j :: 0 <= j < |region| ==> SpanAt(region[j], ids, SpanStart(pos0, ctx, gap, j), ctx)
      invariant |region| <= Fit(|ids|, pos0, ctx, gap)
      decreases |ids| - pos
    {
      FitIsExact(|ids|, pos0, ctx, gap, |region|);
      region := region + [ids[pos..pos + ctx]];
      pos := pos + ctx + gap;
    }
    FitIsExact(|ids|, pos0, ctx, gap, |region|);
  }

  /** Where a region's spans stand, in numbers: one every length and gap from its start, as long as they
      fit. */
  lemma RegionSpelledOut<T>(region: seq<seq<T>>, ids: seq<T>, ctx: nat, gap: nat, pos: nat)
    requires ctx > 0 && RegionFrom(region, ids, ctx, gap, pos)
    ensures pos + |region| * (ctx + gap) + ctx > |ids|
    ensures forall j :: 0 <= j < |region| ==> SpanAt(region[j], ids, pos + j * (ctx + gap), ctx)
  {
    FitIsExact(|ids|, pos, ctx, gap, |region|);
    TimesIsProduct(|region|, ctx + gap);
    forall j | 0 <= j < |region| ensures SpanAt(region[j], ids, pos + j * (ctx + gap), ctx) {
      TimesIsProduct(j, ctx + gap);
    }
  }

  /** Length number `i` is not named again later. */
  ghost predicate NamedLast(contexts: seq<nat>, i: nat) {
    i < |contexts| && forall k :: i < k < |contexts| ==> contexts[k] != contexts[i]
  }

  /** What each length named among the first `i` holds: the region of its last occurrence. */
  ghost predicate Regions<T>(out: map<nat, seq<seq<T>>>, ids: seq<T>, contexts: seq<nat>, skip: nat, gap: nat, i: nat)
    requires forall k :: 0 <= k < |contexts| ==> contexts[k] > 0
  {
    && i <= |contexts|
    && (forall c :: c in out <==> c in contexts[..i])
    && forall k :: 0 <= k < i && NamedLast(contexts[..i], k) ==>
      RegionOf(out, ids, contexts, skip, gap, k)
  }

  ghost predicate RegionOf<T>(out: map<nat, seq<seq<T>>>, ids: seq<T>, contexts: seq<nat>, skip: nat, gap: nat, k: nat)
    requires k < |contexts| && forall k :: 0 <= k < |contexts| ==> contexts[k] > 0
  {
    contexts[k] in out
    && RegionFrom(out[contexts[k]], ids, contexts[k], gap, StartOf(|ids|, contexts, k, skip, gap))
  }

  lemma RegionsNext<T>(out: map<nat, seq<seq<T>>>, ids: seq<T>, contexts: seq<nat>, skip: nat, gap: nat, i: nat,
                       region: seq<seq<T>>)
    requires forall k :: 0 <= k < |contexts| ==> contexts[k] > 0
    requires i < |contexts| && Regions(out, ids, contexts, skip, gap, i)
    requires RegionFrom(region, ids, contexts[i], gap, StartOf(|ids|, contexts, i, skip, gap))
    ensures Regions(out[contexts[i] := region], ids, contexts, skip, gap, i + 1)
  {
    var next := out[contexts[i] := region];
    assert contexts[..i + 1] == contexts[..i] + [contexts[i]];
    forall k | 0 <= k < i + 1 && NamedLast(contexts[..i + 1], k)
      ensures RegionOf(next, ids, contexts, skip, gap, k)
    {
      if k < i {
        assert contexts[..i + 1][i] != contexts[..i + 1][k];
        assert forall h :: k < h < i ==> contexts[..i][h] == contexts[..i + 1][h];
        assert NamedLast(contexts[..i], k);
        assert RegionOf(out, ids, contexts, skip, gap, k);
      }
    }
  }

  /** Every length holds exactly the spans that fit from where the lengths before it left off; a length
      named twice holds what its last turn cut. */
  method LongDocSpans<T>(ids: seq<T>, contexts: seq<nat>, skip: nat, gap: nat) returns (out: map<nat, seq<seq<T>>>)
    requires forall k :: 0 <= k < |contexts| ==> contexts[k] > 0
    ensures Regions(out, ids, contexts, skip, gap, |contexts|)
  {
    out := map[];
    var pos := skip;
    for i := 0 to |contexts|
      invariant pos == StartOf(|ids|, contexts, i, skip, gap)
      invariant Regions(out, ids, contexts, skip, gap, i)
    {
      var region;
      region, pos := Region(ids, contexts[i], gap, pos);
      RegionsNext(out, ids, contexts, skip, gap, i, region);
      out := out[contexts[i] := region];
    }
  }

  /** What a length holds, in numbers: its spans stand one every length and gap, as long as they fit, from
      where the turn before it came to a stop. */
  lemma LengthSpelledOut<T>(out: map<nat, seq<seq<T>>>, ids: seq<T>, contexts: seq<nat>, skip: nat, gap: nat,
                            i: nat, pos: nat)
    requires forall k :: 0 <= k < |contexts| ==> contexts[k] > 0
    requires Regions(out, ids, contexts, skip, gap, |contexts|) && NamedLast(contexts, i)
    requires pos == StartOf(|ids|, contexts, i, skip, gap)
    ensures i == 0 ==> pos == skip
    ensures contexts[i] in out
    ensures var (c, spans) := (contexts[i], out[contexts[i]]);
      && pos + |spans| * (c + gap) + c > |ids|
      && (forall j :: 0 <= j < |spans| ==> SpanAt(spans[j], ids, pos + j * (c + gap), c))
      && StartOf(|ids|, contexts, i + 1, skip, gap) == pos + |spans| * (c + gap)
  {
    assert contexts[..|contexts|] == contexts;
    assert RegionOf(out, ids, contexts, skip, gap, i);
    RegionSpelledOut(out[contexts[i]], ids, contexts[i], gap, pos);
    TimesIsProduct(|out[contexts[i]]|, contexts[i] + gap);
  }

  /** A length gets no span exactly when none fits after what the lengths before it cut. */
  lemma EmptyIff<T>(out: map<nat, seq<seq<T>>>, ids: seq<T>, contexts: seq<nat>, skip: nat, gap: nat, i: nat)
    requires forall k :: 0 <= k < |contexts| ==> contexts[k] > 0
    requires Regions(out, ids, contexts, skip, gap, |contexts|) && NamedLast(contexts, i)
    ensures contexts[i] in out
    ensures out[contexts[i]] == [] <==> StartOf(|ids|, contexts, i, skip, gap) + contexts[i] > |ids|
  {
    assert contexts[..|contexts|] == contexts;
    assert RegionOf(out, ids, contexts, skip, gap, i);
  }

  /** Each turn leaves less than its own length, and later turns leave no more. */
  lemma {:induction false} TurnsEat(len: nat, contexts: seq<nat>, skip: nat, gap: nat, i: nat, k: nat)
    requires forall h :: 0 <= h < |contexts| ==> contexts[h] > 0
    requires i < k <= |contexts|
    ensures StartOf(len, contexts, k, skip, gap) + contexts[i] > len
    ensures StartOf(len, contexts, k, skip, gap) >= StartOf(len, contexts, i + 1, skip, gap)
    decreases k
  {
    var pos := StartOf(len, contexts, k - 1, skip, gap);
    var n := Fit(len, pos, contexts[k - 1], gap);
    FitIsExact(len, pos, contexts[k - 1], gap, n);
    if i < k - 1 {
      TurnsEat(len, contexts, skip, gap, i, k - 1);
    }
  }

  /** A length that is at least some earlier one ends with no span; so does one that is named twice. */
  lemma LaterLongerStarves<T>(out: map<nat, seq<seq<T>>>, ids: seq<T>, contexts: seq<nat>, skip: nat, gap: nat,
                              i: nat, k: nat)
    requires forall h :: 0 <= h < |contexts| ==> contexts[h] > 0
    requires Regions(out, ids, contexts, skip, gap, |contexts|) && NamedLast(contexts, k)
    requires i < k && contexts[i] <= contexts[k]
    ensures contexts[k] in out && out[contexts[k]] == []
  {
    EmptyIff(out, ids, contexts, skip, gap, k);
    TurnsEat(|ids|, contexts, skip, gap, i, k);
  }

  /** For nondecreasing lengths every region but the first is empty. */
  lemma NondecreasingStarves<T>(out: map<nat, seq<seq<T>>>, ids: seq<T>, contexts: seq<nat>, skip: nat, gap: nat,
                                k: nat)
    requires forall h :: 0 <= h < |contexts| ==> contexts[h] > 0
    requires Regions(out, ids, contexts, skip, gap, |contexts|) && NamedLast(contexts, k)
    requires 0 < k && forall i, j :: 0 <= i < j < |contexts| ==> contexts[i] <= contexts[j]
    ensures contexts[k] in out && out[contexts[k]] == []
  {
    assert contexts[0] <= contexts[k];
    LaterLongerStarves(out, ids, contexts, skip, gap, 0, k);
  }

  /** A later span of a region starts after an earlier one ends. */
  lemma SpansApart(pos: nat, ctx: nat, gap: nat, j: nat, h: nat)
    requires j < h
    ensures pos <= SpanStart(pos, ctx, gap, j) && SpanStart(pos, ctx, gap, j) + ctx <= SpanStart(pos, ctx, gap, h)
  {
    TimesGrows(j + 1, h, ctx + gap);
  }

  /** Different spans of one length share no token. */
  lemma SameLengthDisjoint<T>(region: seq<seq<T>>, ids: seq<T>, ctx: nat, gap: nat, pos: nat, j: nat, h: nat)
    requires ctx > 0 && RegionFrom(region, ids, ctx, gap, pos) && j < h < |region|
    ensures var (x, y) := (SpanStart(pos, ctx, gap, j), SpanStart(pos, ctx, gap, h));
      SpanAt(region[j], ids, x, ctx) && SpanAt(region[h], ids, y, ctx) && x + ctx <= y
  {
    SpansApart(pos, ctx, gap, j, h);
  }

  /** Spans of different lengths share no token: those of a later turn start after those of an earlier one
      end. */
  lemma RegionsDisjoint<T>(out: map<nat, seq<seq<T>>>, ids: seq<T>, contexts: seq<nat>, skip: nat, gap: nat,
                           i: nat, j: nat, k: nat, h: nat)
    requires forall n :: 0 <= n < |contexts| ==> contexts[n] > 0
    requires Regions(out, ids, contexts, skip, gap, |contexts|)
    requires i < k && NamedLast(contexts, i) && NamedLast(contexts, k)
    requires contexts[i] in out && j < |out[contexts[i]]| && contexts[k] in out && h < |out[contexts[k]]|
    ensures var x := SpanStart(StartOf(|ids|, contexts, i, skip, gap), contexts[i], gap, j);
      var y := SpanStart(StartOf(|ids|, contexts, k, skip, gap), contexts[k], gap, h);
      && SpanAt(out[contexts[i]][j], ids, x, contexts[i]) && SpanAt(out[contexts[k]][h], ids, y, contexts[k])
      && x + contexts[i] <= y
  {
    assert contexts[..|contexts|] == contexts;
    assert RegionOf(out, ids, contexts, skip, gap, i) && RegionOf(out, ids, contexts, skip, gap, k);
    var pos := StartOf(|ids|, contexts, i, skip, gap);
    SpansApart(pos, contexts[i], gap, j, Fit(|ids|, pos, contexts[i], gap));
    TurnsEat(|ids|, contexts, skip, gap, i, k);
  }

  // ----- preparing the indexer corpus

  datatype Article<T> = Article(held: bool, tokens: seq<T>)

  /** Tokens of the articles of one split, in order. */
  function Stream<T>(articles: seq<Article<T>>, held: bool): seq<T> {
    if articles == [] then []
    else
      var last := articles[|articles| - 1];
      Stream(articles[..|articles| - 1], held) + if last.held == held then last.tokens else []
  }

  /** A stream takes the articles one after the other, each article's tokens if it is of that split. */
  lemma StreamIsOwn<T>(x: seq<Article<T>>, a: Article<T>, y: seq<Article<T>>, held: bool)
    ensures Stream(x + [a] + y, held) ==
      Stream(x, held) + (if a.held <==> held then a.tokens else []) + Stream(y, held)
  {
    StreamConcat(x + [a], y, held);
    assert (x + [a])[..|x|] == x;
  }

  /** What one length wants: its length and how many spans. */
  datatype Want = Want(ctx: nat, n: nat)

  /** Tokens the first `k` lengths want. */
  function Demand(wants: seq<Want>, k: nat): nat
    requires k <= |wants|
  {
    if k == 0 then 0 else Demand(wants, k - 1) + Times(wants[k - 1].n, wants[k - 1].ctx)
  }

  /** Tokens all of them want. */
  function Needed(wants: seq<Want>): nat { Demand(wants, |wants|) }

  /** As many spans as wanted, each of the wanted length. */
  ghost predicate AsWanted<T>(spans: seq<seq<T>>, w: Want) {
    |spans| == w.n && forall s :: s in spans ==> |s| == w.ctx
  }

  ghost predicate Counted<T>(all: seq<seq<seq<T>>>, wants: seq<Want>) {
    |all| <= |wants| && forall i :: 0 <= i < |all| ==> AsWanted(all[i], wants[i])
  }

  lemma CountedSnoc<T>(all: seq<seq<seq<T>>>, wants: seq<Want>, spans: seq<seq<T>>)
    requires Counted(all, wants) && |all| < |wants| && AsWanted(spans, wants[|all|])
    ensures Counted(all + [spans], wants)
  {
  }

  lemma Abut<T>(s: seq<T>, i: nat, j: nat, k: nat)
    requires i <= j <= k <= |s|
    ensures s[i..j] + s[j..k] == s[i..k]
  {
  }

  /** Every length got what it wants, and end to end they are the stream from `skip` to `pos`. */
  ghost predicate Delivered<T>(all: seq<seq<seq<T>>>, wants: seq<Want>, stream: seq<T>, skip: nat, pos: nat) {
    && Counted(all, wants)
    && skip <= pos <= |stream| && Flatten(Flatten(all)) == stream[skip..pos]
  }

  lemma FlattenTwice<T>(all: seq<seq<seq<T>>>, spans: seq<seq<T>>)
    ensures Flatten(Flatten(all + [spans])) == Flatten(Flatten(all)) + Flatten(spans)
  {
    assert (all + [spans])[..|all|] == all;
    FlattenConcat(Flatten(all), spans);
  }

  lemma DeliveredSnoc<T>(all: seq<seq<seq<T>>>, wants: seq<Want>, stream: seq<T>, skip: nat, pos: nat,
                         spans: seq<seq<T>>, next: nat)
    requires Delivered(all, wants, stream, skip, pos) && |all| < |wants|
    requires Stretch(spans, wants[|all|].ctx, stream, pos, next) && |spans| == wants[|all|].n
    ensures Delivered(all + [spans], wants, stream, skip, next)
  {
    FlattenTwice(all, spans);
    CountedSnoc(all, wants, spans);
    Abut(stream, skip, pos, next);
  }

  /** The spans of one split, length after length; refused when a length comes up short. */
  method CutSplit<T>(stream: seq<T>, skip: nat, wants: seq<Want>) returns (cut: Option<seq<seq<seq<T>>>>)
    requires wants != [] && forall w :: w in wants ==> w.ctx > 0 && w.n > 0
    ensures cut.Some? <==> skip + Needed(wants) <= |stream|
    ensures cut.Some? ==> |cut.value| == |wants| && Delivered(cut.value, wants, stream, skip, skip + Needed(wants))
  {
    var pos, all := skip, [];
    for i := 0 to |wants|
      invariant |all| == i && pos == skip + Demand(wants, i)
      invariant i > 0 ==> pos <= |stream|
      invariant if skip <= |stream| then Delivered(all, wants, stream, skip, pos) else all == []
    {
      DemandGrows(wants, i + 1);
      assert wants[i] in wants;
      var spans, next := CutLength(stream, pos, wants[i]);
      if |spans| < wants[i].n {
        return None;
      }
      DeliveredSnoc(all, wants, stream, skip, pos, spans, next);
      all := all + [spans];
      pos := next;
    }
    cut := Some(all);
  }

  method CutLength<T>(stream: seq<T>, pos0: nat, w: Want) returns (spans: seq<seq<T>>, pos: nat)
    requires w.ctx > 0 && w.n > 0
    ensures |spans| <= w.n && (|spans| == w.n <==> pos0 + Times(w.n, w.ctx) <= |stream|)
    ensures |spans| == w.n ==> pos == pos0 + Times(w.n, w.ctx) && Stretch(spans, w.ctx, stream, pos0, pos)
  {
    spans, pos := [], pos0;
    while |spans| < w.n && pos + w.ctx <= |stream|
      invariant |spans| <= w.n && pos == pos0 + Times(|spans|, w.ctx)
      invariant pos <= |stream| || (spans == [] && pos0 > |stream|)
      invariant pos0 <= |stream| ==> Stretch(spans, w.ctx, stream, pos0, pos)
      decreases w.n - |spans|
    {
      StretchSnoc(spans, w.ctx, stream, pos0, pos);
      spans := spans + [stream[pos..pos + w.ctx]];
      pos := pos + w.ctx;
    }
    if |spans| < w.n {
      TimesGrows(|spans| + 1, w.n, w.ctx);
    }
  }

  lemma {:induction false} DemandGrows(wants: seq<Want>, i: nat)
    requires i <= |wants|
    ensures Demand(wants, i) <= Needed(wants)
    decreases |wants| - i
  {
    if i < |wants| { DemandGrows(wants, i + 1); }
  }

  lemma {:induction false} FlattenConcat<T>(x: seq<seq<T>>, y: seq<seq<T>>)
    ensures Flatten(x + y) == Flatten(x) + Flatten(y)
  {
    if y == [] {
      assert x + y == x;
    } else {
      var n := |y| - 1;
      FlattenConcat(x, y[..n]);
      assert (x + y)[..|x + y| - 1] == x + y[..n];
    }
  }

  /** Articles of the first `f` files. */
  function Articles<T>(files: seq<seq<Article<T>>>, f: nat): seq<Article<T>>
    requires f <= |files|
  {
    Flatten(files[..f])
  }

  /** Every article of one file goes to its own split's stream. */
  method ReadFile<T>(file: seq<Article<T>>, held0: seq<T>, train0: seq<T>, ghost before: seq<Article<T>>)
    returns (held: seq<T>, train: seq<T>)
    requires held0 == Stream(before, true) && train0 == Stream(before, false)
    ensures held == Stream(before + file, true) && train == Stream(before + file, false)
  {
    held, train := held0, train0;
    assert before + file[..0] == before;
    for i := 0 to |file|
      invariant held == Stream(before + file[..i], true) && train == Stream(before + file[..i], false)
    {
      assert (before + file[..i + 1])[..|before| + i] == before + file[..i];
      if file[i].held {
        held := held + file[i].tokens;
      } else {
        train := train + file[i].tokens;
      }
    }
    assert file[..|file|] == file;
  }

  /** Reads files until both streams are long enough; refused when the corpus runs out. */
  method Gather<T>(files: seq<seq<Article<T>>>, needHeld: nat, needTrain: nat)
    returns (streams: Option<(seq<T>, seq<T>)>, f: nat)
    requires needHeld > 0 && needTrain > 0
    ensures f <= |files|
    ensures streams.Some? ==> streams.value == (Stream(Articles(files, f), true), Stream(Articles(files, f), false))
    ensures streams.Some? ==> |streams.value.0| >= needHeld && |streams.value.1| >= needTrain
    ensures streams.Some? ==> f > 0
    ensures streams.Some? ==>
      |Stream(Articles(files, f - 1), true)| < needHeld || |Stream(Articles(files, f - 1), false)| < needTrain
    ensures streams.Some? <==>
      |Stream(Articles(files, |files|), true)| >= needHeld && |Stream(Articles(files, |files|), false)| >= needTrain
  {
    var held: seq<T>, train: seq<T> := [], [];
    f := 0;
    while f < |files|
      invariant f <= |files| && held == Stream(Articles(files, f), true) && train == Stream(Articles(files, f), false)
      invariant |held| < needHeld || |train| < needTrain
      decreases |files| - f
    {
      assert files[..f + 1] == files[..f] + [files[f]];
      FlattenSnoc(files[..f], files[f]);
      held, train := ReadFile(files[f], held, train, Articles(files, f));
      f := f + 1;
      StreamGrows(files, f, true);
      StreamGrows(files, f, false);
      if |held| >= needHeld && |train| >= needTrain {
        return Some((held, train)), f;
      }
    }
    return None, f;
  }

  lemma {:induction false} StreamGrows<T>(files: seq<seq<Article<T>>>, f: nat, held: bool)
    requires f <= |files|
    ensures |Stream(Articles(files, f), held)| <= |Stream(Articles(files, |files|), held)|
    decreases |files| - f
  {
    if f < |files| {
      StreamGrows(files, f + 1, held);
      assert files[..f + 1][..f] == files[..f];
      StreamConcat(Articles(files, f), files[f], held);
    }
  }

  lemma {:induction false} StreamConcat<T>(x: seq<Article<T>>, y: seq<Article<T>>, held: bool)
    ensures Stream(x + y, held) == Stream(x, held) + Stream(y, held)
  {
    if y == [] {
      assert x + y == x;
    } else {
      var n := |y| - 1;
      StreamConcat(x, y[..n], held);
      assert (x + y)[..|x + y| - 1] == x + y[..n];
    }
  }

  datatype Prepared<T> = NotEnough | OnlyNSpans | Written(held: seq<seq<seq<T>>>, train: seq<seq<seq<T>>>)

  /** The whole preparation. Running short of spans is impossible once the streams were found long
      enough; the spans of each split, end to end, are its stream from the skip to exactly its demand. */
  method Prepare<T>(files: seq<seq<Article<T>>>, skip: nat, heldWants: seq<Want>, trainWants: seq<Want>)
    returns (p: Prepared<T>, f: nat)
    requires heldWants != [] && trainWants != []
    requires forall w :: w in heldWants || w in trainWants ==> w.ctx > 0 && w.n > 0
    ensures f <= |files| && !p.OnlyNSpans?
    ensures p.Written? <==>
      && |Stream(Articles(files, |files|), true)| >= skip + Needed(heldWants)
      && |Stream(Articles(files, |files|), false)| >= skip + Needed(trainWants)
    ensures p.Written? ==>
      && Delivered(p.held, heldWants, Stream(Articles(files, f), true), skip, skip + Needed(heldWants))
      && Delivered(p.train, trainWants, Stream(Articles(files, f), false), skip, skip + Needed(trainWants))
  {
    DemandPositive(heldWants);
    DemandPositive(trainWants);
    var streams;
    streams, f := Gather(files, skip + Needed(heldWants), skip + Needed(trainWants));
    if streams.None? {
      return NotEnough, f;
    }
    var held := CutSplit(streams.value.0, skip, heldWants);
    if held.None? {
      return OnlyNSpans, f;
    }
    var train := CutSplit(streams.value.1, skip, trainWants);
    if train.None? {
      return OnlyNSpans, f;
    }
    return Written(held.value, train.value), f;
  }

  const SKIP: nat := 512
  const HELD_WANTS: seq<Want> := [Want(8192, 32), Want(16384, 16), Want(32768, 8)]
  const TRAIN_WANTS: seq<Want> := [Want(8192, 160), Want(16384, 80), Want(32768, 40)]

  /** What the two splits ask of their streams: every length the same share, 4.7 million tokens in all. */
  lemma ConfiguredDemand()
    ensures SKIP + Needed(HELD_WANTS) == 512 + 3 * 262144 && SKIP + Needed(TRAIN_WANTS) == 512 + 3 * 1310720
  {
    TimesIsProduct(32, 8192);
    TimesIsProduct(16, 16384);
    TimesIsProduct(8, 32768);
    ThreeWants(HELD_WANTS);
    TimesIsProduct(160, 8192);
    TimesIsProduct(80, 16384);
    TimesIsProduct(40, 32768);
    ThreeWants(TRAIN_WANTS);
  }

  lemma ThreeWants(w: seq<Want>)
    requires |w| == 3
    ensures Needed(w) == Times(w[0].n, w[0].ctx) + Times(w[1].n, w[1].ctx) + Times(w[2].n, w[2].ctx)
  {
    assert Demand(w, 1) == Times(w[0].n, w[0].ctx);
    assert Demand(w, 2) == Demand(w, 1) + Times(w[1].n, w[1].ctx);
  }

  lemma DemandPositive(wants: seq<Want>)
    requires wants != [] && forall w :: w in wants ==> w.ctx > 0 && w.n > 0
    ensures Needed(wants) > 0
  {
    var w := wants[|wants| - 1];
    assert w in wants;
  }
}
