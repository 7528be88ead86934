/** One `fresh()` serving session: a KV pool addressed by position, one recurrent state per
    gated-delta layer, and its conv window kept in two planes selected by a parity bit. The
    forward works in place and layer by layer; its contract is token-by-token absorption. */
module Session {
  import opened Prelude
  import opened Decoding
  import opened Trunk

  const BLOCK_TOKENS: nat := 16

  /** Token capacity of the pool sized for a prompt, a generation length and a draft length. */
  function Capacity(prompt: nat, gen: nat, chunk: nat): (r: nat)
    ensures r >= prompt + gen + chunk + 64
  {
    (CeilDiv(prompt + gen + chunk + 64, BLOCK_TOKENS) + 2) * BLOCK_TOKENS
  }

  /** The layer-major run of the layers from `i` on, one layer peeled off. */
  lemma PeelLayer<S, W, C, H>(layers: seq<Layer<S, W, C, H>>, sts: Stack<S, W, C>, hs: seq<H>, i: nat,
                              full: Stack<S, W, C>, outs: seq<H>)
    requires Fits(layers, sts) && i < |layers| == |full|
    requires (full[i..], outs) == LayerMajor(layers[i..], sts[i..], hs)
    ensures var (st, hs1) := LayerRun(layers[i], sts[i], hs);
            full[i] == st && (full[i + 1..], outs) == LayerMajor(layers[i + 1..], sts[i + 1..], hs1)
  {
    assert layers[i..][0] == layers[i] && layers[i..][1..] == layers[i + 1..];
    assert sts[i..][0] == sts[i] && sts[i..][1..] == sts[i + 1..];
    var (st, hs1) := LayerRun(layers[i], sts[i], hs);
    var (rest, outs') := LayerMajor(layers[i + 1..], sts[i + 1..], hs1);
    assert full[i..] == [st] + rest;
    assert full[i] == full[i..][0];
    assert full[i + 1..] == full[i..][1..];
  }

  class Session<S(!new), W(!new), C(0,!new), H> {
    const t: Model<S, W, C, H>
    ghost const step: Step<Stack<S, W, C>>
    const fused: bool          // the one-launch decode kernel is available
    const kv: array2<C>        // [layer, position]
    const states: array<S>     // [layer]
    const planes: array2<W>    // [layer, plane]
    var parity: nat            // the live plane

    ghost predicate Valid()
      reads this
    {
      && Simulates(step, t)
      && kv.Length0 == states.Length == planes.Length0 == |t.layers|
      && planes.Length1 == 2 && parity < 2
      && kv as object != planes as object
    }

    function Row(i: nat, n: nat): (r: seq<C>)
      requires i < kv.Length0 && n <= kv.Length1
      reads kv
      ensures |r| == n
    {
      seq(n, p requires 0 <= p < n && i < kv.Length0 && n <= kv.Length1 reads kv => kv[i, p])
    }

    /** Layer `i` after absorbing `pos` tokens, its window read from plane `q`. */
    ghost function LayerView(i: nat, pos: nat, q: nat): (r: LayerState<S, W, C>)
      requires Valid() && i < |t.layers| && pos <= kv.Length1 && q < 2
      reads this, kv, states, planes
      ensures r.Cells? == t.layers[i].Attn?
    {
      if t.layers[i].Attn? then Cells(Row(i, pos)) else Rec(states[i], planes[i, q])
    }

    /** The logical stack after absorbing `pos` tokens: cells at or above `pos` are not part of it,
        nor is the plane the parity does not select. */
    ghost function View(pos: nat): (r: Stack<S, W, C>)
      requires Valid() && pos <= kv.Length1
      reads this, kv, states, planes
      ensures Fits(t.layers, r)
    {
      seq(|t.layers|, i requires 0 <= i < |t.layers| && Valid() && pos <= kv.Length1
        reads this, kv, states, planes => LayerView(i, pos, parity))
    }

    constructor (t: Model<S, W, C, H>, ghost step: Step<Stack<S, W, C>>, fused: bool, capacity: nat)
      requires Simulates(step, t)
      ensures Valid() && this.t == t && this.step == step && this.fused == fused && kv.Length1 == capacity
      ensures View(0) == Fresh(t)
      ensures fresh(kv) && fresh(states) && fresh(planes)
    {
      this.t, this.step, this.fused := t, step, fused;
      kv := new C[|t.layers|, capacity];
      states := new S[|t.layers|](_ => t.zeroState);
      planes := new W[|t.layers|, 2]((_, _) => t.zeroWindow);
      parity := 0;
    }

    /** Full attention over a chunk: every cell of the chunk is written before any query reads,
        and query `k` reads the cells up to its own. */
    method AttnLayer(i: nat, hs: seq<H>, pos: nat) returns (out: seq<H>)
      requires Valid() && i < |t.layers| && t.layers[i].Attn? && pos + |hs| <= kv.Length1
      modifies kv
      ensures (Cells(Row(i, pos + |hs|)), out) == LayerRun(t.layers[i], Cells(old(Row(i, pos))), hs)
      ensures |out| == |hs| && forall k :: 0 <= k < |hs| ==>
        && kv[i, pos + k] == t.layers[i].cell(hs[k], pos + k)
        && out[k] == t.layers[i].attend(hs[k], Row(i, pos + k + 1))
      ensures forall j, p :: 0 <= j < kv.Length0 && 0 <= p < kv.Length1 && (j != i || p < pos || pos + |hs| <= p)
                ==> kv[j, p] == old(kv[j, p])
    {
      for k := 0 to |hs|
        invariant forall j, p :: 0 <= j < kv.Length0 && 0 <= p < kv.Length1 && (j != i || p < pos || pos + k <= p)
                    ==> kv[j, p] == old(kv[j, p])
        invariant forall p :: pos <= p < pos + k ==> kv[i, p] == t.layers[i].cell(hs[p - pos], p)
      {
        kv[i, pos + k] := t.layers[i].cell(hs[k], pos + k);
      }
      out := [];
      assert Row(i, pos) == old(Row(i, pos));
      for k := 0 to |hs|
        invariant (Cells(Row(i, pos + k)), out) == LayerRun(t.layers[i], Cells(old(Row(i, pos))), hs[..k])
        invariant |out| == k
        invariant forall j :: 0 <= j < k ==> out[j] == t.layers[i].attend(hs[j], Row(i, pos + j + 1))
      {
        assert hs[..k + 1][..k] == hs[..k];
        assert Row(i, pos + k + 1) == Row(i, pos + k) + [t.layers[i].cell(hs[k], pos + k)];
        out := out + [t.layers[i].attend(hs[k], Row(i, pos + k + 1))];
      }
      assert hs[..|hs|] == hs;
    }

    /** A gated-delta layer over a chunk: reads the live window plane, writes plane `dst`. `ss` and `ws`
        are the states and windows it runs through, one recurrence step per hidden state. */
    method GdnLayer(i: nat, hs: seq<H>, dst: nat) returns (out: seq<H>, ghost ss: seq<S>, ghost ws: seq<W>)
      requires Valid() && i < |t.layers| && t.layers[i].Gdn? && dst < 2
      modifies states, planes
      ensures (Rec(states[i], planes[i, dst]), out)
           == LayerRun(t.layers[i], Rec(old(states[i]), old(planes[i, parity])), hs)
      ensures |out| == |hs| && |ss| == |ws| == |hs| + 1
      ensures ss[0] == old(states[i]) && ws[0] == old(planes[i, parity])
      ensures forall k :: 0 <= k < |hs| ==> t.layers[i].step(ss[k], ws[k], hs[k]) == (ss[k + 1], ws[k + 1], out[k])
      ensures states[i] == ss[|hs|] && planes[i, dst] == ws[|hs|]
      ensures forall j :: 0 <= j < states.Length && j != i ==> states[j] == old(states[j])
      ensures forall j, q :: 0 <= j < planes.Length0 && 0 <= q < 2 && (j != i || q != dst)
                ==> planes[j, q] == old(planes[j, q])
    {
      var s, w := states[i], planes[i, parity];
      out, ss, ws := [], [s], [w];
      for k := 0 to |hs|
        invariant (Rec(s, w), out) == LayerRun(t.layers[i], Rec(old(states[i]), old(planes[i, parity])), hs[..k])
        invariant |out| == k && |ss| == |ws| == k + 1 && ss[k] == s && ws[k] == w
        invariant ss[0] == old(states[i]) && ws[0] == old(planes[i, parity])
        invariant forall j :: 0 <= j < k ==> t.layers[i].step(ss[j], ws[j], hs[j]) == (ss[j + 1], ws[j + 1], out[j])
      {
        assert hs[..k + 1][..k] == hs[..k];
        var (s', w', h) := t.layers[i].step(s, w, hs[k]);
        s, w, out := s', w', out + [h];
        ss, ws := ss + [s], ws + [w];
      }
      assert hs[..|hs|] == hs;
      states[i] := s;
      planes[i, dst] := w;
    }

    /** Layer `i` of a forward: its own view advances by the chunk, every other layer's is untouched. */
    method LayerForward(i: nat, hs: seq<H>, pos: nat, end: nat, dst: nat) returns (out: seq<H>)
      requires Valid() && i < |t.layers| && end == pos + |hs| <= kv.Length1 && dst < 2
      modifies kv, states, planes
      ensures (LayerView(i, end, dst), out) == LayerRun(t.layers[i], old(LayerView(i, pos, parity)), hs)
      ensures forall j :: 0 <= j < |t.layers| && j != i ==> LayerView(j, pos, parity) == old(LayerView(j, pos, parity))
      ensures forall j :: 0 <= j < |t.layers| && j != i ==> LayerView(j, end, dst) == old(LayerView(j, end, dst))
      ensures forall j, p :: 0 <= j < kv.Length0 && 0 <= p < kv.Length1 && (p < pos || end <= p)
                ==> kv[j, p] == old(kv[j, p])
    {
      if t.layers[i].Attn? {
        out := AttnLayer(i, hs, pos);
      } else {
        ghost var ss, ws;
        out, ss, ws := GdnLayer(i, hs, dst);
      }
      forall j | 0 <= j < |t.layers| && j != i
        ensures Row(j, pos) == old(Row(j, pos)) && Row(j, end) == old(Row(j, end)) {
      }
    }

    /** The layer loop of a forward over embedded hidden states. */
    method Layers(hs0: seq<H>, pos: nat, end: nat, dst: nat) returns (hs: seq<H>)
      requires Valid() && end == pos + |hs0| <= kv.Length1 && dst < 2
      modifies kv, states, planes
      ensures var full := LayerMajor(t.layers, old(View(pos)), hs0);
              hs == full.1 && forall j :: 0 <= j < |t.layers| ==> full.0[j] == LayerView(j, end, dst)
      ensures forall j, p :: 0 <= j < kv.Length0 && 0 <= p < kv.Length1 && (p < pos || end <= p)
                ==> kv[j, p] == old(kv[j, p])
    {
      ghost var sts0 := View(pos);
      ghost var full := LayerMajor(t.layers, sts0, hs0);
      hs := hs0;
      assert t.layers[0..] == t.layers && sts0[0..] == sts0 && full.0[0..] == full.0;
      for i := 0 to |t.layers|
        invariant |hs| == |hs0|
        invariant (full.0[i..], full.1) == LayerMajor(t.layers[i..], sts0[i..], hs)
        invariant forall j :: 0 <= j < i ==> full.0[j] == LayerView(j, end, dst)
        invariant forall j :: i <= j < |t.layers| ==> sts0[j] == LayerView(j, pos, parity)
        invariant forall j, p :: 0 <= j < kv.Length0 && 0 <= p < kv.Length1 && (p < pos || end <= p)
                    ==> kv[j, p] == old(kv[j, p])
      {
        PeelLayer(t.layers, sts0, hs, i, full.0, full.1);
        hs := LayerForward(i, hs, pos, end, dst);
      }
    }

    /** `trunk.forward` on `toks` at positions `pos ..`: layer by layer, in place. With the fused
        decode kernel a one-token tick writes the other window plane and flips the parity; a longer
        chunk rewrites the live plane. Each argmax is the head's on the last layer's output at its own
        position, and the states are those of the layer-major run over the embedded tokens. */
    method Run(toks: seq<Token>, pos: nat) returns (lg: seq<Token>)
      requires Valid() && pos + |toks| <= kv.Length1
      modifies this`parity, kv, states, planes
      ensures Valid()
      ensures var (sts, hs) := LayerMajor(t.layers, old(View(pos)), Map(t.embed, toks));
              && View(pos + |toks|) == sts && |lg| == |toks|
              && forall k :: 0 <= k < |toks| ==> lg[k] == t.head(hs[k])
      ensures forall j, p :: 0 <= j < kv.Length0 && 0 <= p < kv.Length1 && (p < pos || pos + |toks| <= p)
                ==> kv[j, p] == old(kv[j, p])
    {
      ghost var sts0 := View(pos);
      var oneLaunch := fused && |toks| == 1;
      var dst := if oneLaunch then 1 - parity else parity;
      var hs := Layers(Map(t.embed, toks), pos, pos + |toks|, dst);
      lg := Map(t.head, hs);
      if oneLaunch && exists j :: 0 <= j < |t.layers| && t.layers[j].Gdn? {
        parity := 1 - parity;
      }
      assert View(pos + |toks|) == LayerMajor(t.layers, sts0, Map(t.embed, toks)).0;
    }

    /** A forward absorbs `toks` one by one. */
    method Forward(toks: seq<Token>, pos: nat) returns (lg: seq<Token>)
      requires Valid() && pos + |toks| <= kv.Length1
      modifies this`parity, kv, states, planes
      ensures Valid()
      ensures (View(pos + |toks|), lg) == Feed(step, old(View(pos)), toks)
      ensures forall j, p :: 0 <= j < kv.Length0 && 0 <= p < kv.Length1 && (p < pos || pos + |toks| <= p)
                ==> kv[j, p] == old(kv[j, p])
    {
      ghost var sts0 := View(pos);
      lg := Run(toks, pos);
      assert lg == Map(t.head, LayerMajor(t.layers, sts0, Map(t.embed, toks)).1);
      ForwardIsFeed(step, t, sts0, toks);
    }

    /** `states.clone()` and `window_snapshot`: the states and the live window plane. */
    method Snapshot() returns (snapStates: seq<S>, snapWindow: seq<W>)
      requires Valid()
      ensures snapStates == states[..]
      ensures |snapWindow| == |t.layers| && forall i :: 0 <= i < |t.layers| ==> snapWindow[i] == planes[i, parity]
    {
      snapStates := states[..];
      snapWindow := seq(|t.layers|, i requires 0 <= i < |t.layers| && Valid() reads this, planes => planes[i, parity]);
    }

    /** `states.copy_` and `window_restore`: the window lands in plane 0, which becomes live. Cells
        below `pos` not having changed, the view is the one the snapshot was taken of. */
    method Restore(snapStates: seq<S>, snapWindow: seq<W>, pos: nat, ghost before: Stack<S, W, C>)
      requires Valid() && |snapStates| == |snapWindow| == |t.layers| && pos <= kv.Length1
      requires |before| == |t.layers|
      requires forall i :: 0 <= i < |t.layers| ==>
        before[i] == if t.layers[i].Attn? then Cells(Row(i, pos)) else Rec(snapStates[i], snapWindow[i])
      modifies this`parity, states, planes
      ensures Valid() && View(pos) == before
    {
      forall i | 0 <= i < |t.layers| {
        states[i] := snapStates[i];
      }
      forall i | 0 <= i < |t.layers| {
        planes[i, 0] := snapWindow[i];
      }
      parity := 0;
    }
  }
}
