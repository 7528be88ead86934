/** The hybrid trunk: a stack of layers, each either full attention over a growing
    row of KV cells or a gated-delta recurrence over a state and a conv window.
    A forward runs the stack layer by layer over a whole chunk of tokens; decoding
    runs the whole stack once per token. This module relates the two orders. */
module Trunk {
  import opened Decoding

  /** What one layer computes, left uninterpreted. `cell` is the K/V entry written for a
      hidden state at a position, `attend` the layer's output given that hidden state and
      every cell up to and including its own; `step` is the recurrence of a gated-delta layer. */
  datatype Layer<!S, !W, !C, !H> =
    | Attn(cell: (H, nat) -> C, attend: (H, seq<C>) -> H)
    | Gdn(step: (S, W, H) -> (S, W, H))

  datatype LayerState<S, W, C> = Cells(cs: seq<C>) | Rec(s: S, w: W)

  /** `head` is final norm, vocabulary projection and argmax. */
  datatype Model<!S, !W, !C, !H> = Model(
    layers: seq<Layer<S, W, C, H>>,
    embed: Token -> H,
    head: H -> Token,
    zeroState: S,
    zeroWindow: W)

  predicate Fits<S, W, C, H>(layers: seq<Layer<S, W, C, H>>, sts: seq<LayerState<S, W, C>>) {
    |sts| == |layers| && forall i :: 0 <= i < |layers| ==> layers[i].Attn? == sts[i].Cells?
  }

  // ----- one layer

  function LayerStep<S, W, C, H>(l: Layer<S, W, C, H>, st: LayerState<S, W, C>, h: H)
    : (r: (LayerState<S, W, C>, H))
    requires l.Attn? == st.Cells?
    ensures r.0.Cells? == st.Cells?
  {
    match l
    case Attn(cell, attend) =>
      var cs := st.cs + [cell(h, |st.cs|)];
      (Cells(cs), attend(h, cs))
    case Gdn(step) =>
      var (s, w, out) := step(st.s, st.w, h);
      (Rec(s, w), out)
  }

  /** One layer over a chunk, token after token. */
  function LayerRun<S, W, C, H>(l: Layer<S, W, C, H>, st: LayerState<S, W, C>, hs: seq<H>)
    : (r: (LayerState<S, W, C>, seq<H>))
    requires l.Attn? == st.Cells?
    ensures r.0.Cells? == st.Cells? && |r.1| == |hs|
  {
    if hs == [] then (st, []) else
      var (st1, outs) := LayerRun(l, st, hs[..|hs| - 1]);
      var (st2, out) := LayerStep(l, st1, hs[|hs| - 1]);
      (st2, outs + [out])
  }

  // ----- the whole stack

  /** One token through every layer. */
  function TokenStep<S, W, C, H>(layers: seq<Layer<S, W, C, H>>, sts: seq<LayerState<S, W, C>>, h: H)
    : (r: (seq<LayerState<S, W, C>>, H))
    requires Fits(layers, sts)
    ensures Fits(layers, r.0)
  {
    if layers == [] then (sts, h) else
      var (st, h1) := LayerStep(layers[0], sts[0], h);
      var (rest, h2) := TokenStep(layers[1..], sts[1..], h1);
      ([st] + rest, h2)
  }

  /** A chunk decoded token by token. */
  function TokenMajor<S, W, C, H>(layers: seq<Layer<S, W, C, H>>, sts: seq<LayerState<S, W, C>>, hs: seq<H>)
    : (r: (seq<LayerState<S, W, C>>, seq<H>))
    requires Fits(layers, sts)
    ensures Fits(layers, r.0) && |r.1| == |hs|
    decreases |hs|
  {
    if hs == [] then (sts, []) else
      var (sts1, outs) := TokenMajor(layers, sts, hs[..|hs| - 1]);
      var (sts2, out) := TokenStep(layers, sts1, hs[|hs| - 1]);
      (sts2, outs + [out])
  }

  /** A chunk forwarded layer by layer. */
  function LayerMajor<S, W, C, H>(layers: seq<Layer<S, W, C, H>>, sts: seq<LayerState<S, W, C>>, hs: seq<H>)
    : (r: (seq<LayerState<S, W, C>>, seq<H>))
    requires Fits(layers, sts)
    ensures Fits(layers, r.0) && |r.1| == |hs|
  {
    if layers == [] then (sts, hs) else
      var (st, hs1) := LayerRun(layers[0], sts[0], hs);
      var (rest, hs2) := LayerMajor(layers[1..], sts[1..], hs1);
      ([st] + rest, hs2)
  }

  /** Extending a layer-major chunk by one token is one token through the advanced stack. */
  lemma {:induction false} LayerMajorSnoc<S, W, C, H>(
    layers: seq<Layer<S, W, C, H>>, sts: seq<LayerState<S, W, C>>, hs: seq<H>, h: H)
    requires Fits(layers, sts)
    ensures var (sts1, outs) := LayerMajor(layers, sts, hs);
            var (sts2, out) := TokenStep(layers, sts1, h);
            LayerMajor(layers, sts, hs + [h]) == (sts2, outs + [out])
    decreases |layers|
  {
    if layers != [] {
      assert (hs + [h])[..|hs|] == hs;
      var (st, hs1) := LayerRun(layers[0], sts[0], hs);
      var (st2, h1) := LayerStep(layers[0], st, h);
      LayerMajorSnoc(layers[1..], sts[1..], hs1, h1);
      assert LayerRun(layers[0], sts[0], hs + [h]) == (st2, hs1 + [h1]);
      assert ([st] + LayerMajor(layers[1..], sts[1..], hs1).0)[1..] == LayerMajor(layers[1..], sts[1..], hs1).0;
    }
  }

  /** A multi-token forward computes what token-by-token decoding computes: same outputs at
      every position, same recurrent states, same KV cells. */
  lemma {:induction false} LayerMajorIsTokenMajor<S, W, C, H>(
    layers: seq<Layer<S, W, C, H>>, sts: seq<LayerState<S, W, C>>, hs: seq<H>)
    requires Fits(layers, sts)
    ensures LayerMajor(layers, sts, hs) == TokenMajor(layers, sts, hs)
    decreases |hs|
  {
    if hs == [] {
      LayerMajorEmpty(layers, sts);
    } else {
      var init := hs[..|hs| - 1];
      LayerMajorIsTokenMajor(layers, sts, init);
      LayerMajorSnoc(layers, sts, init, hs[|hs| - 1]);
      assert init + [hs[|hs| - 1]] == hs;
    }
  }

  lemma {:induction false} LayerMajorEmpty<S, W, C, H>(layers: seq<Layer<S, W, C, H>>, sts: seq<LayerState<S, W, C>>)
    requires Fits(layers, sts)
    ensures LayerMajor(layers, sts, []) == (sts, [])
    decreases |layers|
  {
    if layers != [] {
      LayerMajorEmpty(layers[1..], sts[1..]);
      assert [sts[0]] + sts[1..] == sts;
    }
  }

  lemma Bottom<S, W, C, H>(
    l: Layer<S, W, C, H>, upper: seq<Layer<S, W, C, H>>, st: LayerState<S, W, C>, usts: seq<LayerState<S, W, C>>, h: H)
    requires Fits(upper, usts) && l.Attn? == st.Cells?
    ensures Fits([l] + upper, [st] + usts)
    ensures var (st1, h1) := LayerStep(l, st, h);
            var (rest, out) := TokenStep(upper, usts, h1);
            TokenStep([l] + upper, [st] + usts, h) == ([st1] + rest, out)
  {
    assert ([l] + upper)[1..] == upper && ([st] + usts)[1..] == usts;
  }

  lemma Assoc<T>(x: T, y: seq<T>, z: seq<T>)
    ensures [x] + (y + z) == ([x] + y) + z
  {
  }

  /** The stack is walked from its first layer up: a token through two stacks, one on top of the other,
      is a token through the lower and its output through the upper. */
  lemma {:induction false} StackOnStack<S, W, C, H>(
    lower: seq<Layer<S, W, C, H>>, upper: seq<Layer<S, W, C, H>>,
    lsts: seq<LayerState<S, W, C>>, usts: seq<LayerState<S, W, C>>, h: H)
    requires Fits(lower, lsts) && Fits(upper, usts)
    ensures Fits(lower + upper, lsts + usts)
    ensures var (l, mid) := TokenStep(lower, lsts, h);
            var (u, out) := TokenStep(upper, usts, mid);
            TokenStep(lower + upper, lsts + usts, h) == (l + u, out)
    decreases |lower|
  {
    if lower == [] {
      assert lower + upper == upper && lsts + usts == usts;
      assert [] + TokenStep(upper, usts, h).0 == TokenStep(upper, usts, h).0;
    } else {
      var (low, lows, st, sts) := (lower[0], lower[1..], lsts[0], lsts[1..]);
      assert lower == [low] + lows && lsts == [st] + sts;
      var (st1, h1) := LayerStep(low, st, h);
      StackOnStack(lows, upper, sts, usts, h1);
      Bottom(low, lows, st, sts, h);
      Bottom(low, lows + upper, st, sts + usts, h);
      Assoc(low, lows, upper);
      Assoc(st, sts, usts);
      var (l, mid) := TokenStep(lows, sts, h1);
      Assoc(st1, l, TokenStep(upper, usts, mid).0);
    }
  }

  // ----- tokens in, argmaxes out

  type Stack<S, W, C> = seq<LayerState<S, W, C>>

  /** State and argmax after one token; a stack that does not fit the model is left alone. */
  function One<S, W, C, H>(t: Model<S, W, C, H>, sts: Stack<S, W, C>, tok: Token): (r: (Stack<S, W, C>, Token))
    ensures Fits(t.layers, sts) ==> Fits(t.layers, r.0)
  {
    if Fits(t.layers, sts) then
      var (sts1, h) := TokenStep(t.layers, sts, t.embed(tok));
      (sts1, t.head(h))
    else
      (sts, tok)
  }

  /** `step` is the model's decode step. */
  ghost predicate Simulates<S(!new), W(!new), C(!new), H>(step: Step<Stack<S, W, C>>, t: Model<S, W, C, H>) {
    forall sts, tok {:trigger One(t, sts, tok)} :: step((sts, tok)) == One(t, sts, tok)
  }

  /** Every model has a decode step. */
  function StepOf<S(!new), W(!new), C(!new), H>(t: Model<S, W, C, H>): (step: Step<Stack<S, W, C>>)
    ensures Simulates(step, t)
  {
    (p: (Stack<S, W, C>, Token)) => One(t, p.0, p.1)
  }

  function Map<A, B>(f: A -> B, xs: seq<A>): (r: seq<B>)
    ensures |r| == |xs| && forall i :: 0 <= i < |xs| ==> r[i] == f(xs[i])
  {
    seq(|xs|, i requires 0 <= i < |xs| => f(xs[i]))
  }

  /** The layer-major forward of a token chunk absorbs the tokens one by one. */
  lemma ForwardIsFeed<S(!new), W(!new), C(!new), H>(step: Step<Stack<S, W, C>>, t: Model<S, W, C, H>,
                                                    sts: Stack<S, W, C>, toks: seq<Token>)
    requires Simulates(step, t) && Fits(t.layers, sts)
    ensures var (sts1, hs) := LayerMajor(t.layers, sts, Map(t.embed, toks));
            Feed(step, sts, toks) == (sts1, Map(t.head, hs))
  {
    LayerMajorIsTokenMajor(t.layers, sts, Map(t.embed, toks));
    FeedIsTokenMajor(step, t, sts, toks);
  }

  lemma {:induction false} FeedIsTokenMajor<S(!new), W(!new), C(!new), H>(
      step: Step<Stack<S, W, C>>, t: Model<S, W, C, H>, sts: Stack<S, W, C>, toks: seq<Token>)
    requires Simulates(step, t) && Fits(t.layers, sts)
    ensures var (sts1, hs) := TokenMajor(t.layers, sts, Map(t.embed, toks));
            Feed(step, sts, toks) == (sts1, Map(t.head, hs))
  {
    if toks == [] {
      assert Map(t.embed, toks) == [];
    } else {
      var init := toks[..|toks| - 1];
      FeedIsTokenMajor(step, t, sts, init);
      assert Map(t.embed, toks)[..|toks| - 1] == Map(t.embed, init);
      var (sts1, hs) := TokenMajor(t.layers, sts, Map(t.embed, init));
      var (sts2, h) := TokenStep(t.layers, sts1, t.embed(toks[|toks| - 1]));
      assert One(t, sts1, toks[|toks| - 1]) == (sts2, t.head(h));
      assert Map(t.head, hs + [h]) == Map(t.head, hs) + [t.head(h)];
    }
  }

  /** The layer state of every layer of a freshly zeroed session. */
  function Fresh<S, W, C, H>(t: Model<S, W, C, H>): (r: Stack<S, W, C>)
    ensures Fits(t.layers, r)
  {
    seq(|t.layers|, i requires 0 <= i < |t.layers| =>
      if t.layers[i].Attn? then Cells([]) else Rec(t.zeroState, t.zeroWindow))
  }
}
