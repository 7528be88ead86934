/** Greedy decoding over an arbitrary per-token step: what absorbing a chunk, decoding token by
    token, and verifying a drafted chain have to do with one another. */
module Decoding {

  type Token = int

  /** The step maps a state and a token to the next state and the argmax read there. */
  type Step<!St> = ((St, Token)) -> (St, Token)

  /** State after absorbing tokens one at a time, and the argmax read at each. */
  function Feed<St>(step: Step<St>, st: St, toks: seq<Token>): (r: (St, seq<Token>))
    ensures |r.1| == |toks|
  {
    if toks == [] then (st, []) else
      var (cur, lg) := Feed(step, st, toks[..|toks| - 1]);
      var (next, a) := step((cur, toks[|toks| - 1]));
      (next, lg + [a])
  }

  /** Token-by-token decode: `n` single-token forwards from a state that absorbed everything before
      `first`. The final state has absorbed every token of the run but the last. */
  function GreedyRun<St>(step: Step<St>, st: St, first: Token, n: nat): (r: (St, seq<Token>))
    ensures |r.1| == n + 1
  {
    if n == 0 then (st, [first]) else
      var (cur, toks) := GreedyRun(step, st, first, n - 1);
      var (next, a) := step((cur, toks[n - 1]));
      (next, toks + [a])
  }

  /** A longer greedy run extends a shorter one. */
  lemma {:induction false} RunExtends<St>(step: Step<St>, st: St, first: Token, n: nat, m: nat)
    requires n <= m
    ensures GreedyRun(step, st, first, m).1[..n + 1] == GreedyRun(step, st, first, n).1
    decreases m
  {
    if n < m {
      RunExtends(step, st, first, n, m - 1);
      assert GreedyRun(step, st, first, m).1[..m] == GreedyRun(step, st, first, m - 1).1;
    }
  }

  /** What a forward reads at a position depends on the tokens up to it only. */
  lemma {:induction false} FeedPrefix<St>(step: Step<St>, st: St, toks: seq<Token>, n: nat)
    requires n <= |toks|
    ensures Feed(step, st, toks[..n]).1 == Feed(step, st, toks).1[..n]
    decreases |toks|
  {
    if n == |toks| {
      assert toks[..n] == toks;
    } else {
      var init := toks[..|toks| - 1];
      FeedPrefix(step, st, init, n);
      assert init[..n] == toks[..n];
    }
  }

  lemma FeedSnoc<St>(step: Step<St>, st: St, toks: seq<Token>, tok: Token)
    ensures var (cur, lg) := Feed(step, st, toks);
            var (next, a) := step((cur, tok));
            Feed(step, st, toks + [tok]) == (next, lg + [a])
  {
    assert (toks + [tok])[..|toks|] == toks;
  }

  /** Verifying a chain that starts with the run's last token: if the first `k` drafts equal the
      argmaxes read in front of them, the run continues with the first `k + 1` argmaxes, and its
      state is the one that absorbed exactly the kept tokens. */
  lemma {:induction false} AcceptedPrefixIsGreedy<St>(
    step: Step<St>, st: St, first: Token, n: nat, chain: seq<Token>, k: nat)
    requires k < |chain| && chain[0] == GreedyRun(step, st, first, n).1[n]
    requires var lg := Feed(step, GreedyRun(step, st, first, n).0, chain).1;
             forall j :: 0 <= j < k ==> lg[j] == chain[j + 1]
    ensures var (cur, toks) := GreedyRun(step, st, first, n);
            GreedyRun(step, st, first, n + k + 1)
              == (Feed(step, cur, chain[..k + 1]).0, toks + Feed(step, cur, chain).1[..k + 1])
    decreases k
  {
    var (cur, toks) := GreedyRun(step, st, first, n);
    var lg := Feed(step, cur, chain).1;
    FeedPrefix(step, cur, chain, k + 1);
    assert chain[..k + 1] == chain[..k] + [chain[k]];
    FeedSnoc(step, cur, chain[..k], chain[k]);
    assert toks + lg[..k + 1] == (toks + lg[..k]) + [lg[k]];
    if k == 0 {
      assert chain[..0] == [];
      assert toks + lg[..0] == toks;
    } else {
      AcceptedPrefixIsGreedy(step, st, first, n, chain, k - 1);
      assert (toks + lg[..k])[n + k] == lg[k - 1] == chain[k];
    }
  }

  /** Feeding greedy's own next tokens advances the state along the run and reads the run back. */
  lemma {:induction false} RunReadsBack<St>(step: Step<St>, st: St, first: Token, n: nat, k: nat, full: seq<Token>)
    requires full == GreedyRun(step, st, first, n + k).1
    ensures Feed(step, GreedyRun(step, st, first, n).0, full[n..n + k])
         == (GreedyRun(step, st, first, n + k).0, full[n + 1..])
    decreases k
  {
    if k == 0 {
      assert full[n..n] == [] == full[n + 1..];
    } else {
      var (cur, toks) := GreedyRun(step, st, first, n + k - 1);
      var last := toks[n + k - 1];
      RunReadsBack(step, st, first, n, k - 1, toks);
      FeedSnoc(step, GreedyRun(step, st, first, n).0, toks[n..n + k - 1], last);
      assert full == toks + [step((cur, last)).1];
      assert full[n..n + k] == toks[n..n + k - 1] + [last];
      assert full[n + 1..] == toks[n + 1..] + [full[n + k]];
    }
  }

  // ----- decoding a prompt

  /** The state after the prompt and the token its last position predicts. */
  function Prefill<St>(step: Step<St>, st: St, prompt: seq<Token>): (St, Token)
    requires prompt != []
  {
    var (cur, lg) := Feed(step, st, prompt);
    (cur, lg[|prompt| - 1])
  }

  /** `n` steps of greedy decode after the prompt: the run of `n + 1` tokens and the state. */
  function After<St>(step: Step<St>, st: St, prompt: seq<Token>, n: nat): (r: (St, seq<Token>))
    requires prompt != []
    ensures |r.1| == n + 1
  {
    var (cur, first) := Prefill(step, st, prompt);
    GreedyRun(step, cur, first, n)
  }

  /** The first `n` tokens of greedy decode, the one predicted by the prompt included. */
  function Decode<St>(step: Step<St>, st: St, prompt: seq<Token>, n: nat): (r: seq<Token>)
    requires prompt != []
    ensures |r| == n
  {
    if n == 0 then [] else After(step, st, prompt, n - 1).1
  }

  lemma DecodeExtends<St>(step: Step<St>, st: St, prompt: seq<Token>, n: nat, m: nat)
    requires prompt != [] && n <= m
    ensures Decode(step, st, prompt, m)[..n] == Decode(step, st, prompt, n)
  {
    if n > 0 {
      var (cur, first) := Prefill(step, st, prompt);
      RunExtends(step, cur, first, n - 1, m - 1);
    }
  }

  /** Feeding one stretch of tokens after another is feeding both: first in, first absorbed. */
  lemma {:induction false} FeedConcat<St>(step: Step<St>, st: St, x: seq<Token>, y: seq<Token>)
    ensures var (mid, lx) := Feed(step, st, x);
            var (end, ly) := Feed(step, mid, y);
            Feed(step, st, x + y) == (end, lx + ly)
    decreases |y|
  {
    if y == [] {
      assert x + y == x && Feed(step, st, x).1 + [] == Feed(step, st, x).1;
    } else {
      var init, last := y[..|y| - 1], y[|y| - 1];
      FeedConcat(step, st, x, init);
      FeedSnoc(step, st, x + init, last);
      assert x + y == (x + init) + [last];
      var (mid, lx) := Feed(step, st, x);
      var (cur, ly) := Feed(step, mid, init);
      var a := step((cur, last)).1;
      assert (lx + ly) + [a] == lx + (ly + [a]);
    }
  }

  /** A single token is one step: the next state, and the argmax read at it. */
  lemma FeedOne<St>(step: Step<St>, st: St, tok: Token)
    ensures var (next, a) := step((st, tok)); Feed(step, st, [tok]) == (next, [a])
  {
    FeedSnoc(step, st, [], tok);
    assert [] + [tok] == [tok];
    assert [] + [step((st, tok)).1] == [step((st, tok)).1];
  }

  /** Greedy decode is greedy: each token is the argmax read behind the prompt and the tokens before it,
      in one pass over all of them, and that pass leaves the state the decode has. */
  lemma {:induction false} DecodeIsGreedy<St>(step: Step<St>, st: St, prompt: seq<Token>, n: nat)
    requires prompt != []
    ensures var (cur, lg) := Feed(step, st, prompt + Decode(step, st, prompt, n));
            Decode(step, st, prompt, n + 1)[n] == lg[|prompt| + n - 1] && After(step, st, prompt, n).0 == cur
    decreases n
  {
    var toks := Decode(step, st, prompt, n);
    if n == 0 {
      assert prompt + toks == prompt;
    } else {
      var before := prompt + Decode(step, st, prompt, n - 1);
      DecodeIsGreedy(step, st, prompt, n - 1);
      DecodeExtends(step, st, prompt, n - 1, n);
      assert prompt + toks == before + [toks[n - 1]];
      FeedSnoc(step, st, before, toks[n - 1]);
    }
  }

  /** Every token of a run of greedy decode, by the tokens in front of it in that run. */
  lemma RunIsGreedy<St>(step: Step<St>, st: St, prompt: seq<Token>, run: seq<Token>)
    requires prompt != [] && run == Decode(step, st, prompt, |run|)
    ensures forall n :: 0 <= n < |run| ==> run[n] == Feed(step, st, prompt + run[..n]).1[|prompt| + n - 1]
  {
    forall n | 0 <= n < |run| ensures run[n] == Feed(step, st, prompt + run[..n]).1[|prompt| + n - 1] {
      DecodeExtends(step, st, prompt, n, |run|);
      DecodeExtends(step, st, prompt, n + 1, |run|);
      DecodeIsGreedy(step, st, prompt, n);
      assert run[..n + 1][n] == run[n];
    }
  }

  /** Feeding a block of greedy's own tokens advances along the run and reads the run's next tokens. */
  lemma FedBlockIsGreedy<St>(step: Step<St>, st: St, prompt: seq<Token>, run: seq<Token>, k: nat, hi: nat)
    requires prompt != [] && k <= hi < |run| && run == Decode(step, st, prompt, |run|)
    ensures Feed(step, After(step, st, prompt, k).0, run[k..hi]) == (After(step, st, prompt, hi).0, run[k + 1..hi + 1])
    ensures After(step, st, prompt, hi).1 == run[..hi + 1]
  {
    var (cur, first) := Prefill(step, st, prompt);
    RunExtends(step, cur, first, hi, |run| - 1);
    var full := run[..hi + 1];
    RunReadsBack(step, cur, first, k, hi - k, full);
    SlicesOfPrefix(run, full, k, hi);
    assert k + (hi - k) == hi;
  }

  lemma SlicesOfPrefix(run: seq<Token>, full: seq<Token>, k: nat, hi: nat)
    requires k <= hi < |run| && full == run[..hi + 1]
    ensures full[k..hi] == run[k..hi] && full[k + 1..] == run[k + 1..hi + 1]
  {
  }

  // ----- draft heads

  /** A draft head proposes at most `chunk` tokens from the tokens committed so far. */
  ghost predicate BoundedDraft(draft: seq<Token> -> seq<Token>, chunk: nat) {
    forall out :: |draft(out)| <= chunk
  }

  /** Greedy decode of a prompt, as a function of its length. */
  function Greedy<St>(step: Step<St>, st: St, prompt: seq<Token>): (dec: nat -> seq<Token>)
    requires prompt != []
    ensures forall n: nat :: dec(n) == Decode(step, st, prompt, n)
  {
    (n: nat) => Decode(step, st, prompt, n)
  }

  /** The run of `m` tokens extends the run of `n`. */
  ghost predicate Extends(dec: nat -> seq<Token>, n: nat, m: nat) {
    |dec(n)| == n && |dec(m)| == m && (n <= m ==> dec(m)[..n] == dec(n))
  }

  /** Longer runs extend shorter ones. */
  ghost predicate Growing(dec: nat -> seq<Token>) {
    forall n: nat, m: nat :: Extends(dec, n, m)
  }

  lemma GreedyGrows<St>(step: Step<St>, st: St, prompt: seq<Token>)
    requires prompt != []
    ensures Growing(Greedy(step, st, prompt))
  {
    forall n: nat, m: nat ensures Extends(Greedy(step, st, prompt), n, m) {
      if n <= m {
        DecodeExtends(step, st, prompt, n, m);
      }
    }
  }

  /** What the draft head proposes after the run's first `n` tokens is what the run continues with. */
  ghost predicate RightAfter(dec: nat -> seq<Token>, draft: seq<Token> -> seq<Token>, n: nat) {
    var d := draft(dec(n));
    dec(n) + d == dec(n + |d|)
  }

  /** The draft head only ever proposes what the run is about to emit. */
  ghost predicate AlwaysRight(dec: nat -> seq<Token>, draft: seq<Token> -> seq<Token>) {
    forall n: nat | n > 0 :: RightAfter(dec, draft, n)
  }

  /** Length of the longest common prefix. */
  function CommonPrefix(x: seq<Token>, y: seq<Token>): (k: nat)
    ensures k <= |x| && k <= |y| && x[..k] == y[..k]
    ensures k < |x| && k < |y| ==> x[k] != y[k]
  {
    if x == [] || y == [] || x[0] != y[0] then 0
    else
      var k := CommonPrefix(x[1..], y[1..]);
      assert x[..k + 1] == [x[0]] + x[1..][..k] && y[..k + 1] == [y[0]] + y[1..][..k];
      k + 1
  }

  lemma {:induction false} CommonPrefixIs(x: seq<Token>, y: seq<Token>, k: nat)
    requires k <= |x| && k <= |y| && x[..k] == y[..k]
    requires k < |x| && k < |y| ==> x[k] != y[k]
    requires k == |x| || k < |y|
    ensures CommonPrefix(x, y) == k
  {
    if k > 0 {
      assert x[..k][0] == y[..k][0];
      assert x[1..][..k - 1] == x[..k][1..] && y[1..][..k - 1] == y[..k][1..];
      CommonPrefixIs(x[1..], y[1..], k - 1);
    }
  }

  // ----- the accounting of a speculative decode

  /** The run's tokens from position `n` to `n + k`. */
  ghost function Ahead(dec: nat -> seq<Token>, n: nat, k: nat): (r: seq<Token>)
    requires Growing(dec)
    ensures |r| == k
  {
    assert Extends(dec, n + k, n + k);
    dec(n + k)[n..]
  }

  /** How many of the drafts proposed after `n` tokens a block accepts: those that agree with the run
      up to the first that does not. */
  ghost function Accepted(dec: nat -> seq<Token>, draft: seq<Token> -> seq<Token>, n: nat): (k: nat)
    requires Growing(dec)
    ensures k <= |draft(dec(n))|
  {
    CommonPrefix(draft(dec(n)), Ahead(dec, n, |draft(dec(n))|))
  }

  /** Drafts accepted, blocks run and drafts proposed. */
  datatype Tally = Tally(accepted: nat, blocks: nat, drafted: nat)

  /** The accounting of the blocks that take `n` committed tokens to at least `gen`: it is settled by the
      run and the draft head alone. Each block commits what it accepts and one token more. */
  ghost function TallyFrom(dec: nat -> seq<Token>, draft: seq<Token> -> seq<Token>, n: nat, gen: nat): Tally
    requires Growing(dec)
    decreases gen - n
  {
    if n >= gen then Tally(0, 0, 0)
    else
      var rest := TallyFrom(dec, draft, n + Accepted(dec, draft, n) + 1, gen);
      Tally(Accepted(dec, draft, n) + rest.accepted, 1 + rest.blocks, |draft(dec(n))| + rest.drafted)
  }

  /** The block starts from `n` on: each one past what the block before it accepted. */
  ghost function Starts(dec: nat -> seq<Token>, draft: seq<Token> -> seq<Token>, n: nat, gen: nat): (r: seq<nat>)
    requires Growing(dec)
    ensures n >= gen <==> r == []
    ensures n < gen ==> r[0] == n
    ensures forall j :: 0 <= j < |r| - 1 ==> r[j + 1] == r[j] + Accepted(dec, draft, r[j]) + 1
    ensures forall j :: 0 <= j < |r| ==> r[j] < gen
    ensures r != [] ==> r[|r| - 1] + Accepted(dec, draft, r[|r| - 1]) + 1 >= gen
    decreases gen - n
  {
    if n >= gen then [] else [n] + Starts(dec, draft, n + Accepted(dec, draft, n) + 1, gen)
  }

  /** The lengths of the drafts proposed at these starts, and of what is accepted of them, added up. */
  ghost function ProposedAt(dec: nat -> seq<Token>, draft: seq<Token> -> seq<Token>, starts: seq<nat>): nat {
    if starts == [] then 0 else |draft(dec(starts[0]))| + ProposedAt(dec, draft, starts[1..])
  }

  ghost function AcceptedAt(dec: nat -> seq<Token>, draft: seq<Token> -> seq<Token>, starts: seq<nat>): nat
    requires Growing(dec)
  {
    if starts == [] then 0 else Accepted(dec, draft, starts[0]) + AcceptedAt(dec, draft, starts[1..])
  }

  /** The accounting counts the blocks, and every proposal and acceptance of each. */
  lemma {:induction false} TallyCounts(dec: nat -> seq<Token>, draft: seq<Token> -> seq<Token>, n: nat, gen: nat)
    requires Growing(dec)
    ensures var (t, starts) := (TallyFrom(dec, draft, n, gen), Starts(dec, draft, n, gen));
      && t.blocks == |starts| && t.drafted == ProposedAt(dec, draft, starts)
      && t.accepted == AcceptedAt(dec, draft, starts)
    decreases gen - n
  {
    if n < gen {
      TallyCounts(dec, draft, n + Accepted(dec, draft, n) + 1, gen);
      assert Starts(dec, draft, n, gen)[1..] == Starts(dec, draft, n + Accepted(dec, draft, n) + 1, gen);
    }
  }

  /** What a block that verifies against the run commits is what the accounting says. */
  lemma BlockAccepts(dec: nat -> seq<Token>, draft: seq<Token> -> seq<Token>,
                     out: seq<Token>, commit: seq<Token>, ok: nat)
    requires Growing(dec) && out == dec(|out|) && out + commit == dec(|out| + |commit|)
    requires |commit| == ok + 1 && ok <= |draft(out)| && commit[..ok] == draft(out)[..ok]
    requires ok < |draft(out)| ==> commit[ok] != draft(out)[ok]
    ensures ok == Accepted(dec, draft, |out|)
  {
    var n, d := |out|, draft(out);
    var run := Ahead(dec, n, |d|);
    var both := out + commit;
    if ok < |d| {
      assert Extends(dec, n + ok + 1, n + |d|);
      assert dec(n + |d|)[..n + ok + 1] == both;
      assert run[..ok + 1] == both[n..] == commit;
      assert run[..ok] == commit[..ok];
    } else {
      assert Extends(dec, n + ok, n + |commit|);
      assert run == both[n..n + ok] == commit[..ok];
      assert run[..ok] == run;
    }
    CommonPrefixIs(d, run, ok);
  }

  /** Committed tokens are the first one, the accepted drafts and one per block; the last block passes
      `gen` by no more than a draft. */
  lemma {:induction false} TallyCommits(dec: nat -> seq<Token>, draft: seq<Token> -> seq<Token>,
                                        n: nat, gen: nat, chunk: nat)
    requires Growing(dec) && BoundedDraft(draft, chunk) && n < gen
    ensures var t := TallyFrom(dec, draft, n, gen); gen <= n + t.accepted + t.blocks <= gen + chunk
    decreases gen - n
  {
    var ok := Accepted(dec, draft, n);
    assert ok <= chunk;
    if n + ok + 1 < gen {
      TallyCommits(dec, draft, n + ok + 1, gen, chunk);
    }
  }

  /** The accounting with `n` tokens committed, `accepted` of them drafts. */
  ghost predicate SoFar(dec: nat -> seq<Token>, draft: seq<Token> -> seq<Token>, gen: nat, n: nat, accepted: nat)
    requires Growing(dec)
  {
    var (total, rest) := (TallyFrom(dec, draft, 1, gen), TallyFrom(dec, draft, n, gen));
    && accepted + rest.accepted == total.accepted
    && n - 1 - accepted + rest.blocks == total.blocks
  }

  lemma SoFarNext(dec: nat -> seq<Token>, draft: seq<Token> -> seq<Token>, gen: nat,
                  n: nat, accepted: nat, ok: nat, n': nat, accepted': nat)
    requires Growing(dec) && SoFar(dec, draft, gen, n, accepted) && n < gen && ok == Accepted(dec, draft, n)
    requires n' == n + ok + 1 && accepted' == accepted + ok
    ensures SoFar(dec, draft, gen, n', accepted')
  {
    var rest := TallyFrom(dec, draft, n', gen);
    assert TallyFrom(dec, draft, n, gen) == Tally(ok + rest.accepted, 1 + rest.blocks, |draft(dec(n))| + rest.drafted);
  }

  lemma SoFarDone(dec: nat -> seq<Token>, draft: seq<Token> -> seq<Token>, gen: nat, n: nat, accepted: nat)
    requires Growing(dec) && SoFar(dec, draft, gen, n, accepted) && n >= gen
    ensures var t := TallyFrom(dec, draft, 1, gen); accepted == t.accepted && n == 1 + t.accepted + t.blocks
  {
  }

  /** An always-right draft head is never cut short. */
  lemma DraftsAreGreedy(dec: nat -> seq<Token>, draft: seq<Token> -> seq<Token>, n: nat)
    requires n > 0 && Growing(dec) && AlwaysRight(dec, draft)
    ensures Accepted(dec, draft, n) == |draft(dec(n))|
  {
    var d := draft(dec(n));
    assert RightAfter(dec, draft, n);
    assert Extends(dec, n, n);
    assert Ahead(dec, n, |d|) == d;
    CommonPrefixIs(d, d, |d|);
  }

  /** Every draft of an always-right head is accepted. */
  lemma {:induction false} AlwaysRightTally(dec: nat -> seq<Token>, draft: seq<Token> -> seq<Token>, n: nat, gen: nat)
    requires n > 0 && Growing(dec) && AlwaysRight(dec, draft)
    ensures TallyFrom(dec, draft, n, gen).accepted == TallyFrom(dec, draft, n, gen).drafted
    decreases gen - n
  {
    if n < gen {
      DraftsAreGreedy(dec, draft, n);
      AlwaysRightTally(dec, draft, n + Accepted(dec, draft, n) + 1, gen);
    }
  }

  datatype Mode = Accept | Reject

  /** The two scripted drafts: `ref[i + 1 : i + 1 + chunk]` where `i + 1` tokens are committed, and
      the first prompt token repeated. */
  function ScriptedDraft(mode: Mode, prompt: seq<Token>, ref: seq<Token>, chunk: nat): (r: seq<Token> -> seq<Token>)
    requires prompt != []
    ensures BoundedDraft(r, chunk)
  {
    match mode
    case Accept => (out: seq<Token>) =>
      if |out| >= |ref| then []
      else if |out| + chunk >= |ref| then ref[|out|..]
      else ref[|out|..|out| + chunk]
    case Reject => _ => seq(chunk, _ => prompt[0])
  }

  /** Greedy's own tokens are an always-right draft. */
  lemma ReferenceDraftIsRight<St>(step: Step<St>, st: St, prompt: seq<Token>, ref: seq<Token>, chunk: nat)
    requires prompt != [] && ref == Decode(step, st, prompt, |ref|)
    ensures AlwaysRight(Greedy(step, st, prompt), ScriptedDraft(Accept, prompt, ref, chunk))
  {
    forall n: nat | n > 0 ensures RightAfter(Greedy(step, st, prompt), ScriptedDraft(Accept, prompt, ref, chunk), n) {
      var d := ScriptedDraft(Accept, prompt, ref, chunk)(Decode(step, st, prompt, n));
      if n < |ref| {
        assert d == ref[n..n + |d|];
        DecodeExtends(step, st, prompt, n, |ref|);
        DecodeExtends(step, st, prompt, n + |d|, |ref|);
        assert ref[..n] + d == ref[..n + |d|];
      } else {
        assert d == [];
      }
    }
  }
}
