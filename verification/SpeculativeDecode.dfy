/** The reference decode, the speculative block loop and the block-fed verify, each over its own
    fresh session. `step` is the model's decode step. */
module SpeculativeDecode {
  import opened Decoding
  import opened Trunk
  import opened Session

  /** The session has absorbed the prompt and all of `out` but its last token. */
  ghost predicate Tracks<S(!new), W(!new), C(0,!new), H>(sess: Session<S, W, C, H>, prompt: seq<Token>, out: seq<Token>)
    requires sess.Valid() && prompt != [] && out != []
    reads sess, sess.kv, sess.states, sess.planes
  {
    var pos := |prompt| + |out| - 1;
    pos <= sess.kv.Length1 && (sess.View(pos), out) == After(sess.step, Fresh(sess.t), prompt, |out| - 1)
  }

  lemma TracksIsDecode<S(!new), W(!new), C(0,!new), H>(sess: Session<S, W, C, H>, prompt: seq<Token>, out: seq<Token>)
    requires sess.Valid() && prompt != [] && out != [] && Tracks(sess, prompt, out)
    ensures out == Decode(sess.step, Fresh(sess.t), prompt, |out|)
  {
  }

  /** A fresh session after the prompt's one forward. */
  method Start<S(!new), W(!new), C(0,!new), H>(t: Model<S, W, C, H>, ghost step: Step<Stack<S, W, C>>, fused: bool,
                              prompt: seq<Token>, capacity: nat)
    returns (sess: Session<S, W, C, H>, first: Token)
    requires Simulates(step, t) && prompt != [] && |prompt| <= capacity
    ensures fresh(sess) && fresh(sess.kv) && fresh(sess.states) && fresh(sess.planes)
    ensures sess.Valid() && sess.t == t && sess.step == step && sess.kv.Length1 == capacity
    ensures first == Prefill(step, Fresh(t), prompt).1 && Tracks(sess, prompt, [first])
  {
    sess := new Session<S, W, C, H>(t, step, fused, capacity);
    var lg := sess.Forward(prompt, 0);
    first := lg[|prompt| - 1];
  }

  /** Token-by-token greedy decode over a fresh pool: the prompt in one forward, then one
      single-token forward per further token. With `gen == 0` it still holds one token. */
  method ReferenceDecode<S(!new), W(!new), C(0,!new), H>(t: Model<S, W, C, H>, ghost step: Step<Stack<S, W, C>>,
                                                         fused: bool,
                                        prompt: seq<Token>, gen: nat, chunk: nat)
    returns (ref: seq<Token>)
    requires Simulates(step, t) && prompt != []
    ensures ref == Decode(step, Fresh(t), prompt, if gen == 0 then 1 else gen)
    ensures forall n :: 0 <= n < |ref| ==>
      ref[n] == Feed(step, Fresh(t), prompt + ref[..n]).1[|prompt| + n - 1]
  {
    var sess, first := Start(t, step, fused, prompt, Capacity(|prompt|, gen, chunk));
    ref := OneByOne(sess, prompt, first, gen);
    TracksIsDecode(sess, prompt, ref);
    RunIsGreedy(step, Fresh(t), prompt, ref);
  }

  /** The token-by-token loop, on a session that absorbed the prompt. */
  method OneByOne<S(!new), W(!new), C(0,!new), H>(sess: Session<S, W, C, H>, prompt: seq<Token>, first: Token, gen: nat)
    returns (ref: seq<Token>)
    requires sess.Valid() && prompt != [] && Tracks(sess, prompt, [first])
    requires |prompt| + gen <= sess.kv.Length1
    modifies sess`parity, sess.kv, sess.states, sess.planes
    ensures sess.Valid() && |ref| == (if gen == 0 then 1 else gen) && Tracks(sess, prompt, ref)
  {
    ref := [first];
    while |ref| < gen
      invariant sess.Valid() && 1 <= |ref| && (|ref| <= gen || |ref| == 1)
      invariant Tracks(sess, prompt, ref)
      decreases gen - |ref|
    {
      var next := Tick(sess, prompt, ref);
      ref := ref + [next];
    }
  }

  /** One single-token forward. */
  method Tick<S(!new), W(!new), C(0,!new), H>(sess: Session<S, W, C, H>, prompt: seq<Token>, ref: seq<Token>)
    returns (next: Token)
    requires sess.Valid() && prompt != [] && ref != [] && Tracks(sess, prompt, ref)
    requires |prompt| + |ref| <= sess.kv.Length1
    modifies sess`parity, sess.kv, sess.states, sess.planes
    ensures sess.Valid() && Tracks(sess, prompt, ref + [next])
  {
    var pos := |prompt| + |ref| - 1;
    FeedSnoc(sess.step, sess.View(pos), [], ref[|ref| - 1]);
    var lg := sess.Forward([ref[|ref| - 1]], pos);
    next := lg[0];
  }

  /** Length of the longest prefix of `drafts` that the argmaxes in front of it confirm. */
  method CountAccepted(lg: seq<Token>, drafts: seq<Token>) returns (ok: nat)
    requires |drafts| < |lg|
    ensures ok <= |drafts| && lg[..ok] == drafts[..ok]
    ensures ok < |drafts| ==> lg[ok] != drafts[ok]
  {
    ok := 0;
    while ok < |drafts| && lg[ok] == drafts[ok]
      invariant ok <= |drafts| && lg[..ok] == drafts[..ok]
    {
      ok := ok + 1;
    }
  }

  lemma Committed(lg: seq<Token>, last: Token, drafts: seq<Token>, ok: nat)
    requires ok <= |drafts| < |lg| && lg[..ok] == drafts[..ok]
    ensures drafts[..ok] + [lg[ok]] == lg[..ok + 1]
    ensures forall j :: 0 <= j < ok ==> lg[j] == ([last] + drafts)[j + 1]
  {
    forall j | 0 <= j < ok ensures lg[j] == ([last] + drafts)[j + 1] {
      assert lg[..ok][j] == drafts[..ok][j];
    }
  }

  /** One block: snapshot, verify `last` and its drafts in one forward, roll the recurrent state
      back, re-absorb what was kept. The KV pool is not rolled back: cells written for rejected
      drafts stay behind, and are outside every later view until a forward overwrites them. */
  method Round<S(!new), W(!new), C(0,!new), H>(sess: Session<S, W, C, H>, pos: nat, last: Token, drafts: seq<Token>)
    returns (commit: seq<Token>, ok: nat)
    requires sess.Valid() && pos + 1 + |drafts| <= sess.kv.Length1
    modifies sess`parity, sess.kv, sess.states, sess.planes
    ensures sess.Valid()
    ensures |commit| == ok + 1 <= |drafts| + 1
    ensures var chain := [last] + drafts;
            var lg := Feed(sess.step, old(sess.View(pos)), chain).1;
            && commit == lg[..ok + 1] && commit[..ok] == drafts[..ok]
            && (forall j :: 0 <= j < ok ==> lg[j] == chain[j + 1])
            && (ok < |drafts| ==> commit[ok] != drafts[ok])
            && sess.View(pos + ok + 1) == Feed(sess.step, old(sess.View(pos)), chain[..ok + 1]).0
  {
    var chain := [last] + drafts;
    ghost var before := sess.View(pos);
    var snapStates, snapWindow := sess.Snapshot();
    var lg := sess.Forward(chain, pos);
    ok := CountAccepted(lg, drafts);
    commit := drafts[..ok] + [lg[ok]];
    Committed(lg, last, drafts, ok);
    sess.Restore(snapStates, snapWindow, pos, before);
    var keep := chain[..ok + 1];
    var _ := sess.Forward(keep, pos);
  }

  /** One iteration of the block loop on a session that tracks `out`. */
  method Block<S(!new), W(!new), C(0,!new), H>(sess: Session<S, W, C, H>, prompt: seq<Token>, out: seq<Token>,
                                               drafts: seq<Token>)
    returns (commit: seq<Token>, ok: nat)
    requires sess.Valid() && prompt != [] && out != [] && Tracks(sess, prompt, out)
    requires |prompt| + |out| + |drafts| <= sess.kv.Length1
    modifies sess`parity, sess.kv, sess.states, sess.planes
    ensures sess.Valid()
    ensures |commit| == ok + 1 <= |drafts| + 1 && commit[..ok] == drafts[..ok]
    ensures ok < |drafts| ==> commit[ok] != drafts[ok]
    ensures Tracks(sess, prompt, out + commit)
  {
    ghost var (st0, first) := Prefill(sess.step, Fresh(sess.t), prompt);
    commit, ok := Round(sess, |prompt| + |out| - 1, out[|out| - 1], drafts);
    AcceptedPrefixIsGreedy(sess.step, st0, first, |out| - 1, [out[|out| - 1]] + drafts, ok);
  }

  /** The accounting of a decode from the first token on. */
  ghost function Account<St>(step: Step<St>, st: St, prompt: seq<Token>, draft: seq<Token> -> seq<Token>,
                             gen: nat): Tally
    requires prompt != []
  {
    GreedyGrows(step, st, prompt);
    TallyFrom(Greedy(step, st, prompt), draft, 1, gen)
  }

  /** The block loop for an arbitrary draft head commits exactly greedy decode. Returns the tokens cut
      to `gen`, the number of accepted drafts and the uncut tokens. */
  method BlockLoop<S(!new), W(!new), C(0,!new), H>(
      t: Model<S, W, C, H>, ghost step: Step<Stack<S, W, C>>, fused: bool,
      prompt: seq<Token>, gen: nat, chunk: nat, draft: seq<Token> -> seq<Token>)
    returns (out: seq<Token>, nAcc: nat, committed: seq<Token>)
    requires Simulates(step, t) && prompt != []
    requires BoundedDraft(draft, chunk)
    ensures out == Decode(step, Fresh(t), prompt, gen)
    ensures committed == Decode(step, Fresh(t), prompt, |committed|) && |committed| >= gen
    ensures forall n :: 0 <= n < |committed| ==>
      committed[n] == Feed(step, Fresh(t), prompt + committed[..n]).1[|prompt| + n - 1]
    ensures var tally := Account(step, Fresh(t), prompt, draft, gen);
            nAcc == tally.accepted && |committed| == 1 + tally.accepted + tally.blocks
  {
    var sess, first := Start(t, step, fused, prompt, Capacity(|prompt|, gen, chunk));
    committed, nAcc := Blocks(sess, prompt, first, gen, chunk, draft);
    DecodeExtends(step, Fresh(t), prompt, gen, |committed|);
    RunIsGreedy(step, Fresh(t), prompt, committed);
    out := committed[..gen];
  }

  /** The block loop, on a session that absorbed the prompt. */
  method Blocks<S(!new), W(!new), C(0,!new), H>(
      sess: Session<S, W, C, H>, prompt: seq<Token>, first: Token,
      gen: nat, chunk: nat, draft: seq<Token> -> seq<Token>)
    returns (out: seq<Token>, nAcc: nat)
    requires sess.Valid() && prompt != [] && Tracks(sess, prompt, [first])
    requires BoundedDraft(draft, chunk) && |prompt| + gen + chunk <= sess.kv.Length1
    modifies sess`parity, sess.kv, sess.states, sess.planes
    ensures sess.Valid() && |out| >= gen && out == Decode(sess.step, Fresh(sess.t), prompt, |out|)
    ensures var tally := Account(sess.step, Fresh(sess.t), prompt, draft, gen);
            nAcc == tally.accepted && |out| == 1 + tally.accepted + tally.blocks
  {
    out := [first];
    nAcc := 0;
    ghost var dec := Greedy(sess.step, Fresh(sess.t), prompt);
    GreedyGrows(sess.step, Fresh(sess.t), prompt);
    while |out| < gen
      invariant sess.Valid() && out != [] && Tracks(sess, prompt, out)
      invariant SoFar(dec, draft, gen, |out|, nAcc)
      decreases gen - |out|
    {
      var commit, ok := DraftedBlock(sess, prompt, out, chunk, draft, dec);
      SoFarNext(dec, draft, gen, |out|, nAcc, ok, |out + commit|, nAcc + ok);
      out := out + commit;
      nAcc := nAcc + ok;
    }
    TracksIsDecode(sess, prompt, out);
    SoFarDone(dec, draft, gen, |out|, nAcc);
  }

  /** One iteration with what the draft head proposes: it accepts the proposals that agree with greedy
      decode, up to the first that does not. */
  method DraftedBlock<S(!new), W(!new), C(0,!new), H>(
      sess: Session<S, W, C, H>, prompt: seq<Token>, out: seq<Token>,
      ghost chunk: nat, draft: seq<Token> -> seq<Token>, ghost dec: nat -> seq<Token>)
    returns (commit: seq<Token>, ok: nat)
    requires sess.Valid() && prompt != [] && out != [] && Tracks(sess, prompt, out)
    requires BoundedDraft(draft, chunk) && |prompt| + |out| + chunk <= sess.kv.Length1
    requires dec == Greedy(sess.step, Fresh(sess.t), prompt) && Growing(dec)
    modifies sess`parity, sess.kv, sess.states, sess.planes
    ensures sess.Valid() && Tracks(sess, prompt, out + commit)
    ensures |commit| == ok + 1 && ok == Accepted(dec, draft, |out|)
  {
    TracksIsDecode(sess, prompt, out);
    commit, ok := Block(sess, prompt, out, draft(out));
    TracksIsDecode(sess, prompt, out + commit);
    BlockAccepts(dec, draft, out, commit, ok);
  }

  /** `--loop`: the committed tokens never diverge from greedy, in either mode; what is reported as
      accepted is what agrees with greedy, and with the reference as draft that is every proposal. */
  method LoopCheck<S(!new), W(!new), C(0,!new), H>(
      t: Model<S, W, C, H>, fused: bool, prompt: seq<Token>, gen: nat, chunk: nat, mode: Mode)
    returns (clean: bool, nAcc: nat)
    requires prompt != []
    ensures clean
    ensures var ref := Decode(StepOf(t), Fresh(t), prompt, if gen == 0 then 1 else gen);
            var tally := Account(StepOf(t), Fresh(t), prompt, ScriptedDraft(mode, prompt, ref, chunk), gen);
            nAcc == tally.accepted && (mode == Accept ==> nAcc == tally.drafted)
  {
    ghost var step := StepOf(t);
    var ref := ReferenceDecode(t, step, fused, prompt, gen, chunk);
    var draft := ScriptedDraft(mode, prompt, ref, chunk);
    var out, committed;
    out, nAcc, committed := BlockLoop(t, step, fused, prompt, gen, chunk, draft);
    DecodeExtends(step, Fresh(t), prompt, gen, |ref|);
    if mode == Accept {
      GreedyGrows(step, Fresh(t), prompt);
      ReferenceDraftIsRight(step, Fresh(t), prompt, ref, chunk);
      AlwaysRightTally(Greedy(step, Fresh(t), prompt), draft, 1, gen);
    }
    clean := out == ref[..gen];
  }

  /** One block `run[k..hi]` of greedy's own tokens, forwarded on a session that tracks `run` up to it. */
  method FeedBlock<S(!new), W(!new), C(0,!new), H>(sess: Session<S, W, C, H>, prompt: seq<Token>, blk: seq<Token>,
                                                   k: nat,
                                                   ghost run: seq<Token>, ghost hi: nat)
    returns (lg: seq<Token>)
    requires sess.Valid() && prompt != [] && k <= hi < |run| && blk == run[k..hi]
    requires run == Decode(sess.step, Fresh(sess.t), prompt, |run|)
    requires |prompt| + hi <= sess.kv.Length1 && Tracks(sess, prompt, run[..k + 1])
    modifies sess`parity, sess.kv, sess.states, sess.planes
    ensures sess.Valid() && Tracks(sess, prompt, run[..hi + 1])
    ensures lg == run[k + 1..hi + 1]
  {
    FedBlockIsGreedy(sess.step, Fresh(sess.t), prompt, run, k, hi);
    lg := sess.Forward(blk, |prompt| + k);
  }

  /** Default mode: greedy's own tokens forwarded in blocks of `chunk` read greedy back. A block
      must not be empty, or the loop would forward nothing for ever. */
  method BlockFed<S(!new), W(!new), C(0,!new), H>(t: Model<S, W, C, H>, ghost step: Step<Stack<S, W, C>>, fused: bool,
                                                  prompt: seq<Token>, ref: seq<Token>, gen: nat, chunk: nat)
    returns (got: seq<Token>)
    requires Simulates(step, t) && prompt != [] && chunk > 0
    requires ref == Decode(step, Fresh(t), prompt, if gen == 0 then 1 else gen)
    ensures got == ref[1..]
  {
    var sess, first := Start(t, step, fused, prompt, Capacity(|prompt|, gen, chunk));
    ghost var run := Decode(step, Fresh(t), prompt, |ref| + 1);
    DecodeExtends(step, Fresh(t), prompt, |ref|, |ref| + 1);
    DecodeExtends(step, Fresh(t), prompt, 1, |ref| + 1);
    got := ReadBack(sess, prompt, ref, gen, chunk, run);
  }

  /** The loop of the block-fed verify, on a session that absorbed the prompt. */
  method ReadBack<S(!new), W(!new), C(0,!new), H>(sess: Session<S, W, C, H>, prompt: seq<Token>, ref: seq<Token>,
                                                  gen: nat, chunk: nat, ghost run: seq<Token>)
    returns (got: seq<Token>)
    requires sess.Valid() && prompt != [] && chunk > 0 && ref != [] && |ref| <= gen + 1
    requires sess.kv.Length1 == Capacity(|prompt|, gen, chunk)
    requires |run| == |ref| + 1 && run[..|ref|] == ref && run == Decode(sess.step, Fresh(sess.t), prompt, |run|)
    requires Tracks(sess, prompt, run[..1])
    modifies sess`parity, sess.kv, sess.states, sess.planes
    ensures got == ref[1..]
  {
    got := [];
    var k := 0;
    while k < |ref| - 1
      invariant sess.Valid()
      invariant k == |got| <= |ref| && got == run[1..k + 1]
      invariant Tracks(sess, prompt, run[..k + 1])
      decreases |ref| - k
    {
      var hi := if k + chunk <= |ref| then k + chunk else |ref|;
      var blk := ref[k..hi];
      assert blk == run[k..hi];
      var lg := FeedBlock(sess, prompt, blk, k, run, hi);
      assert got + lg == run[1..hi + 1];
      got := got + lg;
      k := hi;
    }
    got := got[..|ref| - 1];
  }
}
