/** Two arms of one question set, each drained through an engine that answers in any order and that
    stops taking questions at a deadline; then the paired comparison of the arms. */
module Drain {

  import opened Prelude
  import opened Discordance

  type Prompt = string
  type Text = string

  const CONCURRENCY: nat := 8

  /** What one run of an engine does: the request submitted as number `w` is answered `delay(w)` steps
      after the first step that follows it, with `reply(w, prompt)`. Every engine that answers each
      request once behaves so for some script. */
  datatype Script = Script(delay: nat -> nat, reply: (nat, Prompt) -> Text)

  datatype Request = Request(ready: nat, text: Text)

  /** Requests in flight carry their scripted answers and come due between `now` and `horizon`. */
  ghost predicate Flying(script: Script, submitted: seq<Prompt>, inFlight: map<nat, Request>, now: nat, horizon: nat) {
    && (forall w :: w in inFlight ==> w < |submitted| && inFlight[w].text == script.reply(w, submitted[w]))
    && (forall w :: w in inFlight ==> now <= inFlight[w].ready <= horizon)
  }

  lemma FlyingMore(script: Script, submitted: seq<Prompt>, inFlight: map<nat, Request>, now: nat, horizon: nat,
                   p: Prompt, ready: nat, later: nat)
    requires Flying(script, submitted, inFlight, now, horizon)
    requires now <= ready <= later && horizon <= later
    ensures |submitted| !in inFlight
    ensures var more := inFlight[|submitted| := Request(ready, script.reply(|submitted|, p))];
            Flying(script, submitted + [p], more, now, later)
  {
  }

  /** What leaves and what stays at a poll. */
  function Due(inFlight: map<nat, Request>, now: nat): map<nat, Text> {
    map w | w in inFlight && inFlight[w].ready <= now :: inFlight[w].text
  }

  function NotDue(inFlight: map<nat, Request>, now: nat): map<nat, Request> {
    map w | w in inFlight && inFlight[w].ready > now :: inFlight[w]
  }

  lemma PollSplits(script: Script, submitted: seq<Prompt>, inFlight: map<nat, Request>, now: nat, horizon: nat)
    requires Flying(script, submitted, inFlight, now, horizon)
    ensures Flying(script, submitted, NotDue(inFlight, now), now + 1, horizon)
    ensures Due(inFlight, now).Keys !! NotDue(inFlight, now).Keys
    ensures Due(inFlight, now).Keys + NotDue(inFlight, now).Keys == inFlight.Keys
    ensures forall w :: w in Due(inFlight, now) ==>
      w < |submitted| && Due(inFlight, now)[w] == script.reply(w, submitted[w])
  {
    assert forall w :: w in inFlight ==> w in Due(inFlight, now) || w in NotDue(inFlight, now);
  }

  function Most(a: nat, b: nat): nat { if a < b then b else a }

  class Engine {
    const script: Script
    var clock: nat
    var submitted: seq<Prompt>
    var inFlight: map<nat, Request>
    ghost var peak: nat
    ghost var horizon: nat

    ghost predicate Valid()
      reads this
    {
      Flying(script, submitted, inFlight, clock, horizon) && |inFlight.Keys| <= peak
    }

    /** Nothing in flight is ready yet. */
    ghost predicate Waiting()
      reads this
    {
      Flying(script, submitted, inFlight, clock + 1, horizon)
    }

    constructor (script: Script)
      ensures Valid() && this.script == script && submitted == [] && inFlight == map[] && peak == 0
    {
      this.script := script;
      clock, submitted, inFlight, peak, horizon := 0, [], map[], 0, 0;
    }

    method Submit(p: Prompt) returns (w: nat)
      requires Valid()
      modifies this
      ensures Valid() && w == |old(submitted)| && submitted == old(submitted) + [p] && w !in old(inFlight)
      ensures inFlight.Keys == old(inFlight).Keys + {w}
      ensures peak == Most(old(peak), |inFlight.Keys|)
      ensures clock == old(clock) && (old(Waiting()) ==> Waiting())
    {
      w := |submitted|;
      var ready := clock + 1 + script.delay(w);
      ghost var later := if ready > horizon then ready else horizon;
      FlyingMore(script, submitted, inFlight, clock, horizon, p, ready, later);
      if Waiting() {
        FlyingMore(script, submitted, inFlight, clock + 1, horizon, p, ready, later);
      }
      inFlight := inFlight[w := Request(ready, script.reply(w, p))];
      submitted := submitted + [p];
      horizon := later;
      peak := Most(peak, |inFlight.Keys|);
    }

    /** One engine step and the poll that follows it: everything that is ready leaves. */
    method StepAndPoll() returns (done: map<nat, Text>)
      requires Valid() && Waiting()
      modifies this`clock, this`inFlight
      ensures Valid() && Waiting() && clock == old(clock) + 1
      ensures done.Keys !! inFlight.Keys && done.Keys + inFlight.Keys == old(inFlight).Keys
      ensures forall w :: w in done ==> w < |submitted| && done[w] == script.reply(w, submitted[w])
    {
      clock := clock + 1;
      PollSplits(script, submitted, inFlight, clock, horizon);
      SubsetSize(NotDue(inFlight, clock).Keys, inFlight.Keys);
      done := Due(inFlight, clock);
      inFlight := NotDue(inFlight, clock);
    }
  }

  /** The slots of a drained arm: the first ones empty, each other one holding the answer to its own
      prompt. The prompts go out last one first, so prompt `i` is request number `|prompts| - 1 - i`. */
  ghost predicate Drained(prompts: seq<Prompt>, script: Script, sent: nat, out: seq<Option<Text>>) {
    && |out| == |prompts| && sent <= |prompts|
    && (forall i :: 0 <= i < |out| - sent ==> out[i] == None)
    && (forall i :: |out| - sent <= i < |out| ==> out[i] == Some(script.reply(|out| - 1 - i, prompts[i])))
  }

  /** Requests went out from the last prompt down, none twice. */
  ghost predicate SentFromTheEnd(prompts: seq<Prompt>, submitted: seq<Prompt>) {
    |submitted| <= |prompts| && forall w :: 0 <= w < |submitted| ==> submitted[w] == prompts[|prompts| - 1 - w]
  }

  /** The loop's bookkeeping: requests in flight are known by the index of their prompt, and every
      request that is not in flight has its answer in its own slot. */
  ghost predicate Books(prompts: seq<Prompt>, script: Script, submitted: seq<Prompt>, pending: map<nat, nat>,
                        out: seq<Option<Text>>)
  {
    && SentFromTheEnd(prompts, submitted) && |out| == |prompts|
    && (forall w :: w in pending ==> w < |submitted| && pending[w] == |prompts| - 1 - w)
    && (forall i :: 0 <= i < |out| - |submitted| ==> out[i] == None)
    && (forall w :: 0 <= w < |submitted| && w !in pending ==>
          out[|prompts| - 1 - w] == Some(script.reply(w, prompts[|prompts| - 1 - w])))
  }

  lemma BooksSubmit(prompts: seq<Prompt>, script: Script, submitted: seq<Prompt>, pending: map<nat, nat>,
                    out: seq<Option<Text>>, i: nat)
    requires Books(prompts, script, submitted, pending, out)
    requires |submitted| < |prompts| && i == |prompts| - 1 - |submitted|
    ensures Books(prompts, script, submitted + [prompts[i]], pending[|submitted| := i], out)
  {
  }

  lemma BooksAnswer(prompts: seq<Prompt>, script: Script, submitted: seq<Prompt>, pending: map<nat, nat>,
                    out: seq<Option<Text>>, w: nat)
    requires Books(prompts, script, submitted, pending, out)
    requires w in pending
    ensures pending[w] < |out|
    ensures Books(prompts, script, submitted, pending - {w}, out[pending[w] := Some(script.reply(w, submitted[w]))])
  {
  }

  /** What is left to send: a prefix of the numbered prompts. */
  ghost predicate Todo(prompts: seq<Prompt>, todo: seq<(nat, Prompt)>) {
    |todo| <= |prompts| && forall j :: 0 <= j < |todo| ==> todo[j] == (j, prompts[j])
  }

  /** Between engine steps. */
  ghost predicate Kept(e: Engine, prompts: seq<Prompt>, pending: map<nat, nat>, todo: seq<(nat, Prompt)>,
                       out: seq<Option<Text>>)
    reads e
  {
    && e.Valid() && e.peak <= CONCURRENCY && e.Waiting()
    && pending.Keys == e.inFlight.Keys
    && Todo(prompts, todo) && (todo != [] ==> |todo| + |e.submitted| == |prompts|)
    && Books(prompts, e.script, e.submitted, pending, out)
  }

  /** Every slot is settled once nothing is in flight. */
  lemma BooksClosed(prompts: seq<Prompt>, script: Script, submitted: seq<Prompt>, out: seq<Option<Text>>)
    requires Books(prompts, script, submitted, map[], out)
    ensures Drained(prompts, script, |submitted|, out)
  {
    forall i | |out| - |submitted| <= i < |out| ensures out[i] == Some(script.reply(|out| - 1 - i, prompts[i])) {
      var w: nat := |prompts| - 1 - i;
      var none: map<nat, nat> := map[];
      assert w !in none && i == |prompts| - 1 - w;
      assert out[|prompts| - 1 - w] == Some(script.reply(w, prompts[|prompts| - 1 - w]));
    }
  }

  /** How many of `n` questions go out: the clock is looked at before each, and the first look past the
      deadline, if there is one, is the last. */
  function Cutoff(late: nat -> bool, n: nat): (sent: nat)
    ensures sent <= n && (forall j :: 0 <= j < sent ==> !late(j)) && (sent == n || late(sent))
  {
    CutoffFrom(late, n, 0)
  }

  function CutoffFrom(late: nat -> bool, n: nat, k: nat): (sent: nat)
    requires k <= n
    ensures k <= sent <= n && forall j :: k <= j < sent ==> !late(j)
    ensures sent == n || late(sent)
    decreases n - k
  {
    if k == n || late(k) then k else CutoffFrom(late, n, k + 1)
  }

  lemma {:induction false} CutoffIs(late: nat -> bool, n: nat, k: nat, sent: nat)
    requires k <= sent <= n && (forall j :: k <= j < sent ==> !late(j)) && (sent == n || late(sent))
    ensures CutoffFrom(late, n, k) == sent
    decreases n - k
  {
    if k < sent {
      CutoffIs(late, n, k + 1, sent);
    }
  }

  /** While questions are left, every look so far sent one; none are left once all went out or a look
      was late. */
  ghost predicate Looked(late: nat -> bool, n: nat, sent: nat, left: nat, looks: nat) {
    && sent <= n && (forall j :: 0 <= j < sent ==> !late(j))
    && if left > 0 then looks == sent && left + sent == n else sent == n || late(sent)
  }

  lemma LookedLate(late: nat -> bool, n: nat, sent: nat, left: nat, looks: nat)
    requires Looked(late, n, sent, left, looks) && left > 0 && late(looks)
    ensures Looked(late, n, sent, 0, looks + 1)
  {
  }

  lemma LookedOnTime(late: nat -> bool, n: nat, sent: nat, left: nat, looks: nat, sent': nat, left': nat)
    requires Looked(late, n, sent, left, looks) && left > 0 && !late(looks)
    requires sent' == sent + 1 && left' == left - 1
    ensures Looked(late, n, sent', left', looks + 1)
  {
  }

  function Numbered(prompts: seq<Prompt>): (r: seq<(nat, Prompt)>)
    ensures |r| == |prompts| && forall j :: 0 <= j < |r| ==> r[j] == (j, prompts[j])
  {
    if prompts == [] then []
    else
      var n := |prompts| - 1;
      Numbered(prompts[..n]) + [(n, prompts[n])]
  }

  /** Whatever the engine's order of completion and whenever the deadline strikes: at most eight
      requests in flight, no prompt sent twice, every answer in its own slot, and the empty slots are
      the first ones. Exactly the questions before the first late look are sent, and all of those are
      answered. */
  method DrainAll(e: Engine, prompts: seq<Prompt>, late: nat -> bool) returns (out: seq<Option<Text>>)
    requires e.Valid() && e.submitted == [] && e.inFlight == map[] && e.peak == 0
    modifies e
    ensures SentFromTheEnd(prompts, e.submitted) && Drained(prompts, e.script, |e.submitted|, out)
    ensures e.peak <= CONCURRENCY && e.inFlight == map[]
    ensures |e.submitted| == Cutoff(late, |prompts|)
  {
    out := seq(|prompts|, i => None);
    var pending: map<nat, nat> := map[];
    var todo := Numbered(prompts);
    var looks := 0;
    while pending != map[] || todo != []
      invariant Kept(e, prompts, pending, todo, out)
      invariant Looked(late, |prompts|, |e.submitted|, |todo|, looks)
      decreases |todo|, if pending == map[] then 0 else e.horizon - e.clock
    {
      NextReady(e, prompts, pending, todo, out);
      pending, todo, looks := Fill(e, prompts, pending, todo, looks, late, out);
      pending, out := Tick(e, prompts, pending, todo, out);
    }
    BooksClosed(prompts, e.script, e.submitted, out);
    CutoffIs(late, |prompts|, 0, |e.submitted|);
  }

  /** What is in flight comes due after now. */
  lemma NextReady(e: Engine, prompts: seq<Prompt>, pending: map<nat, nat>, todo: seq<(nat, Prompt)>,
                  out: seq<Option<Text>>)
    requires Kept(e, prompts, pending, todo, out)
    ensures pending != map[] ==> e.clock < e.horizon
  {
    if pending != map[] {
      assert exists w :: w in pending;
      var w :| w in pending;
      assert w in e.inFlight;
    }
  }

  /** Sends prompts, last first, while fewer than eight are in flight and the deadline has not passed. */
  method Fill(e: Engine, prompts: seq<Prompt>, pending0: map<nat, nat>, todo0: seq<(nat, Prompt)>, looks0: nat,
              late: nat -> bool, ghost out: seq<Option<Text>>)
    returns (pending: map<nat, nat>, todo: seq<(nat, Prompt)>, looks: nat)
    requires Kept(e, prompts, pending0, todo0, out)
    requires Looked(late, |prompts|, |e.submitted|, |todo0|, looks0)
    modifies e
    ensures Kept(e, prompts, pending, todo, out)
    ensures e.clock == old(e.clock)
    ensures Looked(late, |prompts|, |e.submitted|, |todo|, looks)
    ensures |todo| < |todo0| || (todo == todo0 && pending == pending0 && e.horizon == old(e.horizon))
    ensures pending0 == map[] && todo0 != [] ==> |todo| < |todo0|
  {
    pending, todo, looks := pending0, todo0, looks0;
    while todo != [] && |pending.Keys| < CONCURRENCY
      invariant Kept(e, prompts, pending, todo, out)
      invariant e.clock == old(e.clock)
      invariant Looked(late, |prompts|, |e.submitted|, |todo|, looks)
      invariant |todo| < |todo0| || (todo == todo0 && pending == pending0 && e.horizon == old(e.horizon))
      decreases |todo|
    {
      var past := late(looks);
      if past {
        LookedLate(late, |prompts|, |e.submitted|, |todo|, looks);
        todo, looks := [], looks + 1;
        break;
      }
      LookedOnTime(late, |prompts|, |e.submitted|, |todo|, looks, |e.submitted| + 1, |todo| - 1);
      pending, todo := SendLast(e, prompts, pending, todo, out);
      looks := looks + 1;
    }
  }

  method SendLast(e: Engine, prompts: seq<Prompt>, pending0: map<nat, nat>, todo0: seq<(nat, Prompt)>,
                  ghost out: seq<Option<Text>>)
    returns (pending: map<nat, nat>, todo: seq<(nat, Prompt)>)
    requires Kept(e, prompts, pending0, todo0, out)
    requires todo0 != [] && |pending0.Keys| < CONCURRENCY
    modifies e
    ensures Kept(e, prompts, pending, todo, out)
    ensures todo == todo0[..|todo0| - 1] && e.submitted == old(e.submitted) + [todo0[|todo0| - 1].1]
    ensures |todo| == |todo0| - 1 && |e.submitted| == |old(e.submitted)| + 1
    ensures e.clock == old(e.clock)
  {
    var (i, p) := todo0[|todo0| - 1];
    todo := todo0[..|todo0| - 1];
    BooksSubmit(prompts, e.script, e.submitted, pending0, out, i);
    var w := e.Submit(p);
    pending := pending0[w := i];
  }

  /** A step, a poll, and the answers it brings. */
  method Tick(e: Engine, prompts: seq<Prompt>, pending0: map<nat, nat>, ghost todo: seq<(nat, Prompt)>,
              out0: seq<Option<Text>>)
    returns (pending: map<nat, nat>, out: seq<Option<Text>>)
    requires Kept(e, prompts, pending0, todo, out0)
    modifies e
    ensures Kept(e, prompts, pending, todo, out)
    ensures e.clock == old(e.clock) + 1 && e.horizon == old(e.horizon) && e.submitted == old(e.submitted)
    ensures pending0 == map[] ==> pending == map[]
    ensures pending != map[] ==> e.clock < e.horizon
  {
    var done := e.StepAndPoll();
    pending, out := Collect(prompts, e.script, e.submitted, pending0, done, out0);
    assert pending.Keys == e.inFlight.Keys;
    if pending != map[] {
      NextReady(e, prompts, pending, todo, out);
    }
  }

  /** Takes in the answers, in any order. */
  method Collect(prompts: seq<Prompt>, ghost script: Script, ghost submitted: seq<Prompt>, pending0: map<nat, nat>,
                 done: map<nat, Text>, out0: seq<Option<Text>>)
    returns (pending: map<nat, nat>, out: seq<Option<Text>>)
    requires done.Keys <= pending0.Keys
    requires forall w :: w in done ==> w < |submitted| && done[w] == script.reply(w, submitted[w])
    requires Books(prompts, script, submitted, pending0, out0)
    ensures pending == pending0 - done.Keys
    ensures Books(prompts, script, submitted, pending, out)
  {
    pending, out := pending0, out0;
    var left := done.Keys;
    while left != {}
      invariant left <= done.Keys && pending == pending0 - (done.Keys - left)
      invariant Books(prompts, script, submitted, pending, out)
      decreases left
    {
      var w :| w in left;
      BooksAnswer(prompts, script, submitted, pending, out, w);
      var idx := pending[w];
      pending := pending - {w};
      out := out[idx := Some(done[w])];
      left := left - {w};
    }
  }

  // ----- scoring

  /** Positions of the answered slots, ascending. */
  function DoneFrom(texts: seq<Option<Text>>, k: nat): seq<nat>
    requires k <= |texts|
    decreases |texts| - k
  {
    if k == |texts| then [] else (if texts[k].Some? then [k] else []) + DoneFrom(texts, k + 1)
  }

  function Done(texts: seq<Option<Text>>): seq<nat> { DoneFrom(texts, 0) }

  /** The answered positions of a drained arm are its last ones. */
  lemma {:induction false} DoneIsSuffix(texts: seq<Option<Text>>, m: nat, k: nat)
    requires m <= |texts| && k <= |texts|
    requires forall i :: 0 <= i < |texts| ==> (texts[i].Some? <==> m <= i)
    ensures var lo := if k < m then m else k;
      |DoneFrom(texts, k)| == |texts| - lo && forall j :: 0 <= j < |texts| - lo ==> DoneFrom(texts, k)[j] == lo + j
    decreases |texts| - k
  {
    if k < |texts| {
      DoneIsSuffix(texts, m, k + 1);
    }
  }

  /** One arm's answered positions and the letters read off them. */
  datatype Arm = Arm(doneIdx: seq<nat>, predictions: seq<char>)

  function Letters(texts: seq<Option<Text>>, idx: seq<nat>, letter: Text -> char): (r: seq<char>)
    requires forall j :: 0 <= j < |idx| ==> idx[j] < |texts| && texts[idx[j]].Some?
    ensures |r| == |idx| && forall j :: 0 <= j < |idx| ==> r[j] == letter(texts[idx[j]].value)
  {
    if idx == [] then [] else [letter(texts[idx[0]].value)] + Letters(texts, idx[1..], letter)
  }

  lemma {:induction false} DoneAreSome(texts: seq<Option<Text>>, k: nat)
    requires k <= |texts|
    ensures forall j :: 0 <= j < |DoneFrom(texts, k)| ==>
      k <= DoneFrom(texts, k)[j] < |texts| && texts[DoneFrom(texts, k)[j]].Some?
    decreases |texts| - k
  {
    if k < |texts| {
      DoneAreSome(texts, k + 1);
    }
  }

  function RunArm(texts: seq<Option<Text>>, letter: Text -> char): Arm {
    DoneAreSome(texts, 0);
    Arm(Done(texts), Letters(texts, Done(texts), letter))
  }

  ghost predicate WellFormed(a: Arm) {
    |a.doneIdx| == |a.predictions| && forall j, k :: 0 <= j < k < |a.doneIdx| ==> a.doneIdx[j] < a.doneIdx[k]
  }

  /** The dictionary from position to letter; a repeated position keeps its last letter. */
  function ByIndex(idx: seq<nat>, preds: seq<char>): map<nat, char>
    requires |idx| == |preds|
  {
    if idx == [] then map[]
    else ByIndex(idx[..|idx| - 1], preds[..|idx| - 1])[idx[|idx| - 1] := preds[|idx| - 1]]
  }

  lemma {:induction false} ByIndexAt(idx: seq<nat>, preds: seq<char>)
    requires |idx| == |preds| && forall j, k :: 0 <= j < k < |idx| ==> idx[j] < idx[k]
    ensures forall i :: i in ByIndex(idx, preds) <==> i in idx
    ensures forall j :: 0 <= j < |idx| ==> ByIndex(idx, preds)[idx[j]] == preds[j]
  {
    if idx != [] {
      var n := |idx| - 1;
      ByIndexAt(idx[..n], preds[..n]);
      assert idx == idx[..n] + [idx[n]];
      forall j | 0 <= j < |idx| ensures ByIndex(idx, preds)[idx[j]] == preds[j] {
        if j < n {
          assert idx[..n][j] == idx[j] && preds[..n][j] == preds[j];
        }
      }
    }
  }

  datatype Paired = Paired(nCommon: nat, sparseOnly: nat, denseOnly: nat)

  function Common(d: Arm, s: Arm): set<nat> {
    set i | i in d.doneIdx && i in s.doneIdx
  }

  /** Positions among `on` that an arm gets right. */
  function Right(on: set<nat>, answers: map<nat, char>, golds: seq<char>): set<nat>
    requires on <= answers.Keys && forall i :: i in on ==> i < |golds|
  {
    set i | i in on && answers[i] == golds[i]
  }

  /** Positions among `on` that one arm gets right and the other does not. */
  function OnlyRight(on: set<nat>, mine: map<nat, char>, other: map<nat, char>, golds: seq<char>): set<nat>
    requires on <= mine.Keys && on <= other.Keys && forall i :: i in on ==> i < |golds|
  {
    set i | i in on && mine[i] == golds[i] && other[i] != golds[i]
  }

  lemma OnlyRightIsDifference(on: set<nat>, x: map<nat, char>, y: map<nat, char>, golds: seq<char>)
    requires on <= x.Keys && on <= y.Keys && forall i :: i in on ==> i < |golds|
    ensures OnlyRight(on, x, y, golds) == Right(on, x, golds) - Right(on, y, golds)
  {
  }

  /** Discordant counts over the questions both arms answered; nothing when there is none. */
  function ReportPaired(d: Arm, s: Arm, golds: seq<char>): Option<Paired>
    requires WellFormed(d) && WellFormed(s)
    requires forall i :: i in Common(d, s) ==> i < |golds|
  {
    ByIndexAt(d.doneIdx, d.predictions);
    ByIndexAt(s.doneIdx, s.predictions);
    var common := Common(d, s);
    var dr, sr := ByIndex(d.doneIdx, d.predictions), ByIndex(s.doneIdx, s.predictions);
    if common == {} then None
    else
      Some(Paired(|common|, |OnlyRight(common, sr, dr, golds)|, |OnlyRight(common, dr, sr, golds)|))
  }

  /** The positions from `lo` to the end of `n`. */
  ghost function From(lo: nat, n: nat): (r: set<nat>)
    ensures forall i :: i in r <==> lo <= i < n
    ensures |r| == if lo < n then n - lo else 0
    decreases n - lo
  {
    if lo < n then {lo} + From(lo + 1, n) else {}
  }

  /** The positions from `lo` that a drained arm answers correctly, by what was replied to them. */
  ghost function Correct(lo: nat, texts: seq<Option<Text>>, letter: Text -> char, golds: seq<char>): set<nat>
    requires |texts| <= |golds|
  {
    set i: nat | lo <= i < |texts| && texts[i].Some? && letter(texts[i].value) == golds[i]
  }

  /** The dictionary holds the letter of every answered slot. */
  ghost predicate Answers(r: map<nat, char>, texts: seq<Option<Text>>, m: nat, letter: Text -> char) {
    && r.Keys == From(m, |texts|)
    && forall i :: 0 <= i < |texts| && i in r ==> texts[i].Some? && r[i] == letter(texts[i].value)
  }

  lemma SuffixIndices(idx: seq<nat>, m: nat, n: nat)
    requires m <= n && |idx| == n - m && forall j :: 0 <= j < |idx| ==> idx[j] == m + j
    ensures forall j, k :: 0 <= j < k < |idx| ==> idx[j] < idx[k]
    ensures forall i :: i in idx <==> m <= i < n
  {
    forall i | m <= i < n ensures i in idx {
      assert idx[i - m] == i;
    }
  }

  lemma SuffixAnswers(idx: seq<nat>, preds: seq<char>, texts: seq<Option<Text>>, m: nat, letter: Text -> char)
    requires m <= |texts| && forall i :: m <= i < |texts| ==> texts[i].Some?
    requires |preds| == |idx| == |texts| - m && forall j :: 0 <= j < |idx| ==> idx[j] == m + j
    requires forall j :: 0 <= j < |idx| ==> preds[j] == letter(texts[m + j].value)
    ensures Answers(ByIndex(idx, preds), texts, m, letter)
  {
    SuffixIndices(idx, m, |texts|);
    ByIndexAt(idx, preds);
    var r := ByIndex(idx, preds);
    forall i | m <= i < |texts| ensures i in r && r[i] == letter(texts[i].value) {
      assert idx[i - m] == i;
    }
  }

  lemma ArmOf(texts: seq<Option<Text>>, m: nat, letter: Text -> char)
    requires m <= |texts| && forall i :: 0 <= i < |texts| ==> (texts[i].Some? <==> m <= i)
    ensures WellFormed(RunArm(texts, letter))
    ensures forall i :: i in RunArm(texts, letter).doneIdx <==> m <= i < |texts|
    ensures Answers(ByIndex(RunArm(texts, letter).doneIdx, RunArm(texts, letter).predictions), texts, m, letter)
  {
    DoneIsSuffix(texts, m, 0);
    DoneAreSome(texts, 0);
    SuffixIndices(Done(texts), m, |texts|);
    SuffixAnswers(Done(texts), Letters(texts, Done(texts), letter), texts, m, letter);
  }

  lemma RightIsCorrect(texts: seq<Option<Text>>, m: nat, lo: nat, r: map<nat, char>, letter: Text -> char,
                       golds: seq<char>)
    requires m <= lo && |texts| == |golds| && Answers(r, texts, m, letter)
    ensures Right(From(lo, |golds|), r, golds) == Correct(lo, texts, letter, golds)
  {
  }

  /** Positions from `lo` on whose reply in one arm reads as the gold letter and in the other does not. */
  ghost function RightWrong(lo: nat, xt: seq<Option<Text>>, yt: seq<Option<Text>>, letter: Text -> char,
                            golds: seq<char>): set<nat>
  {
    set i: nat | lo <= i < |golds| && i < |xt| && i < |yt| && xt[i].Some? && yt[i].Some?
      && letter(xt[i].value) == golds[i] && letter(yt[i].value) != golds[i]
  }

  /** Each count is of the positions one arm has right and the other wrong; so their difference is the
      difference in correct answers. */
  ghost predicate CountsDiscordant(r: Paired, lo: nat, st: seq<Option<Text>>, dt: seq<Option<Text>>,
                                   letter: Text -> char, golds: seq<char>)
    requires |st| <= |golds| && |dt| <= |golds|
  {
    && r.sparseOnly == |RightWrong(lo, st, dt, letter, golds)|
    && r.denseOnly == |RightWrong(lo, dt, st, letter, golds)|
    && r.sparseOnly - r.denseOnly == |Correct(lo, st, letter, golds)| - |Correct(lo, dt, letter, golds)|
  }

  lemma RightWrongIsDifference(lo: nat, xt: seq<Option<Text>>, yt: seq<Option<Text>>, letter: Text -> char,
                               golds: seq<char>)
    requires |xt| == |yt| == |golds| && forall i :: lo <= i < |golds| ==> xt[i].Some? && yt[i].Some?
    ensures RightWrong(lo, xt, yt, letter, golds) == Correct(lo, xt, letter, golds) - Correct(lo, yt, letter, golds)
  {
  }

  /** The last positions of an arm, from `m` on, are the answered ones. */
  ghost predicate AnsweredFrom(texts: seq<Option<Text>>, m: nat) {
    m <= |texts| && forall i :: 0 <= i < |texts| ==> (texts[i].Some? <==> m <= i)
  }

  /** The report on two arms pairs exactly the positions from `lo` on; there is none when there are none,
      and its counts are of the positions one arm has right and the other wrong. */
  ghost predicate PairsFrom(dt: seq<Option<Text>>, st: seq<Option<Text>>, lo: nat, letter: Text -> char,
                            golds: seq<char>)
    requires |dt| == |st| == |golds|
  {
    var (d, s) := (RunArm(dt, letter), RunArm(st, letter));
    && WellFormed(d) && WellFormed(s) && Common(d, s) == From(lo, |golds|)
    && var r := ReportPaired(d, s, golds);
      && (r.None? <==> lo >= |golds|)
      && (r.Some? ==> r.value.nCommon == |golds| - lo && CountsDiscordant(r.value, lo, st, dt, letter, golds))
  }

  /** The counts of a report, from the dictionaries of its two arms. */
  lemma PairedCounts(dt: seq<Option<Text>>, st: seq<Option<Text>>, md: nat, ms: nat, lo: nat,
                     dr: map<nat, char>, sr: map<nat, char>, letter: Text -> char, golds: seq<char>)
    requires AnsweredFrom(dt, md) && AnsweredFrom(st, ms) && |dt| == |st| == |golds| && md <= lo && ms <= lo
    requires Answers(dr, dt, md, letter) && Answers(sr, st, ms, letter)
    ensures var on := From(lo, |golds|);
      CountsDiscordant(Paired(|on|, |OnlyRight(on, sr, dr, golds)|, |OnlyRight(on, dr, sr, golds)|),
                       lo, st, dt, letter, golds)
  {
    RightIsCorrect(dt, md, lo, dr, letter, golds);
    RightIsCorrect(st, ms, lo, sr, letter, golds);
    OnlyRightIsDifference(From(lo, |golds|), sr, dr, golds);
    OnlyRightIsDifference(From(lo, |golds|), dr, sr, golds);
    RightWrongIsDifference(lo, st, dt, letter, golds);
    RightWrongIsDifference(lo, dt, st, letter, golds);
    Discordant(Correct(lo, st, letter, golds), Correct(lo, dt, letter, golds));
  }

  /** Two drained arms over the same questions: the paired set is exactly what the arm with fewer
      answers answered, with each discordant count what it says. */
  lemma PairedIsShorterArm(dt: seq<Option<Text>>, st: seq<Option<Text>>, md: nat, ms: nat, lo: nat,
                           letter: Text -> char, golds: seq<char>)
    requires AnsweredFrom(dt, md) && AnsweredFrom(st, ms) && |dt| == |st| == |golds|
    requires lo == if md < ms then ms else md
    ensures PairsFrom(dt, st, lo, letter, golds)
  {
    var (d, s) := (RunArm(dt, letter), RunArm(st, letter));
    ArmOf(dt, md, letter);
    ArmOf(st, ms, letter);
    var (dr, sr) := (ByIndex(d.doneIdx, d.predictions), ByIndex(s.doneIdx, s.predictions));
    PairedCounts(dt, st, md, ms, lo, dr, sr, letter, golds);
  }

  lemma DrainedIsSuffix(prompts: seq<Prompt>, script: Script, sent: nat, out: seq<Option<Text>>)
    requires Drained(prompts, script, sent, out)
    ensures sent <= |out| && AnsweredFrom(out, |out| - sent)
  {
  }

  function Least(a: nat, b: nat): nat { if a < b then a else b }

  /** How many questions both arms answer, by their two clocks. */
  function Both(denseLate: nat -> bool, sparseLate: nat -> bool, n: nat): nat {
    Least(Cutoff(denseLate, n), Cutoff(sparseLate, n))
  }

  lemma BothAllIff(denseLate: nat -> bool, sparseLate: nat -> bool, n: nat)
    ensures Both(denseLate, sparseLate, n) == n <==> forall k :: 0 <= k < n ==> !denseLate(k) && !sparseLate(k)
  {
  }

  /** Two drains of the same questions, each through its own engine and cut off at its own deadline: as
      many questions are paired as went out before the earlier cut-off, and they are the last ones; each
      discordant count is of those one arm answered correctly and the other did not. */
  lemma DrainedArmsPair(prompts: seq<Prompt>, dense: Script, sparse: Script,
                        denseLate: nat -> bool, sparseLate: nat -> bool,
                        dt: seq<Option<Text>>, st: seq<Option<Text>>, lo: nat, letter: Text -> char, golds: seq<char>)
    requires |golds| == |prompts| && lo == |golds| - Both(denseLate, sparseLate, |prompts|)
    requires Drained(prompts, dense, Cutoff(denseLate, |prompts|), dt)
    requires Drained(prompts, sparse, Cutoff(sparseLate, |prompts|), st)
    ensures PairsFrom(dt, st, lo, letter, golds)
  {
    var (nd, ns) := (Cutoff(denseLate, |prompts|), Cutoff(sparseLate, |prompts|));
    DrainedIsSuffix(prompts, dense, nd, dt);
    DrainedIsSuffix(prompts, sparse, ns, st);
    PairedIsShorterArm(dt, st, |dt| - nd, |st| - ns, lo, letter, golds);
  }
}
