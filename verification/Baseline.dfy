/** The bench baseline: the gate that seeds, passes or fails a measurement against it, the shared
    copy that sessions merge into, and the pull that brings the shared rows home. */
module Baseline {

  import opened Prelude

  /** A stray row has no tok/s. */
  datatype Row = Row(tokS: Option<real>, commit: Option<string>, date: string)

  type Rows = map<string, Row>

  // ----- the gate

  const GATE: real := 0.97
  const RAISE: real := 1.02

  datatype Measurement = Measurement(suite: string, shape: string, tokS: real, unit: string, spread: real)

  /** `Raises` is the KeyError of comparing against a stray row. */
  datatype Verdict = Seed | Noisy | Beat | Pass | Fail | Raises

  datatype Report = Report(key: string, tokS: real, unit: string, baseline: real, ratio: real, verdict: Verdict)

  /** A row proposed for review, with the row it would replace. */
  datatype Candidate = Candidate(row: Row, standing: Row)

  type Candidates = map<string, Candidate>

  datatype GateState = GateState(baseline: Rows, candidates: Candidates, rows: seq<Report>, failed: bool, dirty: bool)

  datatype Config = Config(target: string, seedOnly: bool, commit: string, date: string)

  function Key(m: Measurement, target: string): string {
    m.suite + "/" + m.shape + "/" + target
  }

  function Lookup(rows: Rows, key: string): Option<Row> {
    if key in rows then Some(rows[key]) else None
  }

  /** The verdict on a measurement given the baseline row, if any. */
  function Judge(prev: Option<Row>, seedOnly: bool, tokS: real, spread: real): Verdict {
    if prev.None? || seedOnly then
      if spread > RAISE - 1.0 then Noisy else Seed
    else if prev.value.tokS.None? then Raises
    else
      var base := prev.value.tokS.value;
      if tokS > base * RAISE && spread <= RAISE - 1.0 then Beat
      else if tokS >= base * GATE then Pass
      else Fail
  }

  /** What `check` returns or raises: re-seeding over a stray row raises when it comes to report. */
  function Outcome(prev: Option<Row>, seedOnly: bool, tokS: real, spread: real): Verdict {
    var v := Judge(prev, seedOnly, tokS, spread);
    if v.Seed? && prev.Some? && prev.value.tokS.None? then Raises else v
  }

  function Ratio(tokS: real, base: real): real {
    if base == 0.0 then 0.0 else tokS / base
  }

  /** One line of the summary. */
  function Line(key: string, m: Measurement, base: real, v: Verdict): Report {
    Report(key, m.tokS, m.unit, base, Ratio(m.tokS, base), v)
  }

  /** The whole new state of the gate after one check. */
  function CheckStep(c: Config, s: GateState, m: Measurement): GateState {
    var key := Key(m, c.target);
    var prev := Lookup(s.baseline, key);
    var v := Judge(prev, c.seedOnly, m.tokS, m.spread);
    if v.Noisy? || v.Raises? then s
    else
      var row := Row(Some(m.tokS), Some(c.commit), c.date);
      GateState(
        if v.Seed? then s.baseline[key := row] else s.baseline,
        if v.Beat? then s.candidates[key := Candidate(row, prev.value)] else s.candidates,
        if prev.None? then s.rows + [Line(key, m, m.tokS, v)]
        else if prev.value.tokS.None? then s.rows
        else s.rows + [Line(key, m, prev.value.tokS.value, v)],
        s.failed || (v.Fail? && c.target != "cpu"),
        s.dirty || v.Seed?)
  }

  /** The rule in numbers: a missing row is seeded unless the spread is over 2%; a row in force is beaten
      by more than 2% at a spread of at most 2%, passed at 97% of it or more, and failed below. */
  ghost predicate ByTheNumbers(prev: Option<Row>, reseed: bool, tokS: real, spread: real, v: Verdict) {
    && (prev.None? ==> v == if spread > 0.02 then Noisy else Seed)
    && (prev.Some? && reseed ==> (v == Noisy <==> spread > 0.02) && (v == Noisy || v == Seed || v == Raises))
    && (prev.Some? && reseed && spread <= 0.02 ==> (v == Raises <==> prev.value.tokS.None?))
    && (prev.Some? && !reseed && prev.value.tokS.None? ==> v == Raises)
    && (prev.Some? && !reseed && prev.value.tokS.Some? ==> Graded(prev.value.tokS.value, tokS, spread, v))
  }

  ghost predicate Graded(base: real, tokS: real, spread: real, v: Verdict) {
    && (v == Beat <==> Beaten(base, tokS, spread))
    && (v == Pass <==> !Beaten(base, tokS, spread) && tokS >= 0.97 * base)
    && (v == Fail <==> !Beaten(base, tokS, spread) && tokS < 0.97 * base)
  }

  ghost predicate Beaten(base: real, tokS: real, spread: real) {
    tokS > 1.02 * base && spread <= 0.02
  }

  /** What one check leaves, field by field. */
  ghost predicate CheckLeaves(c: Config, before: GateState, after: GateState, m: Measurement, v: Verdict) {
    var key := m.suite + "/" + m.shape + "/" + c.target;
    var (had, row) := (key in before.baseline, Row(Some(m.tokS), Some(c.commit), c.date));
    var seeds := (!had || c.seedOnly) && m.spread <= 0.02;
    && after.baseline == (if seeds then before.baseline[key := row] else before.baseline)
    && after.dirty == (before.dirty || seeds)
    && after.candidates == (if v == Beat && had then before.candidates[key := Candidate(row, before.baseline[key])]
                            else before.candidates)
    && (v == Beat ==> had)
    && after.failed == (before.failed || (v == Fail && c.target != "cpu"))
    && (v == Noisy || v == Raises ==> after.rows == before.rows)
    && (v != Noisy && v != Raises ==> Reported(before, after, m, v, key))
  }

  /** One line more, against the row in force or, for a first seed, against itself. */
  ghost predicate Reported(before: GateState, after: GateState, m: Measurement, v: Verdict, key: string) {
    && |after.rows| == |before.rows| + 1 && after.rows[..|before.rows|] == before.rows
    && var r := after.rows[|before.rows|];
      && r.key == key && r.tokS == m.tokS && r.unit == m.unit && r.verdict == v
      && (key !in before.baseline ==> r.baseline == m.tokS)
      && (key in before.baseline ==> before.baseline[key].tokS == Some(r.baseline))
      && (r.baseline == 0.0 ==> r.ratio == 0.0) && (r.baseline != 0.0 ==> r.ratio == m.tokS / r.baseline)
  }

  lemma OutcomeByTheNumbers(prev: Option<Row>, reseed: bool, tokS: real, spread: real)
    ensures ByTheNumbers(prev, reseed, tokS, spread, Outcome(prev, reseed, tokS, spread))
  {
  }

  lemma CheckStepLeaves(c: Config, s: GateState, m: Measurement)
    ensures CheckLeaves(c, s, CheckStep(c, s, m), m,
                        Outcome(Lookup(s.baseline, Key(m, c.target)), c.seedOnly, m.tokS, m.spread))
  {
  }

  class Gate {
    const c: Config
    var baseline: Rows
    var candidates: Candidates
    var rows: seq<Report>
    var failed: bool
    var dirty: bool

    function View(): GateState
      reads this
    {
      GateState(baseline, candidates, rows, failed, dirty)
    }

    constructor (c: Config, baseline: Rows)
      ensures this.c == c && View() == GateState(baseline, map[], [], false, false)
    {
      this.c, this.baseline := c, baseline;
      candidates, rows, failed, dirty := map[], [], false, false;
    }

    method Check(m: Measurement) returns (v: Verdict)
      modifies this
      ensures v == Outcome(Lookup(old(baseline), Key(m, c.target)), c.seedOnly, m.tokS, m.spread)
      ensures View() == CheckStep(c, old(View()), m)
      ensures ByTheNumbers(Lookup(old(baseline), m.suite + "/" + m.shape + "/" + c.target), c.seedOnly,
                           m.tokS, m.spread, v)
      ensures CheckLeaves(c, old(View()), View(), m, v)
    {
      v := Decide(m);
      OutcomeByTheNumbers(Lookup(old(baseline), Key(m, c.target)), c.seedOnly, m.tokS, m.spread);
      CheckStepLeaves(c, old(View()), m);
    }

    method Decide(m: Measurement) returns (v: Verdict)
      modifies this
      ensures v == Outcome(Lookup(old(baseline), Key(m, c.target)), c.seedOnly, m.tokS, m.spread)
      ensures View() == CheckStep(c, old(View()), m)
    {
      var key := m.suite + "/" + m.shape + "/" + c.target;
      var prev := Lookup(baseline, key);
      if prev.None? || c.seedOnly {
        if m.spread > RAISE - 1.0 {
          return Noisy;
        }
        baseline := baseline[key := Row(Some(m.tokS), Some(c.commit), c.date)];
        dirty := true;
        v := Seed;
      } else if prev.value.tokS.None? {
        return Raises;
      } else if m.tokS > prev.value.tokS.value * RAISE && m.spread <= RAISE - 1.0 {
        candidates := candidates[key := Candidate(Row(Some(m.tokS), Some(c.commit), c.date), prev.value)];
        v := Beat;
      } else if m.tokS >= prev.value.tokS.value * GATE {
        v := Pass;
      } else {
        v := Fail;
        if c.target != "cpu" {
          failed := true;
        }
      }
      if prev.Some? && prev.value.tokS.None? {
        return Raises;
      }
      rows := rows + [Line(key, m, if prev.Some? then prev.value.tokS.value else m.tokS, v)];
    }

    /** Seeds go to the tracked file and, merged, to the shared one where its directory exists;
        candidates go to their own file when a path for it is given, and to neither baseline. */
    method Finish(tracked: Rows, shared: Option<Rows>, candidatePath: bool)
      returns (rc: int, tracked': Rows, shared': Option<Rows>, proposed: Option<Candidates>)
      ensures rc == if failed then 1 else 0
      ensures tracked' == if dirty then baseline else tracked
      ensures shared' == if dirty && shared.Some? then Some(Merge(shared.value, baseline)) else shared
      ensures proposed == if candidates != map[] && candidatePath then Some(candidates) else None
    {
      tracked', shared', proposed := tracked, shared, None;
      if dirty {
        tracked' := baseline;
        if shared.Some? {
          var merged, raised := MergeInto(shared.value, baseline);
          shared' := Some(merged);
        }
      }
      if candidates != map[] && candidatePath {
        proposed := Some(candidates);
      }
      rc := if failed then 1 else 0;
    }
  }

  /** Over any sequence of checks the candidates are rows that beat the row in force, each with that row. */
  lemma {:induction false} CandidatesBeat(c: Config, s: GateState, ms: seq<Measurement>, key: string)
    requires !c.seedOnly && s.candidates == map[] && key in Checks(c, s, ms).candidates
    ensures var x := Checks(c, s, ms).candidates[key];
      && Effective(c, s.baseline, ms, key) == Some(x.standing)
      && x.row.tokS.Some? && x.standing.tokS.Some? && x.row.tokS.value > x.standing.tokS.value * RAISE
    decreases |ms|
  {
    if ms != [] {
      var init, m := ms[..|ms| - 1], ms[|ms| - 1];
      BaselineIsSeededOnce(c, s, init, key);
      BaselineIsSeededOnce(c, s, ms, key);
      if key in Checks(c, s, init).candidates {
        CandidatesBeat(c, s, init, key);
      }
    }
  }

  function Checks(c: Config, s: GateState, ms: seq<Measurement>): GateState {
    if ms == [] then s else CheckStep(c, Checks(c, s, ms[..|ms| - 1]), ms[|ms| - 1])
  }

  /** The first measurement of a key that is quiet enough to seed. */
  function FirstQuiet(c: Config, ms: seq<Measurement>, key: string): (r: Option<Measurement>)
    ensures r.None? ==> forall i :: 0 <= i < |ms| ==> !Quiet(c, ms[i], key)
    ensures r.Some? ==> exists i :: FirstAt(c, ms, key, i) && ms[i] == r.value
  {
    if ms == [] then None
    else
      var r := FirstQuiet(c, ms[..|ms| - 1], key);
      var m := ms[|ms| - 1];
      if r.Some? then
        ghost var i :| FirstAt(c, ms[..|ms| - 1], key, i) && ms[..|ms| - 1][i] == r.value;
        assert FirstAt(c, ms, key, i);
        r
      else if Key(m, c.target) == key && m.spread <= RAISE - 1.0 then
        assert FirstAt(c, ms, key, |ms| - 1);
        Some(m)
      else None
  }

  /** A measurement of the key at a spread of at most 2%. */
  ghost predicate Quiet(c: Config, m: Measurement, key: string) {
    m.suite + "/" + m.shape + "/" + c.target == key && m.spread <= 0.02
  }

  ghost predicate FirstAt(c: Config, ms: seq<Measurement>, key: string, i: int) {
    0 <= i < |ms| && Quiet(c, ms[i], key) && forall j :: 0 <= j < i ==> !Quiet(c, ms[j], key)
  }

  /** The row a key is judged against after a sequence of checks: what the baseline had, or else the
      first quiet measurement. */
  function Effective(c: Config, baseline: Rows, ms: seq<Measurement>, key: string): Option<Row> {
    if key in baseline then Some(baseline[key])
    else
      var q := FirstQuiet(c, ms, key);
      if q.Some? then Some(Row(Some(q.value.tokS), Some(c.commit), c.date)) else None
  }

  /** Without reseed: no row the baseline had ever changes, and a missing key holds its first quiet
      measurement, whatever was measured later. */
  lemma {:induction false} BaselineIsSeededOnce(c: Config, s: GateState, ms: seq<Measurement>, key: string)
    requires !c.seedOnly
    ensures Lookup(Checks(c, s, ms).baseline, key) == Effective(c, s.baseline, ms, key)
    decreases |ms|
  {
    if ms != [] {
      var m := ms[|ms| - 1];
      BaselineIsSeededOnce(c, s, ms[..|ms| - 1], key);
    }
  }

  /** The measurement falls below 97% of the row in force and does not beat it. */
  ghost predicate Regresses(standing: Option<Row>, m: Measurement) {
    && standing.Some? && standing.value.tokS.Some?
    && m.tokS < 0.97 * standing.value.tokS.value && !Beaten(standing.value.tokS.value, m.tokS, m.spread)
  }

  /** The run fails, off CPU, exactly when some measurement regresses against the row in force when it was
      taken; on CPU it never does. The tracked file is rewritten exactly when some measurement found no
      row and was quiet. */
  lemma {:induction false} RunFailsIff(c: Config, s: GateState, ms: seq<Measurement>)
    requires !c.seedOnly && !s.failed && !s.dirty
    ensures Checks(c, s, ms).failed <==> c.target != "cpu" && exists i :: RegressesAt(c, s.baseline, ms, i)
    ensures Checks(c, s, ms).dirty <==> exists i :: SeedsAt(c, s.baseline, ms, i)
    decreases |ms|
  {
    if ms != [] {
      var last := |ms| - 1;
      var init, m := ms[..last], ms[last];
      RunFailsIff(c, s, init);
      BaselineIsSeededOnce(c, s, init, Key(m, c.target));
      LastCheck(c, Checks(c, s, init), m, Effective(c, s.baseline, init, Key(m, c.target)));
      RegressesSoFar(c, s.baseline, ms, init);
      SeedsSoFar(c, s.baseline, ms, init);
    }
  }

  /** What one more check does to the two flags. */
  lemma LastCheck(c: Config, s: GateState, m: Measurement, standing: Option<Row>)
    requires !c.seedOnly && standing == Lookup(s.baseline, Key(m, c.target))
    ensures CheckStep(c, s, m).failed <==> s.failed || (c.target != "cpu" && Regresses(standing, m))
    ensures CheckStep(c, s, m).dirty <==> s.dirty || (standing.None? && m.spread <= 0.02)
  {
    OutcomeByTheNumbers(standing, false, m.tokS, m.spread);
  }

  lemma RegressesSoFar(c: Config, baseline: Rows, ms: seq<Measurement>, init: seq<Measurement>)
    requires ms != [] && init == ms[..|ms| - 1]
    ensures (exists i :: RegressesAt(c, baseline, ms, i)) <==>
            (exists i :: RegressesAt(c, baseline, init, i)) || RegressesAt(c, baseline, ms, |ms| - 1)
  {
    forall i | 0 <= i < |ms| - 1 ensures RegressesAt(c, baseline, ms, i) <==> RegressesAt(c, baseline, init, i) {
      assert init[..i] == ms[..i];
    }
  }

  lemma SeedsSoFar(c: Config, baseline: Rows, ms: seq<Measurement>, init: seq<Measurement>)
    requires ms != [] && init == ms[..|ms| - 1]
    ensures (exists i :: SeedsAt(c, baseline, ms, i)) <==>
            (exists i :: SeedsAt(c, baseline, init, i)) || SeedsAt(c, baseline, ms, |ms| - 1)
  {
    forall i | 0 <= i < |ms| - 1 ensures SeedsAt(c, baseline, ms, i) <==> SeedsAt(c, baseline, init, i) {
      assert init[..i] == ms[..i];
    }
  }

  ghost predicate RegressesAt(c: Config, baseline: Rows, ms: seq<Measurement>, i: int) {
    0 <= i < |ms| && Regresses(Effective(c, baseline, ms[..i], Key(ms[i], c.target)), ms[i])
  }

  ghost predicate SeedsAt(c: Config, baseline: Rows, ms: seq<Measurement>, i: int) {
    0 <= i < |ms| && Effective(c, baseline, ms[..i], Key(ms[i], c.target)).None? && ms[i].spread <= 0.02
  }

  /** A run never lowers what it is gated on: with only beats and passes the baseline is as it was. */
  lemma {:induction false} BeatsAreNotWritten(c: Config, s: GateState, ms: seq<Measurement>)
    requires !c.seedOnly && !s.failed && !s.dirty
    requires forall m :: m in ms ==> Key(m, c.target) in s.baseline
    ensures Checks(c, s, ms).baseline == s.baseline && !Checks(c, s, ms).dirty
  {
    if ms != [] {
      var init, m := ms[..|ms| - 1], ms[|ms| - 1];
      assert m in ms;
      BeatsAreNotWritten(c, s, init);
    }
  }

  // ----- merging into the shared copy

  function Score(r: Row): real {
    if r.tokS.Some? then r.tokS.value else 0.0
  }

  function Better(cur: Option<Row>, v: Row): bool {
    cur.None? || Score(v) > Score(cur.value)
  }

  function Merge(have: Rows, rows: Rows): Rows {
    map k | k in have.Keys + rows.Keys ::
      if k in rows && Better(Lookup(have, k), rows[k]) then rows[k] else have[k]
  }

  /** The keys among `done` that a merge raises or adds. */
  ghost function Raised(have: Rows, rows: Rows, done: set<string>): set<string> {
    set k | k in done && k in rows && Better(Lookup(have, k), rows[k])
  }

  lemma RaisedNext(have: Rows, rows: Rows, done: set<string>, k: string)
    requires k in rows && k !in done
    ensures |Raised(have, rows, done + {k})|
         == |Raised(have, rows, done)| + if Better(Lookup(have, k), rows[k]) then 1 else 0
  {
    if Better(Lookup(have, k), rows[k]) {
      assert Raised(have, rows, done + {k}) == Raised(have, rows, done) + {k};
    } else {
      assert Raised(have, rows, done + {k}) == Raised(have, rows, done);
    }
  }

  /** The merge so far, over the keys already visited. */
  ghost predicate MergedOver(merged: Rows, have: Rows, rows: Rows, done: set<string>) {
    && merged.Keys == have.Keys + (done * rows.Keys)
    && forall k :: k in merged ==>
      merged[k] == if k in done && k in rows && Better(Lookup(have, k), rows[k]) then rows[k] else have[k]
  }

  /** One row offered to the shared copy. */
  method MergeRow(merged: Rows, raised: nat, k: string, v: Row, ghost have: Rows, ghost rows: Rows,
                  ghost done: set<string>)
    returns (merged': Rows, raised': nat)
    requires k in rows && v == rows[k] && k !in done && MergedOver(merged, have, rows, done)
    requires raised == |Raised(have, rows, done)|
    ensures MergedOver(merged', have, rows, done + {k})
    ensures raised' == |Raised(have, rows, done + {k})|
  {
    var cur := Lookup(merged, k);
    RaisedNext(have, rows, done, k);
    merged', raised' := merged, raised;
    if cur.None? || Score(v) > Score(cur.value) {
      merged', raised' := merged[k := v], raised + 1;
    }
    assert merged'.Keys == have.Keys + ((done + {k}) * rows.Keys);
  }

  /** Merge row by row, in any order of the keys; counts the rows raised or added. */
  method MergeInto(have: Rows, rows: Rows) returns (merged: Rows, raised: nat)
    ensures merged == Merge(have, rows)
    ensures raised == |set k | k in rows && (k !in have || Above(rows[k].tokS, have[k].tokS))|
  {
    merged, raised := MergeRows(have, rows);
    RaisedByTheNumbers(have, rows);
  }

  method MergeRows(have: Rows, rows: Rows) returns (merged: Rows, raised: nat)
    ensures merged == Merge(have, rows) && raised == |Raised(have, rows, rows.Keys)|
  {
    merged, raised := have, 0;
    var todo := rows.Keys;
    ghost var done: set<string> := {};
    while todo != {}
      invariant todo <= rows.Keys && done == rows.Keys - todo
      invariant raised == |Raised(have, rows, done)|
      invariant MergedOver(merged, have, rows, done)
      decreases todo
    {
      var k :| k in todo;
      merged, raised := MergeRow(merged, raised, k, rows[k], have, rows, done);
      assert rows.Keys - (todo - {k}) == done + {k};
      todo := todo - {k};
      done := done + {k};
    }
    assert done == rows.Keys;
    MergedAll(merged, have, rows);
  }

  /** One tok/s is higher than another, none counting as 0. */
  ghost predicate Above(x: Option<real>, y: Option<real>) {
    (if x.Some? then x.value else 0.0) > (if y.Some? then y.value else 0.0)
  }

  lemma RaisedByTheNumbers(have: Rows, rows: Rows)
    ensures Raised(have, rows, rows.Keys) == set k | k in rows && (k !in have || Above(rows[k].tokS, have[k].tokS))
  {
  }

  lemma MergedAll(merged: Rows, have: Rows, rows: Rows)
    requires MergedOver(merged, have, rows, rows.Keys)
    ensures merged == Merge(have, rows)
  {
    assert merged.Keys == Merge(have, rows).Keys;
  }

  /** The merge in numbers: a key is kept or added, the offered row standing exactly when there was none or
      it has the higher tok/s; a row without tok/s counts as 0. */
  lemma MergeByTheNumbers(have: Rows, rows: Rows, k: string)
    ensures k in Merge(have, rows) <==> k in have || k in rows
    ensures k in have && k !in rows ==> Merge(have, rows)[k] == have[k]
    ensures k !in have && k in rows ==> Merge(have, rows)[k] == rows[k]
    ensures k in have && k in rows ==> Wins(Merge(have, rows)[k], have[k].tokS, rows[k].tokS, have[k], rows[k])
  {
  }

  ghost predicate Wins(w: Row, was: Option<real>, now: Option<real>, kept: Row, offered: Row) {
    match (was, now)
    case (Some(x), Some(y)) => w == if y > x then offered else kept
    case (Some(x), None) => w == if 0.0 > x then offered else kept
    case (None, Some(y)) => w == if y > 0.0 then offered else kept
    case (None, None) => w == kept
  }

  function MergeAll(have: Rows, batches: seq<Rows>): Rows {
    if batches == [] then have else Merge(MergeAll(have, batches[..|batches| - 1]), batches[|batches| - 1])
  }

  /** `best` is the highest score a key was ever offered with. */
  ghost predicate IsBest(have: Rows, batches: seq<Rows>, key: string, best: real) {
    && (key in have ==> Score(have[key]) <= best)
    && (forall b :: b in batches && key in b ==> Score(b[key]) <= best)
    && ((key in have && Score(have[key]) == best) || exists b :: b in batches && key in b && Score(b[key]) == best)
  }

  /** After any sequence of merges a key is present iff it was ever offered, at the best score ever offered. */
  lemma {:induction false} MergeKeepsTheBest(have: Rows, batches: seq<Rows>, key: string)
    ensures key in MergeAll(have, batches) <==> key in have || exists b :: b in batches && key in b
    ensures key in MergeAll(have, batches) ==> IsBest(have, batches, key, Score(MergeAll(have, batches)[key]))
    decreases |batches|
  {
    if batches != [] {
      var init, last := batches[..|batches| - 1], batches[|batches| - 1];
      MergeKeepsTheBest(have, init, key);
      assert forall b :: b in batches <==> b in init || b == last;
    }
  }

  /** The order sessions merge in does not matter to any key's score. */
  lemma MergeOrderIrrelevant(have: Rows, a: seq<Rows>, b: seq<Rows>, key: string)
    requires forall x :: x in a <==> x in b
    ensures key in MergeAll(have, a) <==> key in MergeAll(have, b)
    ensures key in MergeAll(have, a) ==> Score(MergeAll(have, a)[key]) == Score(MergeAll(have, b)[key])
  {
    MergeKeepsTheBest(have, a, key);
    MergeKeepsTheBest(have, b, key);
  }

  /** Merging again what was already merged changes nothing. */
  lemma MergeIdempotent(have: Rows, batches: seq<Rows>, again: Rows)
    requires again in batches
    ensures Merge(MergeAll(have, batches), again) == MergeAll(have, batches)
  {
    var m := MergeAll(have, batches);
    forall k | k in again ensures k in m && !Better(Lookup(m, k), again[k]) {
      MergeKeepsTheBest(have, batches, k);
    }
    assert Merge(m, again).Keys == m.Keys;
  }

  // ----- pulling the shared copy

  function Known(c: Option<string>): bool {
    c.Some? && c.value != "" && c.value != "unknown"
  }

  /** The pod row is stale: its commit is a proper ancestor of the local row's. */
  function LocalIsNewer(ancestor: (string, string) -> bool, remote: Option<string>, local: Option<string>): bool {
    Known(remote) && Known(local) && remote != local && ancestor(remote.value, local.value)
  }

  /** The remote rows that take part: those with a tok/s. */
  function Mergeable(remote: Rows): Rows {
    map k | k in remote && remote[k].tokS.Some? :: remote[k]
  }

  /** What one key becomes. */
  function PullRow(ancestor: (string, string) -> bool, cur: Option<Row>, v: Row): Row
    requires v.tokS.Some? && (cur.Some? ==> cur.value.tokS.Some?)
  {
    if cur.Some? && LocalIsNewer(ancestor, v.commit, cur.value.commit) then cur.value
    else if cur.None? || v.tokS.value > cur.value.tokS.value then v
    else cur.value
  }

  /** A local row without tok/s that a remote row has to be compared with stops the pull. */
  predicate PullRaises(local: Rows, remote: Rows) {
    exists k :: k in Mergeable(remote) && k in local && local[k].tokS.None?
  }

  /** The local rows after a pull that does not raise. */
  function Pulled(ancestor: (string, string) -> bool, local: Rows, remote: Rows): Rows
    requires !PullRaises(local, remote)
  {
    map k | k in local.Keys + Mergeable(remote).Keys ::
      if k in Mergeable(remote) then PullRow(ancestor, Lookup(local, k), Mergeable(remote)[k]) else local[k]
  }

  /** The local rows once the remote rows outside `todo` have been visited. */
  ghost predicate PulledOver(ancestor: (string, string) -> bool, after: Rows, local: Rows, rows: Rows,
                             todo: set<string>)
  {
    && after.Keys == local.Keys + (rows.Keys - todo)
    && (forall k :: k in rows && k !in todo && k in local ==> local[k].tokS.Some?)
    && forall k :: k in after ==>
      if k in rows && k !in todo && rows[k].tokS.Some? && (k in local ==> local[k].tokS.Some?)
      then after[k] == PullRow(ancestor, Lookup(local, k), rows[k])
      else k in local && after[k] == local[k]
  }

  /** One remote row. */
  method PullOne(ancestor: (string, string) -> bool, before: Rows, k: string, v: Row,
                 ghost local: Rows, ghost rows: Rows, ghost todo: set<string>)
    returns (raises: bool, after: Rows)
    requires k in rows && k in todo && v == rows[k] && v.tokS.Some? && PulledOver(ancestor, before, local, rows, todo)
    ensures raises <==> k in local && local[k].tokS.None?
    ensures !raises ==> PulledOver(ancestor, after, local, rows, todo - {k})
  {
    var cur := Lookup(before, k);
    raises, after := false, before;
    assert cur == Lookup(local, k);
    if cur.Some? && cur.value.tokS.None? {
      return true, before;
    }
    if cur.Some? && LocalIsNewer(ancestor, v.commit, cur.value.commit) {
    } else if cur.None? || v.tokS.value > cur.value.tokS.value {
      after := before[k := v];
    }
  }

  /** The pull loop over the remote rows, in any order; nothing is written when it raises. */
  method Pull(ancestor: (string, string) -> bool, local: Rows, remote: Rows) returns (raises: bool, after: Rows)
    ensures raises <==> PullRaises(local, remote)
    ensures after == if raises then local else Pulled(ancestor, local, remote)
  {
    var rows := Mergeable(remote);
    var todo := rows.Keys;
    after := local;
    while todo != {}
      invariant todo <= rows.Keys && PulledOver(ancestor, after, local, rows, todo)
      decreases todo
    {
      var k :| k in todo;
      raises, after := PullOne(ancestor, after, k, rows[k], local, rows, todo);
      if raises {
        return true, local;
      }
      todo := todo - {k};
    }
    raises := false;
    PulledAll(ancestor, after, local, remote);
  }

  lemma PulledAll(ancestor: (string, string) -> bool, after: Rows, local: Rows, remote: Rows)
    requires PulledOver(ancestor, after, local, Mergeable(remote), {})
    ensures !PullRaises(local, remote) && after == Pulled(ancestor, local, remote)
  {
    assert after.Keys == Pulled(ancestor, local, remote).Keys;
  }

  /** A pull never removes a row, never lowers one, leaves a row the repo corrected later alone, and
      takes the better of the two otherwise. */
  lemma PullNeverLowers(ancestor: (string, string) -> bool, local: Rows, remote: Rows, k: string)
    requires !PullRaises(local, remote)
    ensures k in local ==> k in Pulled(ancestor, local, remote)
    ensures k in local && k in Mergeable(remote) ==>
      var after := Pulled(ancestor, local, remote)[k];
      && after.tokS.Some? && local[k].tokS.Some? && after.tokS.value >= local[k].tokS.value
      && (LocalIsNewer(ancestor, remote[k].commit, local[k].commit) ==> after == local[k])
      && (!LocalIsNewer(ancestor, remote[k].commit, local[k].commit) ==> after.tokS.value >= remote[k].tokS.value)
  {
  }

  /** The pull in numbers. A remote row without tok/s takes no part; one that meets a local row stands
      aside when its commit and the local one are known, differ, and it is the ancestor; otherwise the
      higher tok/s wins, the local row on a tie. */
  lemma PullByTheNumbers(ancestor: (string, string) -> bool, local: Rows, remote: Rows, k: string)
    requires !PullRaises(local, remote)
    ensures k in Pulled(ancestor, local, remote) <==> k in local || (k in remote && remote[k].tokS.Some?)
    ensures k in local && (k !in remote || remote[k].tokS.None?) ==> Pulled(ancestor, local, remote)[k] == local[k]
    ensures k !in local && k in remote && remote[k].tokS.Some? ==> Pulled(ancestor, local, remote)[k] == remote[k]
    ensures k in local && k in remote && remote[k].tokS.Some? ==>
      local[k].tokS.Some? && PullWins(ancestor, Pulled(ancestor, local, remote)[k], local[k], remote[k])
  {
  }

  ghost predicate PullWins(ancestor: (string, string) -> bool, w: Row, l: Row, r: Row)
    requires l.tokS.Some? && r.tokS.Some?
  {
    var held := l.commit.Some? && r.commit.Some?
      && l.commit.value !in {"", "unknown"} && r.commit.value !in {"", "unknown"}
      && l.commit.value != r.commit.value && ancestor(r.commit.value, l.commit.value);
    w == if !held && r.tokS.value > l.tokS.value then r else l
  }

  /** A second pull of the same snapshot changes nothing, held rows included. */
  lemma PullIdempotent(ancestor: (string, string) -> bool, local: Rows, remote: Rows)
    requires !PullRaises(local, remote)
    ensures !PullRaises(Pulled(ancestor, local, remote), remote)
    ensures Pulled(ancestor, Pulled(ancestor, local, remote), remote) == Pulled(ancestor, local, remote)
  {
    var once := Pulled(ancestor, local, remote);
    forall k | k in Mergeable(remote)
      ensures once[k].tokS.Some? && PullRow(ancestor, Some(once[k]), Mergeable(remote)[k]) == once[k]
    {
    }
    assert Pulled(ancestor, once, remote).Keys == once.Keys;
  }
}
