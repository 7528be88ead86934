/** The cold-tier phase report: steady ticks out of a log, an optional window or a decode-forward
    cut, the identity that bridges trace and log, and the split into a phase before and a phase
    after the first tick that reads from disk. */
module PhaseReport {

  import opened Prelude

  datatype Result<+T> = Ok(value: T) | Err(error: Error)

  datatype Error =
    | LineAndDecfwd | ToLineAndDecfwd | ToLineAlone | EmptyLineSpan
    | EmptyTrace | NoSteadyTicks | EmptyWindow | PrecedesBase | IdentityFails

  // ----- the log

  /** One line of a serve log: a tick with its disk-read segment, if recorded, or something else. */
  datatype LogLine = Other | TickLine(total: nat, model: int, steady: bool, ssdMmap: Option<int>)

  /** A steady tick; the line number is its identity. */
  datatype Tick = Tick(line: nat, total: nat, model: int, ssdMmap: int)

  /** Line numbers strictly increase. */
  ghost predicate Ascending(ts: seq<Tick>) {
    forall i, j :: 0 <= i < j < |ts| ==> ts[i].line < ts[j].line
  }

  /** The rows, and the disk-read segment by line number, of one log. */
  method ScanLines(lines: seq<LogLine>) returns (rows: seq<nat>, mmap: map<nat, int>)
    ensures forall j, k :: 0 <= j < k < |rows| ==> rows[j] < rows[k]
    ensures forall n :: n in rows <==> 0 < n <= |lines| && lines[n - 1].TickLine?
    ensures forall n :: n in mmap <==> 0 < n <= |lines| && lines[n - 1].TickLine? && lines[n - 1].ssdMmap.Some?
    ensures forall n :: n in mmap ==> lines[n - 1].ssdMmap == Some(mmap[n])
  {
    rows, mmap := [], map[];
    for i := 0 to |lines|
      invariant forall j, k :: 0 <= j < k < |rows| ==> rows[j] < rows[k]
      invariant forall n :: n in rows <==> 0 < n <= i && lines[n - 1].TickLine?
      invariant forall n :: n in mmap <==> 0 < n <= i && lines[n - 1].TickLine? && lines[n - 1].ssdMmap.Some?
      invariant forall n :: n in mmap ==> lines[n - 1].ssdMmap == Some(mmap[n])
    {
      if lines[i].TickLine? {
        assert forall j :: 0 <= j < |rows| ==> rows[j] in rows;
        rows := rows + [i + 1];
        if lines[i].ssdMmap.Some? {
          mmap := mmap[i + 1 := lines[i].ssdMmap.value];
        }
      }
    }
  }

  /** The steady rows, joined with their segment. */
  method ScanLog(lines: seq<LogLine>) returns (ticks: seq<Tick>)
    ensures Ascending(ticks)
    ensures forall t :: t in ticks <==> SteadyAt(lines, t.line) && ReadOff(t, lines[t.line - 1])
  {
    var rows, mmap := ScanLines(lines);
    ticks := [];
    for j := 0 to |rows|
      invariant forall t :: t in ticks ==> t.line in rows[..j]
      invariant forall t :: t in ticks <==>
        t.line in rows[..j] && SteadyAt(lines, t.line) && ReadOff(t, lines[t.line - 1])
      invariant Ascending(ticks)
    {
      var n := rows[j];
      assert n in rows;
      assert rows[..j + 1] == rows[..j] + [n];
      if lines[n - 1].steady {
        var t := Tick(n, lines[n - 1].total, lines[n - 1].model, if n in mmap then mmap[n] else 0);
        Extend(ticks, t, rows, j);
        ticks := ticks + [t];
      }
    }
    assert rows[..|rows|] == rows;
  }

  /** The tick holds the line's times; a disk-read time that is not recorded counts as 0. */
  ghost predicate ReadOff(t: Tick, l: LogLine)
    requires l.TickLine?
  {
    && t.total == l.total && t.model == l.model
    && (l.ssdMmap.Some? ==> t.ssdMmap == l.ssdMmap.value) && (l.ssdMmap.None? ==> t.ssdMmap == 0)
  }

  /** Line `n` is a steady tick. */
  ghost predicate SteadyAt(lines: seq<LogLine>, n: nat) {
    0 < n <= |lines| && lines[n - 1].TickLine? && lines[n - 1].steady
  }

  lemma Extend(ticks: seq<Tick>, t: Tick, rows: seq<nat>, j: nat)
    requires j < |rows| && t.line == rows[j] && forall g, h :: 0 <= g < h < |rows| ==> rows[g] < rows[h]
    requires Ascending(ticks) && forall u :: u in ticks ==> u.line in rows[..j]
    ensures Ascending(ticks + [t])
  {
    forall i | 0 <= i < |ticks| ensures ticks[i].line < t.line {
      assert ticks[i] in ticks;
    }
  }

  // ----- boundary, identity, cut, report

  /** Tick `i` is the first one that reads from disk. */
  ghost predicate FirstCold(ts: seq<Tick>, i: nat) {
    i < |ts| && ts[i].ssdMmap > 0 && forall j :: 0 <= j < i ==> ts[j].ssdMmap <= 0
  }

  /** First steady tick that reads from disk, as a line number. */
  function BoundaryRank(ts: seq<Tick>): (r: Option<nat>)
    ensures r.None? ==> forall t :: t in ts ==> t.ssdMmap <= 0
    ensures r.Some? ==> exists i: nat :: FirstCold(ts, i) && ts[i].line == r.value
  {
    if ts == [] then None
    else if ts[0].ssdMmap > 0 then assert FirstCold(ts, 0); Some(ts[0].line)
    else
      var r := BoundaryRank(ts[1..]);
      assert ts == [ts[0]] + ts[1..];
      if r.None? then r
      else
        ghost var i: nat :| FirstCold(ts[1..], i) && ts[1..][i].line == r.value;
        assert FirstCold(ts, i + 1);
        r
  }

  datatype Identity = Identity(base: real, last: real, steady: nat, diff: real, ok: bool)

  /** The span both sides of the identity describe: the client's bracket, or the trace's own ends. */
  function Span(trace: seq<real>, bracket: Option<(real, real)>): (real, real)
    requires trace != []
  {
    if bracket.Some? then bracket.value else (trace[0], trace[|trace| - 1])
  }

  function Abs(x: real): real { if x < 0.0 then -x else x }

  const SLACK: real := 2.0

  function DecfwdIdentity(trace: seq<real>, ticks: seq<Tick>, bracket: Option<(real, real)>): Identity
    requires trace != []
  {
    var (base, last) := Span(trace, bracket);
    var inferred := base + |ticks| as real;
    Identity(base, last, |ticks|, last - inferred, Abs(last - inferred) <= SLACK)
  }

  /** Truncation toward zero. */
  function Trunc(x: real): int {
    if x >= 0.0 then x.Floor else -((-x).Floor)
  }

  function FromLine(ts: seq<Tick>, lo: nat): seq<Tick> {
    if ts == [] then [] else
      if ts[0].line >= lo then [ts[0]] + FromLine(ts[1..], lo) else FromLine(ts[1..], lo)
  }

  /** The ticks from the one `want` decode forwards name. */
  function CutFromDecfwd(trace: seq<real>, ticks: seq<Tick>, want: real,
                         bracket: Option<(real, real)>): Result<seq<Tick>>
    requires trace != [] && ticks != []
  {
    var k := Trunc(want - Span(trace, bracket).0);
    if k < 0 then Err(PrecedesBase)
    else
      var at := if k <= |ticks| - 1 then k else |ticks| - 1;
      Ok(FromLine(ticks, ticks[at].line))
  }

  predicate Holds(t: Tick, lo: Option<int>, hi: Option<int>) {
    (lo.None? || t.line >= lo.value) && (hi.None? || t.line < hi.value)
  }

  function Within(ts: seq<Tick>, lo: Option<int>, hi: Option<int>): seq<Tick> {
    if ts == [] then []
    else
      var rest := Within(ts[1..], lo, hi);
      if Holds(ts[0], lo, hi) then [ts[0]] + rest else rest
  }

  function Max(a: int, b: int): int { if a >= b then a else b }
  function Min(a: int, b: int): int { if a <= b then a else b }

  /** The ticks one phase covers: its own edges intersected with the window's. */
  function PhaseTicks(ts: seq<Tick>, lo0: Option<int>, hi0: Option<int>,
                      window: (Option<int>, Option<int>)): seq<Tick>
  {
    var lo := if window.0.None? then lo0 else if lo0.None? then window.0 else Some(Max(lo0.value, window.0.value));
    var hi := if window.1.None? then hi0 else if hi0.None? then window.1 else Some(Min(hi0.value, window.1.value));
    if lo.Some? && hi.Some? && hi.value <= lo.value then [] else Within(ts, lo, hi)
  }

  /** `n`, `body_n`, `ssd_mmap_nonzero` of a phase. */
  datatype Phase = Phase(n: nat, bodyN: nat, nonzero: nat)

  function BodyCount(ts: seq<Tick>, tail: nat): nat {
    if ts == [] then 0 else BodyCount(ts[1..], tail) + if ts[0].total <= tail then 1 else 0
  }

  function NonzeroCount(ts: seq<Tick>): nat {
    if ts == [] then 0 else NonzeroCount(ts[1..]) + if ts[0].ssdMmap > 0 then 1 else 0
  }

  function Stats(ts: seq<Tick>, tail: nat): Phase {
    Phase(|ts|, BodyCount(ts, tail), NonzeroCount(ts))
  }

  function Report(ts: seq<Tick>, lo: Option<int>, hi: Option<int>, tail: nat,
                  window: (Option<int>, Option<int>)): Phase
  {
    Stats(PhaseTicks(ts, lo, hi, window), tail)
  }

  datatype Args = Args(fromLine: Option<int>, toLine: Option<int>, fromDecfwd: Option<real>, tail: nat)

  datatype Analysis = Analysis(ticks: seq<Tick>, identity: Identity, boundary: Option<nat>, phaseA: Phase,
                               phaseB: Phase)

  /** The argument checks, in order. */
  function ArgError(a: Args): Option<Error> {
    if a.fromLine.Some? && a.fromDecfwd.Some? then Some(LineAndDecfwd)
    else if a.toLine.Some? && a.fromDecfwd.Some? then Some(ToLineAndDecfwd)
    else if a.toLine.Some? && a.fromLine.None? then Some(ToLineAlone)
    else if a.fromLine.Some? && a.toLine.Some? && a.toLine.value <= a.fromLine.value then Some(EmptyLineSpan)
    else None
  }

  function Edge(b: Option<nat>): Option<int> {
    if b.Some? then Some(b.value) else None
  }

  /** The ticks of the phase before the boundary, all of them when there is none. */
  function PhaseATicks(ts: seq<Tick>, a: Args): seq<Tick> {
    PhaseTicks(ts, None, Edge(BoundaryRank(ts)), (a.fromLine, a.toLine))
  }

  /** The ticks of the phase from the boundary on, none when there is no boundary. */
  function PhaseBTicks(ts: seq<Tick>, a: Args): seq<Tick> {
    if BoundaryRank(ts).None? then [] else PhaseTicks(ts, Edge(BoundaryRank(ts)), None, (a.fromLine, a.toLine))
  }

  /** Both phases over the selected ticks. */
  function Split(ts: seq<Tick>, a: Args): (Phase, Phase) {
    (Stats(PhaseATicks(ts, a), a.tail), Stats(PhaseBTicks(ts, a), a.tail))
  }

  // ----- the report

  /** No argument excludes another. */
  predicate Legal(a: Args) {
    && !(a.fromLine.Some? && a.fromDecfwd.Some?)
    && (a.toLine.Some? ==> a.fromLine.Some? && a.fromLine.value < a.toLine.value)
  }

  /** Legal arguments over a trace and a log that hold something. */
  predicate Readable(trace: seq<real>, log: seq<Tick>, a: Args) {
    Legal(a) && trace != [] && log != []
  }

  /** Which refusal is given when. */
  ghost predicate Refusals(r: Result<Analysis>, trace: seq<real>, log: seq<Tick>, a: Args) {
    && (r == Err(LineAndDecfwd) <==> a.fromLine.Some? && a.fromDecfwd.Some?)
    && (r == Err(ToLineAndDecfwd) <==> a.fromLine.None? && a.toLine.Some? && a.fromDecfwd.Some?)
    && (r == Err(ToLineAlone) <==> a.fromLine.None? && a.toLine.Some? && a.fromDecfwd.None?)
    && (r == Err(EmptyLineSpan) <==>
          a.fromDecfwd.None? && a.fromLine.Some? && a.toLine.Some? && a.toLine.value <= a.fromLine.value)
    && (r == Err(EmptyTrace) <==> Legal(a) && trace == [])
    && (r == Err(NoSteadyTicks) <==> Legal(a) && trace != [] && log == [])
    && (r == Err(EmptyWindow) <==>
          && Readable(trace, log, a) && a.fromLine.Some?
          && forall t :: t in log ==> t.line < a.fromLine.value || (a.toLine.Some? && a.toLine.value <= t.line))
  }

  /** A cut `x` forwards after the base leaves the last `n` of `len` ticks: all but one for every whole
      forward, and at least one. */
  ghost predicate Keeps(n: nat, len: nat, x: real) {
    && 0 < n <= len
    && (n < len ==> (len - n) as real <= x)
    && (n > 1 ==> x < (len - n) as real + 1.0)
  }

  /** The number of ticks such a cut leaves does not bridge the span. */
  ghost predicate CutIsOff(len: nat, x: real, span: real) {
    exists n: nat :: Keeps(n, len, x) && OffBy(span, n)
  }

  /** When a decode-forward cut is refused: a whole forward or more before the base, or when the span is
      more than two forwards off the number of ticks it leaves. */
  ghost predicate CutRefusals(r: Result<Analysis>, trace: seq<real>, log: seq<Tick>, a: Args,
                              bracket: Option<(real, real)>)
  {
    && (r == Err(PrecedesBase) <==>
          Readable(trace, log, a) && a.fromDecfwd.Some? && a.fromDecfwd.value - Span(trace, bracket).0 <= -1.0)
    && (r == Err(IdentityFails) <==>
          && Readable(trace, log, a) && a.fromDecfwd.Some? && a.fromDecfwd.value - Span(trace, bracket).0 > -1.0
          && CutIsOff(|log|, a.fromDecfwd.value - Span(trace, bracket).0,
                      Span(trace, bracket).1 - Span(trace, bracket).0))
  }

  /** A span of forwards and a number of ticks that should bridge it are more than two apart. */
  ghost predicate OffBy(span: real, n: nat) {
    span - n as real > 2.0 || n as real - span > 2.0
  }

  /** The ticks a report covers: those of the line window, or those a cut relative to `base` leaves, or
      all. */
  ghost predicate Selected(ts: seq<Tick>, log: seq<Tick>, a: Args, base: real) {
    if a.fromLine.Some? then
      Ascending(ts) && forall t :: t in ts <==>
        t in log && a.fromLine.value <= t.line && (a.toLine.Some? ==> t.line < a.toLine.value)
    else if a.fromDecfwd.Some? then
      Keeps(|ts|, |log|, a.fromDecfwd.value - base) && ts == log[|log| - |ts|..]
    else ts == log
  }

  /** The identity of a report over `n` ticks: the client's bracket or else the trace's ends, against
      the number of ticks. */
  ghost predicate Bridges(d: Identity, trace: seq<real>, n: nat, bracket: Option<(real, real)>)
    requires trace != []
  {
    && (bracket.Some? ==> (d.base, d.last) == bracket.value)
    && (bracket.None? ==> d.base == trace[0] && d.last == trace[|trace| - 1])
    && d.steady == n && d.diff == d.last - d.base - n as real
    && (d.ok <==> !OffBy(d.last - d.base, n))
  }

  /** A phase's numbers: its ticks, those within the tail and those that read from disk. */
  ghost predicate Counts(p: Phase, ts: seq<Tick>, tail: nat) {
    && p.n == |ts|
    && p.bodyN == |set i: nat | i < |ts| && ts[i].total <= tail|
    && p.nonzero == |set i: nat | i < |ts| && ts[i].ssdMmap > 0|
  }

  /** A report's boundary is the first of its ticks that reads from disk; phase A is the ticks before it
      and phase B the rest. */
  ghost predicate SplitAtBoundary(r: Analysis, tail: nat) {
    var i := ColdIndex(r.ticks);
    && r.boundary == (if i < |r.ticks| then Some(r.ticks[i].line) else None)
    && Counts(r.phaseA, r.ticks[..i], tail) && Counts(r.phaseB, r.ticks[i..], tail)
  }

  /** The report on a log's steady ticks: the window or the cut first, then everything from the ticks
      that are left. The identity is computed on the ticks already cut. */
  method Analyse(trace: seq<real>, log: seq<Tick>, a: Args, bracket: Option<(real, real)>) returns (r: Result<Analysis>)
    requires Ascending(log)
    ensures Refusals(r, trace, log, a) && CutRefusals(r, trace, log, a, bracket)
    ensures r.Ok? ==> Readable(trace, log, a) && Selected(r.value.ticks, log, a, r.value.identity.base)
    ensures r.Ok? ==> Bridges(r.value.identity, trace, |r.value.ticks|, bracket)
    ensures r.Ok? ==> SplitAtBoundary(r.value, a.tail)
    ensures r == Analysed(trace, log, a, bracket)
  {
    RefusalsOf(trace, log, a, bracket);
    CutRefusalsOf(trace, log, a, bracket);
    if Analysed(trace, log, a, bracket).Ok? {
      ReportOf(trace, log, a, bracket);
    }
    r := Compute(trace, log, a, bracket);
  }

  method Compute(trace: seq<real>, log: seq<Tick>, a: Args, bracket: Option<(real, real)>) returns (r: Result<Analysis>)
    ensures r == Analysed(trace, log, a, bracket)
  {
    var bad := ArgError(a);
    if bad.Some? {
      return Err(bad.value);
    }
    if trace == [] {
      return Err(EmptyTrace);
    }
    var ticks := log;
    if ticks == [] {
      return Err(NoSteadyTicks);
    }
    if a.fromLine.Some? {
      ticks := Within(ticks, a.fromLine, a.toLine);
      if ticks == [] {
        return Err(EmptyWindow);
      }
    } else if a.fromDecfwd.Some? {
      var cut := CutFromDecfwd(trace, ticks, a.fromDecfwd.value, bracket);
      if cut.Err? {
        return Err(cut.error);
      }
      ticks := cut.value;
    }
    var ident := DecfwdIdentity(trace, ticks, bracket);
    var boundary := BoundaryRank(ticks);
    if a.fromDecfwd.Some? && !ident.ok {
      return Err(IdentityFails);
    }
    var (pa, pb) := Split(ticks, a);
    return Ok(Analysis(ticks, ident, boundary, pa, pb));
  }

  function Analysed(trace: seq<real>, log: seq<Tick>, a: Args, bracket: Option<(real, real)>): Result<Analysis> {
    if ArgError(a).Some? then Err(ArgError(a).value)
    else if trace == [] then Err(EmptyTrace)
    else if log == [] then Err(NoSteadyTicks)
    else
      var sel :=
        if a.fromLine.Some? then
          var w := Within(log, a.fromLine, a.toLine);
          if w == [] then Err(EmptyWindow) else Ok(w)
        else if a.fromDecfwd.Some? then CutFromDecfwd(trace, log, a.fromDecfwd.value, bracket)
        else Ok(log);
      if sel.Err? then Err(sel.error)
      else
        var ident := DecfwdIdentity(trace, sel.value, bracket);
        if a.fromDecfwd.Some? && !ident.ok then Err(IdentityFails)
        else Ok(Analysis(sel.value, ident, BoundaryRank(sel.value), Split(sel.value, a).0, Split(sel.value, a).1))
  }

  // ----- filters on ascending lines

  lemma TailAscending(ts: seq<Tick>)
    requires ts != [] && Ascending(ts)
    ensures Ascending(ts[1..]) && forall t :: t in ts[1..] ==> ts[0].line < t.line
  {
  }

  /** Everything inside the bounds. */
  lemma {:induction false} WithinAll(ts: seq<Tick>, lo: Option<int>, hi: Option<int>)
    requires forall t :: t in ts ==> Holds(t, lo, hi)
    ensures Within(ts, lo, hi) == ts
  {
    if ts != [] {
      assert ts[0] in ts;
      WithinAll(ts[1..], lo, hi);
      assert ts == [ts[0]] + ts[1..];
    }
  }

  lemma {:induction false} WithinMembers(ts: seq<Tick>, lo: Option<int>, hi: Option<int>)
    ensures forall t :: t in Within(ts, lo, hi) <==>
      t in ts && Holds(t, lo, hi)
  {
    if ts != [] {
      WithinMembers(ts[1..], lo, hi);
      assert ts == [ts[0]] + ts[1..];
    }
  }

  lemma {:induction false} WithinAscending(ts: seq<Tick>, lo: Option<int>, hi: Option<int>)
    requires Ascending(ts)
    ensures Ascending(Within(ts, lo, hi))
  {
    if ts != [] {
      TailAscending(ts);
      WithinAscending(ts[1..], lo, hi);
      WithinMembers(ts[1..], lo, hi);
      var rest := Within(ts[1..], lo, hi);
      forall i | 0 <= i < |rest| ensures ts[0].line < rest[i].line {
        assert rest[i] in rest;
      }
    }
  }

  /** All of these ticks lie within the bounds. */
  ghost predicate Inside(ts: seq<Tick>, lo: Option<int>, hi: Option<int>) {
    forall t :: t in ts ==> Holds(t, lo, hi)
  }

  lemma WithinHead(t: Tick, rest: seq<Tick>, lo: Option<int>, hi: Option<int>)
    ensures Within([t] + rest, lo, hi) == (if Holds(t, lo, hi) then [t] else []) + Within(rest, lo, hi)
  {
    assert ([t] + rest)[1..] == rest;
  }

  lemma Regroup(h: seq<Tick>, x: seq<Tick>, y: seq<Tick>)
    ensures h + (x + y) == (h + x) + y
  {
  }

  lemma {:induction false} WithinConcat(x: seq<Tick>, y: seq<Tick>, lo: Option<int>, hi: Option<int>)
    ensures Within(x + y, lo, hi) == Within(x, lo, hi) + Within(y, lo, hi)
  {
    if x == [] {
      assert x + y == y;
    } else {
      var t, rest := x[0], x[1..];
      assert x == [t] + rest;
      Regroup([t], rest, y);
      WithinHead(t, rest, lo, hi);
      WithinHead(t, rest + y, lo, hi);
      WithinConcat(rest, y, lo, hi);
      Regroup(if Holds(t, lo, hi) then [t] else [], Within(rest, lo, hi), Within(y, lo, hi));
    }
  }

  lemma CutLines(ts: seq<Tick>, i: nat)
    requires Ascending(ts) && i < |ts|
    ensures forall t :: t in ts[..i] ==> t in ts && t.line < ts[i].line
    ensures forall t :: t in ts[i..] ==> t in ts && ts[i].line <= t.line
    ensures ts == ts[..i] + ts[i..]
  {
  }

  /** Cutting ascending ticks before tick `i`'s line. */
  lemma WithinPrefix(ts: seq<Tick>, i: nat, lo: Option<int>)
    requires Ascending(ts) && i < |ts| && Inside(ts, lo, None)
    ensures Within(ts, lo, Some(ts[i].line)) == ts[..i]
  {
    CutLines(ts, i);
    WithinConcat(ts[..i], ts[i..], lo, Some(ts[i].line));
    WithinAll(ts[..i], lo, Some(ts[i].line));
    WithinNone(ts[i..], lo, ts[i].line);
  }

  /** Cutting ascending ticks from tick `i`'s line on. */
  lemma WithinSuffix(ts: seq<Tick>, i: nat, hi: Option<int>)
    requires Ascending(ts) && i < |ts| && Inside(ts, None, hi)
    ensures Within(ts, Some(ts[i].line), hi) == ts[i..]
  {
    CutLines(ts, i);
    WithinConcat(ts[..i], ts[i..], Some(ts[i].line), hi);
    WithinAll(ts[i..], Some(ts[i].line), hi);
    WithinBelow(ts[..i], ts[i].line, hi);
  }

  lemma {:induction false} WithinBelow(ts: seq<Tick>, lo: int, hi: Option<int>)
    requires forall t :: t in ts ==> t.line < lo
    ensures Within(ts, Some(lo), hi) == []
  {
    if ts != [] {
      assert ts[0] in ts;
      WithinBelow(ts[1..], lo, hi);
    }
  }

  lemma {:induction false} WithinNone(ts: seq<Tick>, lo: Option<int>, h: int)
    requires forall t :: t in ts ==> t.line >= h
    ensures Within(ts, lo, Some(h)) == []
  {
    if ts != [] {
      assert ts[0] in ts;
      WithinNone(ts[1..], lo, h);
    }
  }

  lemma {:induction false} FromLineIsSuffix(ts: seq<Tick>, i: nat)
    requires Ascending(ts) && i < |ts|
    ensures FromLine(ts, ts[i].line) == ts[i..]
  {
    TailAscending(ts);
    if i == 0 {
      FromLineAll(ts, ts[0].line);
      assert ts[0..] == ts;
    } else {
      assert ts[1..][i - 1] == ts[i];
      FromLineIsSuffix(ts[1..], i - 1);
      assert ts[1..][i - 1..] == ts[i..];
    }
  }

  lemma {:induction false} FromLineAll(ts: seq<Tick>, lo: nat)
    requires forall t :: t in ts ==> t.line >= lo
    ensures FromLine(ts, lo) == ts
  {
    if ts != [] {
      assert ts[0] in ts;
      FromLineAll(ts[1..], lo);
      assert ts == [ts[0]] + ts[1..];
    }
  }

  lemma {:induction false} CountsConcat(x: seq<Tick>, y: seq<Tick>, tail: nat)
    ensures BodyCount(x + y, tail) == BodyCount(x, tail) + BodyCount(y, tail)
    ensures NonzeroCount(x + y) == NonzeroCount(x) + NonzeroCount(y)
  {
    if x == [] {
      assert x + y == y;
    } else {
      CountsConcat(x[1..], y, tail);
      assert (x + y)[1..] == x[1..] + y;
    }
  }

  lemma {:induction false} BodyCounts(ts: seq<Tick>, tail: nat)
    ensures BodyCount(ts, tail) == |set i: nat | i < |ts| && ts[i].total <= tail|
  {
    var body := set i: nat | i < |ts| && ts[i].total <= tail;
    if ts == [] {
      assert body == {};
    } else {
      var init, t := ts[..|ts| - 1], ts[|ts| - 1];
      BodyCounts(init, tail);
      assert ts == init + [t];
      CountsConcat(init, [t], tail);
      assert body == (set i: nat | i < |init| && init[i].total <= tail) + if t.total <= tail then {|init|} else {};
    }
  }

  lemma {:induction false} NonzeroCounts(ts: seq<Tick>)
    ensures NonzeroCount(ts) == |set i: nat | i < |ts| && ts[i].ssdMmap > 0|
  {
    var cold := set i: nat | i < |ts| && ts[i].ssdMmap > 0;
    if ts == [] {
      assert cold == {};
    } else {
      var init, t := ts[..|ts| - 1], ts[|ts| - 1];
      NonzeroCounts(init);
      assert ts == init + [t];
      CountsConcat(init, [t], 0);
      assert cold == (set i: nat | i < |init| && init[i].ssdMmap > 0) + if t.ssdMmap > 0 then {|init|} else {};
    }
  }

  lemma StatsCount(ts: seq<Tick>, tail: nat)
    ensures Counts(Stats(ts, tail), ts, tail)
  {
    BodyCounts(ts, tail);
    NonzeroCounts(ts);
  }

  lemma {:induction false} NoneNonzero(ts: seq<Tick>)
    requires forall t :: t in ts ==> t.ssdMmap <= 0
    ensures NonzeroCount(ts) == 0
  {
    if ts != [] {
      assert ts[0] in ts;
      NoneNonzero(ts[1..]);
    }
  }

  // ----- the phases

  /** Where the first tick that reads from disk stands, or the end. */
  function ColdIndex(ts: seq<Tick>): (i: nat)
    ensures i <= |ts| && (i < |ts| ==> ts[i].ssdMmap > 0)
    ensures forall j :: 0 <= j < i ==> ts[j].ssdMmap <= 0
  {
    if ts == [] || ts[0].ssdMmap > 0 then 0
    else
      var i := ColdIndex(ts[1..]);
      assert forall j :: 0 < j < i + 1 ==> ts[j] == ts[1..][j - 1];
      i + 1
  }

  lemma {:induction false} BoundaryIsCold(ts: seq<Tick>)
    ensures BoundaryRank(ts) == if ColdIndex(ts) < |ts| then Some(ts[ColdIndex(ts)].line) else None
  {
    if ts != [] && ts[0].ssdMmap <= 0 {
      BoundaryIsCold(ts[1..]);
    }
  }

  lemma PhaseTicksSplit(ts: seq<Tick>, i: nat, w: (Option<int>, Option<int>))
    requires Ascending(ts) && i < |ts| && Inside(ts, w.0, w.1)
    ensures PhaseTicks(ts, None, Some(ts[i].line), w) == ts[..i]
    ensures PhaseTicks(ts, Some(ts[i].line), None, w) == ts[i..]
  {
    assert ts[i] in ts;
    WithinPrefix(ts, i, w.0);
    WithinSuffix(ts, i, w.1);
    assert i > 0 ==> ts[0] in ts;
  }

  lemma WholePhase(ts: seq<Tick>, w: (Option<int>, Option<int>))
    requires Inside(ts, w.0, w.1)
    ensures PhaseTicks(ts, None, None, w) == ts
  {
    WithinAll(ts, w.0, w.1);
    assert ts != [] ==> ts[0] in ts;
  }

  /** The two phases of the ticks that lie in the window: the ticks before the first one that reads from
      disk, and the rest. */
  lemma PhasesPartition(ts: seq<Tick>, a: Args)
    requires Ascending(ts) && Inside(ts, a.fromLine, a.toLine)
    ensures PhaseATicks(ts, a) == ts[..ColdIndex(ts)] && PhaseBTicks(ts, a) == ts[ColdIndex(ts)..]
    ensures PhaseATicks(ts, a) + PhaseBTicks(ts, a) == ts
  {
    BoundaryIsCold(ts);
    if ColdIndex(ts) < |ts| {
      CutLines(ts, ColdIndex(ts));
      ColdPhases(ts, a, ColdIndex(ts));
    } else {
      WarmPhases(ts, a);
    }
  }

  lemma ColdPhases(ts: seq<Tick>, a: Args, i: nat)
    requires Ascending(ts) && Inside(ts, a.fromLine, a.toLine)
    requires i < |ts| && BoundaryRank(ts) == Some(ts[i].line)
    ensures PhaseATicks(ts, a) == ts[..i] && PhaseBTicks(ts, a) == ts[i..]
  {
    PhaseTicksSplit(ts, i, (a.fromLine, a.toLine));
  }

  lemma WarmPhases(ts: seq<Tick>, a: Args)
    requires Inside(ts, a.fromLine, a.toLine) && BoundaryRank(ts) == None
    ensures PhaseATicks(ts, a) == ts[..|ts|] == ts && PhaseBTicks(ts, a) == ts[|ts|..] == []
  {
    WholePhase(ts, (a.fromLine, a.toLine));
  }

  /** Their counts add up; phase A never reads from disk, and phase B is empty exactly when nothing does. */
  lemma PhaseCounts(ts: seq<Tick>, a: Args)
    requires Ascending(ts) && Inside(ts, a.fromLine, a.toLine)
    ensures var (pa, pb) := Split(ts, a);
      && pa.n + pb.n == |ts| && pa.bodyN + pb.bodyN == BodyCount(ts, a.tail)
      && pa.nonzero == 0 && pb.nonzero == NonzeroCount(ts)
    ensures Split(ts, a).1.n == 0 <==> NonzeroCount(ts) == 0
  {
    var i := ColdIndex(ts);
    PhasesPartition(ts, a);
    CountsConcat(ts[..i], ts[i..], a.tail);
    assert ts == ts[..i] + ts[i..];
    NoneNonzero(ts[..i]);
  }

  // ----- what a report says

  lemma TruncNegativeIff(x: real)
    ensures Trunc(x) < 0 <==> x <= -1.0
  {
  }

  lemma RefusalsOf(trace: seq<real>, log: seq<Tick>, a: Args, bracket: Option<(real, real)>)
    ensures Refusals(Analysed(trace, log, a, bracket), trace, log, a)
  {
    WithinMembers(log, a.fromLine, a.toLine);
    var w := Within(log, a.fromLine, a.toLine);
    assert w == [] <==> forall t :: t in log ==> !Holds(t, a.fromLine, a.toLine) by {
      if w != [] {
        assert w[0] in w;
      }
    }
  }

  lemma CutRefusalsOf(trace: seq<real>, log: seq<Tick>, a: Args, bracket: Option<(real, real)>)
    requires Ascending(log)
    ensures CutRefusals(Analysed(trace, log, a, bracket), trace, log, a, bracket)
  {
    if Readable(trace, log, a) && a.fromDecfwd.Some? {
      var x := a.fromDecfwd.value - Span(trace, bracket).0;
      TruncNegativeIff(x);
      CutIsSuffix(trace, log, a.fromDecfwd.value, bracket);
      if x > -1.0 {
        CutOff(trace, log, a.fromDecfwd.value, bracket, x, |log| - Dropped(trace, log, a.fromDecfwd.value, bracket));
      }
    }
  }

  /** The cut identity fails exactly when the span is off the number of ticks the cut leaves. */
  lemma CutOff(trace: seq<real>, log: seq<Tick>, want: real, bracket: Option<(real, real)>, x: real, n: nat)
    requires trace != [] && log != [] && x == want - Span(trace, bracket).0 > -1.0
    requires n == |log| - Dropped(trace, log, want, bracket)
    ensures Abs(CutDifference(trace, log, want, bracket)) > SLACK <==>
      CutIsOff(|log|, x, Span(trace, bracket).1 - Span(trace, bracket).0)
  {
    CutKeeps(|log|, x, n);
    assert CutDifference(trace, log, want, bracket) == Span(trace, bracket).1 - Span(trace, bracket).0 - n as real;
  }

  lemma CutKeeps(len: nat, x: real, n: nat)
    requires len > 0 && x > -1.0 && n == len - Min(Trunc(x), len - 1)
    ensures Keeps(n, len, x) && forall m: nat :: Keeps(m, len, x) ==> m == n
  {
    TruncIs(x);
    forall m: nat | Keeps(m, len, x) ensures m == n {
      Whole(len - m, len - n);
      Whole(len - n, len - m);
    }
  }

  lemma Whole(a: int, b: int)
    ensures a < b ==> a as real + 1.0 <= b as real
  {
  }

  lemma TruncIs(x: real)
    requires x > -1.0
    ensures Trunc(x) >= 0 && x < Trunc(x) as real + 1.0 && (Trunc(x) > 0 ==> Trunc(x) as real <= x)
  {
  }

  lemma SelectedOf(trace: seq<real>, log: seq<Tick>, a: Args, bracket: Option<(real, real)>)
    requires Ascending(log) && Analysed(trace, log, a, bracket).Ok?
    ensures Readable(trace, log, a)
    ensures var ts := Analysed(trace, log, a, bracket).value.ticks;
      && Selected(ts, log, a, Span(trace, bracket).0) && Ascending(ts) && Inside(ts, a.fromLine, a.toLine)
  {
    if a.fromLine.Some? {
      WithinMembers(log, a.fromLine, a.toLine);
      WithinAscending(log, a.fromLine, a.toLine);
    } else if a.fromDecfwd.Some? {
      var x := a.fromDecfwd.value - Span(trace, bracket).0;
      TruncNegativeIff(x);
      CutIsSuffix(trace, log, a.fromDecfwd.value, bracket);
      CutKeeps(|log|, x, |log| - Dropped(trace, log, a.fromDecfwd.value, bracket));
    }
  }

  lemma ReportOf(trace: seq<real>, log: seq<Tick>, a: Args, bracket: Option<(real, real)>)
    requires Ascending(log) && Analysed(trace, log, a, bracket).Ok?
    ensures var r := Analysed(trace, log, a, bracket).value;
      && Readable(trace, log, a) && r.identity == DecfwdIdentity(trace, r.ticks, bracket)
      && Selected(r.ticks, log, a, r.identity.base)
      && Bridges(r.identity, trace, |r.ticks|, bracket)
      && SplitAtBoundary(r, a.tail)
  {
    SelectedOf(trace, log, a, bracket);
    IdentityBridges(trace, Analysed(trace, log, a, bracket).value.ticks, bracket);
    SplitOf(Analysed(trace, log, a, bracket).value, a);
  }

  lemma IdentityBridges(trace: seq<real>, ts: seq<Tick>, bracket: Option<(real, real)>)
    requires trace != []
    ensures Bridges(DecfwdIdentity(trace, ts, bracket), trace, |ts|, bracket)
  {
  }

  lemma SplitOf(r: Analysis, a: Args)
    requires Ascending(r.ticks) && Inside(r.ticks, a.fromLine, a.toLine)
    requires r.boundary == BoundaryRank(r.ticks) && (r.phaseA, r.phaseB) == Split(r.ticks, a)
    ensures SplitAtBoundary(r, a.tail)
  {
    PhasesPartition(r.ticks, a);
    BoundaryIsCold(r.ticks);
    StatsCount(PhaseATicks(r.ticks, a), a.tail);
    StatsCount(PhaseBTicks(r.ticks, a), a.tail);
  }

  /** Every report that is produced splits its own ticks, and counts each of them once. */
  lemma ReportedPhases(trace: seq<real>, log: seq<Tick>, a: Args, bracket: Option<(real, real)>)
    requires Ascending(log) && Analysed(trace, log, a, bracket).Ok?
    ensures var r := Analysed(trace, log, a, bracket).value;
      && SplitAtBoundary(r, a.tail)
      && r.phaseA.n + r.phaseB.n == |r.ticks| && r.phaseA.nonzero == 0 && r.phaseB.nonzero == NonzeroCount(r.ticks)
  {
    ReportOf(trace, log, a, bracket);
    SelectedOf(trace, log, a, bracket);
    PhaseCounts(Analysed(trace, log, a, bracket).value.ticks, a);
  }

  // ----- the cut and the identity

  /** Ticks a placed cut drops. */
  function Dropped(trace: seq<real>, ticks: seq<Tick>, want: real, bracket: Option<(real, real)>): int
    requires trace != [] && ticks != []
  {
    Min(Trunc(want - Span(trace, bracket).0), |ticks| - 1)
  }

  /** The uncut identity's difference plus the ticks the cut drops. */
  function CutDifference(trace: seq<real>, log: seq<Tick>, want: real, bracket: Option<(real, real)>): real
    requires trace != [] && log != []
  {
    DecfwdIdentity(trace, log, bracket).diff + Dropped(trace, log, want, bracket) as real
  }

  /** A cut that is not refused is a non-empty suffix of the ticks. */
  lemma CutIsSuffix(trace: seq<real>, ticks: seq<Tick>, want: real, bracket: Option<(real, real)>)
    requires trace != [] && ticks != [] && Ascending(ticks)
    ensures var cut := CutFromDecfwd(trace, ticks, want, bracket);
      && (cut.Err? <==> Trunc(want - Span(trace, bracket).0) < 0)
      && (cut.Ok? ==> 0 <= Dropped(trace, ticks, want, bracket) < |ticks|)
      && (cut.Ok? ==> cut.value == ticks[Dropped(trace, ticks, want, bracket)..])
      && (cut.Ok? ==> Ascending(cut.value))
  {
    var k := Trunc(want - Span(trace, bracket).0);
    if k >= 0 {
      var at := if k <= |ticks| - 1 then k else |ticks| - 1;
      FromLineIsSuffix(ticks, at);
    }
  }

  /** When a decode-forward cut is accepted. The identity is tested on the cut ticks against the whole
      span, so what has to be small is the uncut difference plus the number of ticks dropped. */
  lemma CutAcceptedIff(trace: seq<real>, log: seq<Tick>, a: Args, bracket: Option<(real, real)>)
    requires trace != [] && log != [] && Ascending(log)
    requires a.fromDecfwd.Some? && a.fromLine.None? && a.toLine.None?
    ensures Analysed(trace, log, a, bracket).Ok? <==>
      var k := Trunc(a.fromDecfwd.value - Span(trace, bracket).0);
      k >= 0 && Abs(CutDifference(trace, log, a.fromDecfwd.value, bracket)) <= SLACK
  {
    CutIsSuffix(trace, log, a.fromDecfwd.value, bracket);
  }

  /** On a pair whose identity is exact, a cut that drops more than two ticks is refused, and any other
      cut at or after the base is placed. */
  lemma ExactPairRefusesCuts(trace: seq<real>, log: seq<Tick>, a: Args, bracket: Option<(real, real)>)
    requires trace != [] && log != [] && Ascending(log)
    requires a.fromDecfwd.Some? && a.fromLine.None? && a.toLine.None?
    requires DecfwdIdentity(trace, log, bracket).diff == 0.0
    requires Trunc(a.fromDecfwd.value - Span(trace, bracket).0) >= 0
    ensures Analysed(trace, log, a, bracket).Ok? <==> Dropped(trace, log, a.fromDecfwd.value, bracket) <= 2
  {
    CutAcceptedIff(trace, log, a, bracket);
    CutIsSuffix(trace, log, a.fromDecfwd.value, bracket);
  }

  /** A pair whose identity does not hold is accepted all the same when the cut drops as many ticks as
      the trace is short of. */
  lemma BrokenPairAccepted(trace: seq<real>, log: seq<Tick>, a: Args, bracket: Option<(real, real)>, d: nat)
    requires trace != [] && Ascending(log) && 2 < d < |log|
    requires a.fromLine.None? && a.toLine.None? && a.fromDecfwd == Some(Span(trace, bracket).0 + d as real)
    requires DecfwdIdentity(trace, log, bracket).diff == -(d as real)
    ensures !DecfwdIdentity(trace, log, bracket).ok && Analysed(trace, log, a, bracket).Ok?
  {
    CutAcceptedIff(trace, log, a, bracket);
    assert a.fromDecfwd.value - Span(trace, bracket).0 == d as real;
  }
}
