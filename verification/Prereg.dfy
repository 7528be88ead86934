/** The pre-registration ledger: `start` appends a running row, `done` rewrites the file with one row
    closed. Run one after the other the two commands keep the ledger's invariants; interleaved, the
    read and the write of each command are separate steps. */
module Prereg {

  import opened Prelude

  /** What `done` adds to a row. */
  datatype Closing = Closing(ended: string, result: string, finding: string, decision: string, entry: string)

  datatype Row = Row(name: string, started: string, cmd: string, hypothesis: string, status: string,
                     closing: Option<Closing>)

  const RUNNING := "running"

  predicate Opens(r: Row, name: string) {
    r.name == name && r.status == RUNNING
  }

  /** The first running row of a name. */
  function OpenRow(rows: seq<Row>, name: string): (r: Option<nat>)
    ensures r.Some? ==> r.value < |rows| && Opens(rows[r.value], name)
    ensures r.Some? ==> forall i :: 0 <= i < r.value ==> !Opens(rows[i], name)
    ensures r.None? ==> forall i :: 0 <= i < |rows| ==> !Opens(rows[i], name)
  {
    if rows == [] then None
    else if Opens(rows[0], name) then Some(0)
    else
      var r := OpenRow(rows[1..], name);
      assert forall i :: 0 < i < |rows| ==> rows[i] == rows[1..][i - 1];
      if r.Some? then Some(r.value + 1) else None
  }

  function Closed(rows: seq<Row>, name: string, status: string, c: Closing): seq<Row>
    requires OpenRow(rows, name).Some?
  {
    var i := OpenRow(rows, name).value;
    rows[i := rows[i].(status := status, closing := Some(c))]
  }

  datatype Command =
    | Start(name: string, started: string, cmd: string, hypothesis: string)
    | Done(name: string, status: string, closing: Closing)

  function NewRow(c: Command): Row
    requires c.Start?
  {
    Row(c.name, c.started, c.cmd, c.hypothesis, RUNNING, None)
  }

  /** One command run alone: the ledger after it, and its exit code. */
  function RunAlone(rows: seq<Row>, c: Command): (seq<Row>, int) {
    match c
    case Start(name, _, _, _) =>
      if OpenRow(rows, name).Some? then (rows, 2) else (rows + [NewRow(c)], 0)
    case Done(name, status, closing) =>
      if OpenRow(rows, name).None? then (rows, 2) else (Closed(rows, name, status, closing), 0)
  }

  /** Some row of this name is running. */
  ghost predicate Running(rows: seq<Row>, name: string) {
    exists i :: 0 <= i < |rows| && rows[i].name == name && rows[i].status == "running"
  }

  /** Row `i` is the first running one of its name. */
  ghost predicate FirstRunning(rows: seq<Row>, name: string, i: int) {
    && 0 <= i < |rows| && rows[i].name == name && rows[i].status == "running"
    && forall j :: 0 <= j < i ==> !(rows[j].name == name && rows[j].status == "running")
  }

  /** One row more: the given fields, running, not closed. */
  ghost predicate StartLeaves(before: seq<Row>, after: seq<Row>, name: string, started: string, cmd: string,
                              hypothesis: string)
  {
    && |after| == |before| + 1 && after[..|before|] == before
    && var r := after[|before|];
      && r.name == name && r.started == started && r.cmd == cmd && r.hypothesis == hypothesis
      && r.status == "running" && r.closing == None
  }

  /** The first running row of the name has the given status and closing fields and keeps what `start`
      wrote; every other row is as it was. */
  ghost predicate DoneLeaves(before: seq<Row>, after: seq<Row>, name: string, status: string, c: Closing) {
    |after| == |before| && exists i :: FirstRunning(before, name, i) && ClosedAt(before, after, i, status, c)
  }

  ghost predicate ClosedAt(before: seq<Row>, after: seq<Row>, i: nat, status: string, c: Closing)
    requires i < |before| == |after|
  {
    && after[i].status == status && after[i].closing == Some(c)
    && after[i].name == before[i].name && after[i].started == before[i].started
    && after[i].cmd == before[i].cmd && after[i].hypothesis == before[i].hypothesis
    && forall j :: 0 <= j < |before| && j != i ==> after[j] == before[j]
  }

  lemma ClosedLeaves(rows: seq<Row>, name: string, status: string, c: Closing)
    requires OpenRow(rows, name).Some?
    ensures DoneLeaves(rows, Closed(rows, name, status, c), name, status, c)
  {
    var i := OpenRow(rows, name).value;
    assert FirstRunning(rows, name, i) && ClosedAt(rows, Closed(rows, name, status, c), i, status, c);
  }

  lemma OpenIffRunning(rows: seq<Row>, name: string)
    ensures OpenRow(rows, name).Some? <==> Running(rows, name)
  {
    if OpenRow(rows, name).None? {
      assert forall i :: 0 <= i < |rows| ==> !Opens(rows[i], name);
    } else {
      assert Opens(rows[OpenRow(rows, name).value], name);
    }
  }

  class Ledger {
    var rows: seq<Row>

    constructor (rows: seq<Row>)
      ensures this.rows == rows
    {
      this.rows := rows;
    }

    method CmdStart(name: string, started: string, cmd: string, hypothesis: string) returns (rc: int)
      modifies this
      ensures (rows, rc) == RunAlone(old(rows), Start(name, started, cmd, hypothesis))
      ensures if Running(old(rows), name) then rc == 2 && rows == old(rows)
              else rc == 0 && StartLeaves(old(rows), rows, name, started, cmd, hypothesis)
    {
      var read := rows;
      OpenIffRunning(read, name);
      if OpenRow(read, name).Some? {
        return 2;
      }
      rows := rows + [Row(name, started, cmd, hypothesis, RUNNING, None)];
      return 0;
    }

    method CmdDone(name: string, status: string, c: Closing) returns (rc: int)
      modifies this
      ensures (rows, rc) == RunAlone(old(rows), Done(name, status, c))
      ensures if Running(old(rows), name) then rc == 0 && DoneLeaves(old(rows), rows, name, status, c)
              else rc == 2 && rows == old(rows)
    {
      var read := rows;
      OpenIffRunning(read, name);
      if OpenRow(read, name).Some? {
        ClosedLeaves(read, name, status, c);
      }
      var open := OpenRow(read, name);
      if open.None? {
        return 2;
      }
      read := read[open.value := read[open.value].(status := status, closing := Some(c))];
      rows := read;
      return 0;
    }
  }

  // ----- one command after the other

  function RunAll(rows: seq<Row>, cs: seq<Command>): seq<Row> {
    if cs == [] then rows else RunAlone(RunAll(rows, cs[..|cs| - 1]), cs[|cs| - 1]).0
  }

  ghost predicate OneRunning(rows: seq<Row>) {
    forall i, j :: 0 <= i < j < |rows| && rows[i].status == RUNNING && rows[j].status == RUNNING ==>
      rows[i].name != rows[j].name
  }

  /** The closing statuses. */
  predicate Closes(status: string) {
    status in {"ok", "rejected", "killed", "void"}
  }

  lemma NotRunning(status: string)
    requires Closes(status)
    ensures status != RUNNING
  {
    assert |"running"| == 7 && |"rejected"| == 8;
    assert "running"[0] == 'r' && "ok"[0] == 'o' && "killed"[0] == 'k' && "void"[0] == 'v';
  }

  /** `done` takes one of the closing statuses. */
  predicate WellFormed(c: Command) {
    c.Done? ==> Closes(c.status)
  }

  /** Every old row is where it was, with what `start` wrote; a row that was not running has not changed. */
  ghost predicate Preserves(before: seq<Row>, after: seq<Row>) {
    && |before| <= |after|
    && forall i :: 0 <= i < |before| ==>
      && after[i].name == before[i].name && after[i].started == before[i].started
      && after[i].cmd == before[i].cmd && after[i].hypothesis == before[i].hypothesis
      && (before[i].status != RUNNING ==> after[i] == before[i])
  }

  /** Sequential commands keep one running row per name, and never drop, reorder, re-open or edit a row. */
  lemma {:induction false} SequentialCommands(rows: seq<Row>, cs: seq<Command>)
    requires OneRunning(rows) && forall c :: c in cs ==> WellFormed(c)
    ensures OneRunning(RunAll(rows, cs)) && Preserves(rows, RunAll(rows, cs))
    decreases |cs|
  {
    if cs != [] {
      var init, c := cs[..|cs| - 1], cs[|cs| - 1];
      assert c in cs;
      SequentialCommands(rows, init);
      if c.Done? {
        NotRunning(c.status);
      }
    }
  }

  /** Started rows close once: after `done`, a second `done` of the name is refused until a new `start`. */
  lemma DoneOnce(rows: seq<Row>, c: Command, again: Command)
    requires c.Done? && again.Done? && c.name == again.name && WellFormed(c) && OneRunning(rows)
    requires RunAlone(rows, c).1 == 0
    ensures RunAlone(RunAlone(rows, c).0, again) == (RunAlone(rows, c).0, 2)
  {
    SequentialCommands(rows, [c]);
    assert [c][..0] == [];
    assert RunAll(rows, []) == rows;
    var after := RunAlone(rows, c).0;
    var i := OpenRow(rows, c.name).value;
    NotRunning(c.status);
    assert after[i].status != RUNNING;
    forall j | 0 <= j < |after| ensures !Opens(after[j], c.name) {}
  }

  // ----- interleaved commands

  /** A command between its read and its write: the row to append, or the rows read and the `done` that
      will write them back with one row closed. */
  datatype Pending = Appending(row: Row) | Rewriting(read: seq<Row>, c: Command)

  /** What a rewrite leaves. */
  function Rewritten(read: seq<Row>, c: Command): seq<Row> {
    if c.Done? && OpenRow(read, c.name).Some? then Closed(read, c.name, c.status, c.closing) else read
  }

  /** The ledger and the commands in progress, by process. */
  datatype World = World(ledger: seq<Row>, pending: map<nat, Pending>)

  datatype Event = Read(pid: nat, c: Command) | Write(pid: nat)

  /** A refused command leaves no pending step. */
  function Step(w: World, e: Event): World {
    match e
    case Read(pid, c) =>
      if c.Start? then
        if OpenRow(w.ledger, c.name).Some? then w else w.(pending := w.pending[pid := Appending(NewRow(c))])
      else
        if OpenRow(w.ledger, c.name).None? then w
        else w.(pending := w.pending[pid := Rewriting(w.ledger, c)])
    case Write(pid) =>
      if pid !in w.pending then w
      else match w.pending[pid]
        case Appending(row) => World(w.ledger + [row], w.pending - {pid})
        case Rewriting(read, c) => World(Rewritten(read, c), w.pending - {pid})
  }

  function Exec(w: World, es: seq<Event>): World {
    if es == [] then w else Step(Exec(w, es[..|es| - 1]), es[|es| - 1])
  }

  /** Run back to back, a command's read and write do what the command does alone. */
  lemma BackToBack(w: World, pid: nat, c: Command)
    requires pid !in w.pending
    ensures Exec(w, [Read(pid, c), Write(pid)]).ledger == RunAlone(w.ledger, c).0
  {
    var es := [Read(pid, c), Write(pid)];
    assert es[..1] == [Read(pid, c)] && es[..1][..0] == [];
    assert Exec(w, []) == w;
  }

  /** Rows appended by the starts of a trace, in write order. */
  function Appends(w: World, es: seq<Event>): seq<Row> {
    if es == [] then [] else
      var t := Exec(w, es[..|es| - 1]);
      var e := es[|es| - 1];
      var before := Appends(w, es[..|es| - 1]);
      if e.Write? && e.pid in t.pending && t.pending[e.pid].Appending? then before + [t.pending[e.pid].row] else before
  }

  /** No rewrite happens in a trace. */
  ghost predicate NoRewrite(w: World, es: seq<Event>) {
    forall i :: 0 <= i < |es| && es[i].Write? && es[i].pid in Exec(w, es[..i]).pending ==>
      Exec(w, es[..i]).pending[es[i].pid].Appending?
  }

  /** Without a rewrite, whatever the interleaving of reads and appends, the ledger only grows: no row
      is lost and none changes. */
  lemma {:induction false} StartsLoseNothing(w: World, es: seq<Event>)
    requires NoRewrite(w, es)
    ensures Exec(w, es).ledger == w.ledger + Appends(w, es)
    decreases |es|
  {
    if es != [] {
      var init, e := es[..|es| - 1], es[|es| - 1];
      forall i | 0 <= i < |init| ensures es[..i] == init[..i] {}
      StartsLoseNothing(w, init);
      assert es[..|es| - 1] == init;
      assert w.ledger + (Appends(w, init)) == Exec(w, init).ledger;
    }
  }

  /** A process keeps what it read until it writes. */
  lemma {:induction false} PendingKept(w: World, es: seq<Event>, pid: nat)
    requires pid in w.pending && forall e :: e in es ==> e.pid != pid
    ensures pid in Exec(w, es).pending && Exec(w, es).pending[pid] == w.pending[pid]
    decreases |es|
  {
    if es != [] {
      assert es[|es| - 1] in es;
      PendingKept(w, es[..|es| - 1], pid);
    }
  }

  /** Whatever other processes did between its read and its rewrite, a `done` leaves exactly the rows it
      read, one of them closed. */
  lemma RewriteLeavesWhatItRead(w: World, pid: nat, c: Command, es: seq<Event>)
    requires c.Done? && OpenRow(w.ledger, c.name).Some?
    requires forall e :: e in es ==> e.pid != pid
    ensures var after := Step(Exec(Step(w, Read(pid, c)), es), Write(pid)).ledger;
            after == Closed(w.ledger, c.name, c.status, c.closing)
            && DoneLeaves(w.ledger, after, c.name, c.status, c.closing)
  {
    PendingKept(Step(w, Read(pid, c)), es, pid);
    ClosedLeaves(w.ledger, c.name, c.status, c.closing);
  }

  /** When only starts landed in between, what it loses is exactly what they appended. */
  lemma RewriteLosesTheAppends(w: World, pid: nat, c: Command, es: seq<Event>)
    requires c.Done? && OpenRow(w.ledger, c.name).Some?
    requires forall e :: e in es ==> e.pid != pid
    requires NoRewrite(Step(w, Read(pid, c)), es)
    ensures var read := Step(w, Read(pid, c));
            var before := Exec(read, es);
            && before.ledger == w.ledger + Appends(read, es)
            && |Step(before, Write(pid)).ledger| == |before.ledger| - |Appends(read, es)|
  {
    RewriteLeavesWhatItRead(w, pid, c, es);
    StartsLoseNothing(Step(w, Read(pid, c)), es);
  }

  // ----- when nothing is lost

  /** A running row has not been closed before. */
  ghost predicate Sane(rows: seq<Row>) {
    forall i :: 0 <= i < |rows| && rows[i].status == RUNNING ==> rows[i].closing == None
  }

  /** No step of the trace drops, edits or re-opens a row. */
  ghost predicate NothingLost(w: World, es: seq<Event>) {
    forall i :: 0 <= i < |es| ==> KeptAt(w, es, i)
  }

  ghost predicate KeptAt(w: World, es: seq<Event>, i: nat)
    requires i < |es|
  {
    Preserves(Exec(w, es[..i]).ledger, Exec(w, es[..i + 1]).ledger)
  }

  /** The rewrite finds the ledger as its process read it, or already as it is about to leave it. */
  ghost predicate UpToDate(w: World, e: Event) {
    e.Write? && e.pid in w.pending && w.pending[e.pid].Rewriting? ==>
      w.ledger == w.pending[e.pid].read || w.ledger == Rewritten(w.pending[e.pid].read, w.pending[e.pid].c)
  }

  ghost predicate AllUpToDate(w: World, es: seq<Event>) {
    forall i :: 0 <= i < |es| ==> UpToDateAt(w, es, i)
  }

  ghost predicate UpToDateAt(w: World, es: seq<Event>, i: nat)
    requires i < |es|
  {
    UpToDate(Exec(w, es[..i]), es[i])
  }

  /** A world all of whose commands in progress are sound: a `done` read an open row of its name. */
  ghost predicate Sound(w: World) {
    Sane(w.ledger) && forall p :: p in w.pending ==> SoundPending(w.pending[p])
  }

  ghost predicate SoundPending(p: Pending) {
    match p
    case Appending(row) => row.status == RUNNING && row.closing == None
    case Rewriting(read, c) => Sane(read) && c.Done? && Closes(c.status) && OpenRow(read, c.name).Some?
  }

  lemma ClosedIsSane(rows: seq<Row>, c: Command)
    requires Sane(rows) && c.Done? && Closes(c.status) && OpenRow(rows, c.name).Some?
    ensures Sane(Rewritten(rows, c)) && Preserves(rows, Rewritten(rows, c))
  {
  }

  lemma StepSound(w: World, e: Event)
    requires Sound(w) && (e.Read? ==> WellFormed(e.c))
    ensures Sound(Step(w, e))
  {
    if e.Read? {
      assert WellFormed(e.c);
    } else if e.pid in w.pending {
      assert SoundPending(w.pending[e.pid]);
      if w.pending[e.pid].Rewriting? {
        ClosedIsSane(w.pending[e.pid].read, w.pending[e.pid].c);
      }
    }
  }

  lemma {:induction false} ExecSound(w: World, es: seq<Event>)
    requires Sound(w) && forall e :: e in es && e.Read? ==> WellFormed(e.c)
    ensures Sound(Exec(w, es))
    decreases |es|
  {
    if es != [] {
      assert es[|es| - 1] in es;
      ExecSound(w, es[..|es| - 1]);
      StepSound(Exec(w, es[..|es| - 1]), es[|es| - 1]);
    }
  }

  /** An up-to-date step loses nothing. */
  lemma UpToDateKeeps(w: World, e: Event)
    requires Sound(w) && UpToDate(w, e)
    ensures Preserves(w.ledger, Step(w, e).ledger)
  {
    if e.Write? && e.pid in w.pending && w.pending[e.pid].Rewriting? {
      assert SoundPending(w.pending[e.pid]);
      ClosedIsSane(w.pending[e.pid].read, w.pending[e.pid].c);
    }
  }

  /** A rewrite that loses nothing of a ledger that lost nothing of what was read is up to date. */
  lemma KeepsMeansUpToDate(read: seq<Row>, now: seq<Row>, c: Command)
    requires Sane(read) && Sane(now) && c.Done? && Closes(c.status) && OpenRow(read, c.name).Some?
    requires Preserves(read, now) && Preserves(now, Rewritten(read, c))
    ensures now == read || now == Rewritten(read, c)
  {
    var i := OpenRow(read, c.name).value;
    var after := Rewritten(read, c);
    forall j | 0 <= j < |read| && j != i ensures now[j] == read[j] {
      assert after[j] == read[j];
    }
    assert now[i] == read[i] || now[i] == after[i];
    if now[i] == read[i] {
      assert now == read;
    } else {
      assert now == after;
    }
  }

  lemma PreservesChain(x: seq<Row>, y: seq<Row>, z: seq<Row>)
    requires Preserves(x, y) && Preserves(y, z)
    ensures Preserves(x, z)
  {
  }

  /** While nothing is lost, the ledger keeps everything every pending rewrite has read. */
  ghost predicate ReadsKept(w: World) {
    forall p :: p in w.pending && w.pending[p].Rewriting? ==> Preserves(w.pending[p].read, w.ledger)
  }

  lemma ReadsKeptNext(w: World, e: Event)
    requires ReadsKept(w) && Preserves(w.ledger, Step(w, e).ledger)
    ensures ReadsKept(Step(w, e))
  {
    var next := Step(w, e);
    forall p | p in next.pending && next.pending[p].Rewriting? ensures Preserves(next.pending[p].read, next.ledger) {
      if p in w.pending && w.pending[p] == next.pending[p] {
        PreservesChain(w.pending[p].read, w.ledger, next.ledger);
      }
    }
  }

  lemma {:induction false} ReadsStayKept(w: World, es: seq<Event>)
    requires ReadsKept(w) && NothingLost(w, es)
    ensures ReadsKept(Exec(w, es))
    decreases |es|
  {
    if es != [] {
      var n := |es| - 1;
      forall i | 0 <= i < n ensures KeptAt(w, es[..n], i) {
        assert KeptAt(w, es, i);
        assert es[..n][..i] == es[..i] && es[..n][..i + 1] == es[..i + 1];
      }
      ReadsStayKept(w, es[..n]);
      assert KeptAt(w, es, n);
      assert es[..n + 1] == es;
      ReadsKeptNext(Exec(w, es[..n]), es[n]);
    }
  }

  /** Over any trace of any commands in any interleaving, nothing is ever lost exactly when every rewrite
      is up to date: nothing that changed the ledger landed since its process read it, unless that left
      the ledger as the rewrite will. */
  lemma NothingLostIff(w: World, es: seq<Event>)
    requires w.pending == map[] && Sane(w.ledger) && forall e :: e in es && e.Read? ==> WellFormed(e.c)
    ensures NothingLost(w, es) <==> AllUpToDate(w, es)
  {
    forall i | 0 <= i < |es| ensures AllUpToDate(w, es) ==> KeptAt(w, es, i) {
      PrefixSound(w, es, i);
      assert UpToDateAt(w, es, i) ==> UpToDate(Exec(w, es[..i]), es[i]);
      if UpToDateAt(w, es, i) {
        UpToDateKeeps(Exec(w, es[..i]), es[i]);
      }
    }
    if NothingLost(w, es) {
      forall i | 0 <= i < |es| ensures UpToDateAt(w, es, i) {
        LostOrUpToDate(w, es, i);
      }
    }
  }

  /** The world before event `i`. */
  lemma PrefixSound(w: World, es: seq<Event>, i: nat)
    requires w.pending == map[] && Sane(w.ledger) && forall e :: e in es && e.Read? ==> WellFormed(e.c)
    requires i < |es|
    ensures Sound(Exec(w, es[..i])) && Exec(w, es[..i + 1]) == Step(Exec(w, es[..i]), es[i])
  {
    assert forall e :: e in es[..i] ==> e in es;
    ExecSound(w, es[..i]);
    assert es[..i + 1][..i] == es[..i];
  }

  lemma LostOrUpToDate(w: World, es: seq<Event>, i: nat)
    requires w.pending == map[] && Sane(w.ledger) && forall e :: e in es && e.Read? ==> WellFormed(e.c)
    requires i < |es| && NothingLost(w, es)
    ensures UpToDateAt(w, es, i)
  {
    PrefixSound(w, es, i);
    forall h | 0 <= h < i ensures KeptAt(w, es[..i], h) {
      assert KeptAt(w, es, h);
      assert es[..i][..h] == es[..h] && es[..i][..h + 1] == es[..h + 1];
    }
    ReadsStayKept(w, es[..i]);
    assert KeptAt(w, es, i);
    var at := Exec(w, es[..i]);
    if es[i].Write? && es[i].pid in at.pending && at.pending[es[i].pid].Rewriting? {
      var p := at.pending[es[i].pid];
      assert SoundPending(p);
      KeepsMeansUpToDate(p.read, at.ledger, p.c);
    }
  }

  /** Two overlapping dones of different names: the second rewrite re-opens the row the first closed. */
  lemma OverlappingDonesReopen(x: Row, y: Row, a: Closing, b: Closing)
    requires x.name != y.name && x.status == RUNNING && y.status == RUNNING
    ensures var es := [Read(0, Done(x.name, "ok", a)), Read(1, Done(y.name, "ok", b)), Write(0), Write(1)];
            var w := World([x, y], map[]);
            && Exec(w, es[..3]).ledger == [x.(status := "ok", closing := Some(a)), y]
            && Exec(w, es).ledger == [x, y.(status := "ok", closing := Some(b))]
            && !NothingLost(w, es)
  {
    var (c, d) := (Done(x.name, "ok", a), Done(y.name, "ok", b));
    var es := [Read(0, c), Read(1, d), Write(0), Write(1)];
    var w := World([x, y], map[]);
    assert es[..3][..2] == es[..2] && es[..2][..1] == es[..1] && es[..1][..0] == [] && es[..4] == es;
    assert Exec(w, []) == w && es[..1][0] == es[0] && es[..2][1] == es[1] && es[..3][2] == es[2];
    assert OpenRow(w.ledger, x.name) == Some(0) && OpenRow(w.ledger, y.name) == Some(1);
    var w1 := Exec(w, es[..1]);
    assert w1 == World([x, y], map[0 := Rewriting([x, y], c)]);
    var w2 := Exec(w, es[..2]);
    assert w2.ledger == w.ledger && w2.pending == map[0 := Rewriting([x, y], c), 1 := Rewriting([x, y], d)];
    var w3 := Exec(w, es[..3]);
    assert w3.ledger == [x.(status := "ok", closing := Some(a)), y];
    var w4 := Exec(w, es);
    assert w4.ledger == [x, y.(status := "ok", closing := Some(b))];
    NotRunning("ok");
    assert w3.ledger[0].status != RUNNING && w4.ledger[0] != w3.ledger[0];
    assert !KeptAt(w, es, 3);
  }

  /** An append keeps one running row per name exactly when, at the write, the name is not running. */
  lemma AppendKeepsOneRunningIff(rows: seq<Row>, c: Command)
    requires c.Start? && OneRunning(rows)
    ensures OneRunning(rows + [NewRow(c)]) <==> OpenRow(rows, c.name).None?
  {
    var after := rows + [NewRow(c)];
    if OpenRow(rows, c.name).Some? {
      var i := OpenRow(rows, c.name).value;
      assert after[i].status == RUNNING && after[|rows|].status == RUNNING;
    }
  }

  /** The append of `start` is not atomic with its check: two interleaved starts of one name leave two
      running rows. */
  lemma InterleavedStartsDuplicate(name: string)
    ensures var es := [Read(0, Start(name, "t0", "c", "h")), Read(1, Start(name, "t1", "c", "h")), Write(0), Write(1)];
            !OneRunning(Exec(World([], map[]), es).ledger)
  {
    var a, b := Start(name, "t0", "c", "h"), Start(name, "t1", "c", "h");
    var es := [Read(0, a), Read(1, b), Write(0), Write(1)];
    var w0 := World([], map[]);
    assert es[..3][..2] == es[..2] && es[..2][..1] == es[..1] && es[..1][..0] == [];
    assert Exec(w0, []) == w0;
    var w1 := Exec(w0, es[..1]);
    assert w1 == World([], map[0 := Appending(NewRow(a))]);
    var w2 := Exec(w0, es[..2]);
    assert w2 == World([], map[0 := Appending(NewRow(a)), 1 := Appending(NewRow(b))]);
    var w3 := Exec(w0, es[..3]);
    assert w3.ledger == [NewRow(a)] && w3.pending[1] == Appending(NewRow(b));
    var w4 := Exec(w0, es);
    assert w4.ledger == [NewRow(a), NewRow(b)];
    assert w4.ledger[0].status == RUNNING && w4.ledger[1].status == RUNNING && w4.ledger[0].name == w4.ledger[1].name;
  }
}
