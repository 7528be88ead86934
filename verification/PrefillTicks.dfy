/** Per-prompt prefill time out of a log of engine ticks: the one-pass segmentation machine against
    "erase mixed and idle ticks; one row per maximal prefill run closed by a decode tick". */
module PrefillTicks {

  /** Wall time, decode rows and prefill rows of one tick. */
  datatype Tick = Tick(total: nat, dec: nat, pre: nat) {
    predicate Mixed() { dec >= 1 && pre >= 1 }
    predicate Prefill() { dec == 0 && pre >= 1 }
    predicate Decode() { dec >= 1 && pre == 0 }
  }

  datatype Row = Row(ticks: nat, wall: nat, firstDecode: nat, ttftUpper: nat)

  // ----- the specification

  /** The pure prefill and pure decode ticks, in order. */
  function Erase(ts: seq<Tick>): (r: seq<Tick>)
    ensures forall i :: 0 <= i < |r| ==> r[i].Prefill() || r[i].Decode()
  {
    if ts == [] then [] else
      var t := ts[|ts| - 1];
      if t.Prefill() || t.Decode() then Erase(ts[..|ts| - 1]) + [t] else Erase(ts[..|ts| - 1])
  }

  /** Erasing goes tick by tick: a tick stays, between what stays of the ticks before and after it, unless
      it is mixed or idle. */
  lemma EraseAt(x: seq<Tick>, t: Tick, y: seq<Tick>)
    ensures Erase(x + [t] + y) ==
      Erase(x) + (if (t.dec == 0 && t.pre == 0) || (t.dec >= 1 && t.pre >= 1) then [] else [t]) + Erase(y)
  {
    EraseConcat(x + [t], y);
    assert (x + [t])[..|x|] == x;
  }

  lemma {:induction false} EraseConcat(x: seq<Tick>, y: seq<Tick>)
    ensures Erase(x + y) == Erase(x) + Erase(y)
  {
    if y == [] {
      assert x + y == x;
    } else {
      var n := |y| - 1;
      EraseConcat(x, y[..n]);
      assert (x + y)[..|x + y| - 1] == x + y[..n];
    }
  }

  /** Where the maximal prefill run that ends just before `i` starts. */
  function RunStart(e: seq<Tick>, i: nat): (s: nat)
    requires i <= |e|
    ensures s <= i && forall k :: s <= k < i ==> e[k].Prefill()
    ensures s > 0 ==> !e[s - 1].Prefill()
  {
    if i > 0 && e[i - 1].Prefill() then RunStart(e, i - 1) else i
  }

  /** The decode ticks that close a prefill run, ascending. */
  function Closings(e: seq<Tick>): (r: seq<nat>)
    ensures forall j :: 0 <= j < |r| ==> 0 < r[j] < |e| && e[r[j]].Decode() && e[r[j] - 1].Prefill()
  {
    if e == [] then [] else
      var i := |e| - 1;
      if i > 0 && e[i].Decode() && e[i - 1].Prefill() then Closings(e[..i]) + [i] else Closings(e[..i])
  }

  /** They are all of them, each once, in order. */
  lemma {:induction false} ClosingsComplete(e: seq<Tick>)
    ensures forall j, k :: 0 <= j < k < |Closings(e)| ==> Closings(e)[j] < Closings(e)[k]
    ensures forall i: nat :: 0 < i < |e| && e[i].Decode() && e[i - 1].Prefill() ==> i in Closings(e)
    decreases |e|
  {
    if e != [] {
      var last := |e| - 1;
      ClosingsComplete(e[..last]);
      forall i: nat | 0 < i < |e| && e[i].Decode() && e[i - 1].Prefill() ensures i in Closings(e) {
        if i < last {
          assert e[..last][i] == e[i] && e[..last][i - 1] == e[i - 1];
          assert i in Closings(e[..last]);
        }
      }
    }
  }

  function Wall(e: seq<Tick>): nat {
    if e == [] then 0 else Wall(e[..|e| - 1]) + e[|e| - 1].total
  }

  /** The row of the run closed at `i`. */
  function RowAt(e: seq<Tick>, i: nat): Row
    requires i < |e|
  {
    var wall := Wall(e[RunStart(e, i)..i]);
    Row(i - RunStart(e, i), wall, e[i].total, wall + e[i].total)
  }

  /** The row of the run that decode tick `i` closes, in numbers: the prefill ticks back to the last decode
      tick, their wall time, the closing tick's, and the two together. */
  ghost predicate RowOf(row: Row, e: seq<Tick>, i: nat) {
    && 0 < row.ticks <= i < |e|
    && (forall k :: i - row.ticks <= k < i ==> e[k].dec == 0 && e[k].pre >= 1)
    && (row.ticks < i ==> e[i - row.ticks - 1].dec >= 1 || e[i - row.ticks - 1].pre == 0)
    && row.wall == Wall(e[i - row.ticks..i])
    && row.firstDecode == e[i].total && row.ttftUpper == row.wall + e[i].total
  }

  /** One row per closing. */
  function Rows(e: seq<Tick>): (r: seq<Row>)
    ensures |r| == |Closings(e)|
  {
    seq(|Closings(e)|, j requires 0 <= j < |Closings(e)| => RowAt(e, Closings(e)[j]))
  }

  function MixedCount(ts: seq<Tick>): nat {
    if ts == [] then 0 else MixedCount(ts[..|ts| - 1]) + if ts[|ts| - 1].Mixed() then 1 else 0
  }

  lemma {:induction false} MixedCounts(ts: seq<Tick>)
    ensures MixedCount(ts) == |set i: nat | i < |ts| && ts[i].dec >= 1 && ts[i].pre >= 1|
  {
    if ts != [] {
      var n := |ts| - 1;
      MixedCounts(ts[..n]);
      var init, t := ts[..n], ts[n];
      assert ts == init + [t];
      assert (set i: nat | i < |ts| && ts[i].dec >= 1 && ts[i].pre >= 1)
          == (set i: nat | i < n && init[i].dec >= 1 && init[i].pre >= 1) + if t.Mixed() then {n} else {};
    }
  }

  /** Index of the first prefill tick, or the length. */
  function FirstPrefill(e: seq<Tick>): (i: nat)
    ensures i <= |e| && (i < |e| ==> e[i].Prefill()) && forall k :: 0 <= k < i ==> !e[k].Prefill()
  {
    if e == [] then 0 else
      var i := FirstPrefill(e[..|e| - 1]);
      if i < |e| - 1 || e[|e| - 1].Prefill() then i else |e|
  }

  // ----- how the specification grows by one tick

  lemma RunStartPrefix(e: seq<Tick>, t: Tick, i: nat)
    requires i <= |e|
    ensures RunStart(e + [t], i) == RunStart(e, i)
  {
    if i > 0 && e[i - 1].Prefill() {
      RunStartPrefix(e, t, i - 1);
    }
  }

  lemma RowAtPrefix(e: seq<Tick>, t: Tick, i: nat)
    requires i < |e|
    ensures RowAt(e + [t], i) == RowAt(e, i)
  {
    RunStartPrefix(e, t, i);
    assert (e + [t])[RunStart(e, i)..i] == e[RunStart(e, i)..i];
  }

  /** A closing tick adds one row, any other tick none. */
  lemma RowsSnoc(e: seq<Tick>, t: Tick)
    ensures Rows(e + [t]) ==
      if e != [] && t.Decode() && e[|e| - 1].Prefill() then Rows(e) + [RowAt(e + [t], |e|)] else Rows(e)
  {
    assert (e + [t])[..|e|] == e;
    forall j | 0 <= j < |Closings(e)| ensures Rows(e + [t])[j] == Rows(e)[j] {
      RowAtPrefix(e, t, Closings(e)[j]);
    }
  }

  /** The open run: the prefill ticks after the last decode tick. */
  function Tail(e: seq<Tick>): seq<Tick> {
    e[RunStart(e, |e|)..]
  }

  lemma TailSnoc(e: seq<Tick>, t: Tick)
    ensures Tail(e + [t]) == if t.Prefill() then Tail(e) + [t] else []
    ensures t.Decode() ==> RowAt(e + [t], |e|) == Row(|Tail(e)|, Wall(Tail(e)), t.total, Wall(Tail(e)) + t.total)
  {
    RunStartPrefix(e, t, |e|);
    var s := RunStart(e, |e|);
    assert (e + [t])[s..|e|] == e[s..];
    assert (e + [t])[s..] == e[s..] + [t];
  }

  lemma WallSnoc(e: seq<Tick>, t: Tick)
    ensures Wall(e + [t]) == Wall(e) + t.total
  {
    assert (e + [t])[..|e|] == e;
  }

  lemma {:induction false} FirstPrefillSnoc(e: seq<Tick>, t: Tick)
    ensures FirstPrefill(e + [t]) == if FirstPrefill(e) < |e| || t.Prefill() then FirstPrefill(e) else |e| + 1
  {
    assert (e + [t])[..|e|] == e;
  }

  /** With no row and no open run, no prefill tick has been seen. */
  lemma {:induction false} NothingYet(e: seq<Tick>)
    requires forall i :: 0 <= i < |e| ==> e[i].Prefill() || e[i].Decode()
    ensures Rows(e) == [] && Tail(e) == [] <==> FirstPrefill(e) == |e|
    decreases |e|
  {
    if e != [] {
      var init, t := e[..|e| - 1], e[|e| - 1];
      assert init + [t] == e;
      NothingYet(init);
      RowsSnoc(init, t);
      TailSnoc(init, t);
      FirstPrefillSnoc(init, t);
      if init != [] && Tail(init) != [] {
        assert init[|init| - 1].Prefill();
      }
    }
  }

  // ----- the machine

  /** The machine's registers after the erased ticks `e`. */
  ghost predicate Registers(e: seq<Tick>, out: seq<Row>, curN: nat, curPre: nat, started: bool, leading: nat) {
    && out == Rows(e)
    && curN == |Tail(e)| && curPre == Wall(Tail(e))
    && (started <==> curN > 0)
    && leading == FirstPrefill(e)
  }

  lemma PrefillRegisters(e: seq<Tick>, t: Tick, out: seq<Row>, curN: nat, curPre: nat, started: bool, leading: nat)
    requires t.Prefill() && Registers(e, out, curN, curPre, started, leading)
    ensures Registers(e + [t], out, curN + 1, curPre + t.total, true, leading)
  {
    RowsSnoc(e, t);
    TailSnoc(e, t);
    WallSnoc(Tail(e), t);
    FirstPrefillSnoc(e, t);
  }

  lemma OpenRun(e: seq<Tick>)
    requires Tail(e) != [] && forall i :: 0 <= i < |e| ==> e[i].Prefill() || e[i].Decode()
    ensures e != [] && e[|e| - 1].Prefill() && FirstPrefill(e) < |e|
  {
    NothingYet(e);
  }

  lemma ClosingRegisters(e: seq<Tick>, t: Tick, out: seq<Row>, curN: nat, curPre: nat, leading: nat)
    requires t.Decode() && Registers(e, out, curN, curPre, true, leading)
    requires forall i :: 0 <= i < |e| ==> e[i].Prefill() || e[i].Decode()
    ensures Registers(e + [t], out + [Row(curN, curPre, t.total, curPre + t.total)], 0, 0, false, leading)
  {
    OpenRun(e);
    CloseRun(e, t);
    FirstPrefillSnoc(e, t);
  }

  lemma CloseRun(e: seq<Tick>, t: Tick)
    requires t.Decode() && e != [] && e[|e| - 1].Prefill()
    ensures Rows(e + [t]) == Rows(e) + [Row(|Tail(e)|, Wall(Tail(e)), t.total, Wall(Tail(e)) + t.total)]
    ensures Tail(e + [t]) == [] && Wall(Tail(e + [t])) == 0
  {
    RowsSnoc(e, t);
    TailSnoc(e, t);
  }

  lemma DecodeRegisters(e: seq<Tick>, t: Tick, out: seq<Row>, curN: nat, curPre: nat, leading: nat)
    requires t.Decode() && Registers(e, out, curN, curPre, false, leading)
    requires forall i :: 0 <= i < |e| ==> e[i].Prefill() || e[i].Decode()
    ensures Registers(e + [t], out, curN, curPre, false, if out == [] then leading + 1 else leading)
  {
    RowsSnoc(e, t);
    TailSnoc(e, t);
    FirstPrefillSnoc(e, t);
    NothingYet(e);
  }

  /** One pure tick. */
  method Step(t: Tick, out: seq<Row>, curN: nat, curPre: nat, started: bool, leading: nat, ghost e: seq<Tick>)
    returns (out': seq<Row>, curN': nat, curPre': nat, started': bool, leading': nat)
    requires t.Prefill() || t.Decode()
    requires forall i :: 0 <= i < |e| ==> e[i].Prefill() || e[i].Decode()
    requires Registers(e, out, curN, curPre, started, leading)
    ensures Registers(e + [t], out', curN', curPre', started', leading')
  {
    out', curN', curPre', started', leading' := out, curN, curPre, started, leading;
    if t.dec == 0 && t.pre >= 1 {
      PrefillRegisters(e, t, out, curN, curPre, started, leading);
      curPre' := curPre + t.total;
      curN' := curN + 1;
      started' := true;
    } else if t.dec >= 1 && started {
      ClosingRegisters(e, t, out, curN, curPre, leading);
      out' := out + [Row(curN, curPre, t.total, curPre + t.total)];
      curPre', curN' := 0, 0;
      started' := false;
    } else {
      DecodeRegisters(e, t, out, curN, curPre, leading);
      if t.dec >= 1 && out == [] {
        leading' := leading + 1;
      }
    }
  }

  lemma RowsSpelledOut(e: seq<Tick>)
    ensures |Rows(e)| == |Closings(e)|
    ensures forall j :: 0 <= j < |Rows(e)| ==> RowOf(Rows(e)[j], e, Closings(e)[j])
  {
    forall j | 0 <= j < |Rows(e)| ensures RowOf(Rows(e)[j], e, Closings(e)[j]) {
      RowAtIs(e, Closings(e)[j]);
    }
  }

  lemma RowAtIs(e: seq<Tick>, i: nat)
    requires 0 < i < |e| && e[i - 1].Prefill()
    ensures RowOf(RowAt(e, i), e, i)
  {
  }

  /** `parse` over the parsed lines. The ghost results are the open run at the end of the log. */
  method Parse(rows: seq<Tick>)
    returns (out: seq<Row>, leading: nat, mixed: nat, ghost openTicks: nat, ghost openWall: nat)
    ensures out == Rows(Erase(rows)) && |out| == |Closings(Erase(rows))|
    ensures forall j :: 0 <= j < |out| ==> RowOf(out[j], Erase(rows), Closings(Erase(rows))[j])
    ensures leading == FirstPrefill(Erase(rows))
    ensures mixed == |set i: nat | i < |rows| && rows[i].dec >= 1 && rows[i].pre >= 1|
    ensures openTicks == |Tail(Erase(rows))| && openWall == Wall(Tail(Erase(rows)))
  {
    out, leading, mixed, openTicks, openWall := ParseTicks(rows);
    RowsSpelledOut(Erase(rows));
    MixedCounts(rows);
  }

  method ParseTicks(rows: seq<Tick>)
    returns (out: seq<Row>, leading: nat, mixed: nat, ghost openTicks: nat, ghost openWall: nat)
    ensures out == Rows(Erase(rows)) && leading == FirstPrefill(Erase(rows)) && mixed == MixedCount(rows)
    ensures openTicks == |Tail(Erase(rows))| && openWall == Wall(Tail(Erase(rows)))
  {
    var curPre, curN, started := 0, 0, false;
    out, leading, mixed := [], 0, 0;
    for k := 0 to |rows|
      invariant Registers(Erase(rows[..k]), out, curN, curPre, started, leading)
      invariant mixed == MixedCount(rows[..k])
    {
      var t := rows[k];
      assert rows[..k + 1][..k] == rows[..k];
      if t.dec >= 1 && t.pre >= 1 {
        mixed := mixed + 1;
      } else if t.Prefill() || t.Decode() {
        out, curN, curPre, started, leading := Step(t, out, curN, curPre, started, leading, Erase(rows[..k]));
      }
    }
    assert rows[..|rows|] == rows;
    openTicks, openWall := curN, curPre;
  }

  // ----- conservation

  function TotalWall(rows: seq<Row>): nat {
    if rows == [] then 0 else TotalWall(rows[..|rows| - 1]) + rows[|rows| - 1].wall
  }

  function TotalTicks(rows: seq<Row>): nat {
    if rows == [] then 0 else TotalTicks(rows[..|rows| - 1]) + rows[|rows| - 1].ticks
  }

  /** The wall and the count of the pure prefill ticks of a log. */
  function PrefillWall(ts: seq<Tick>): nat {
    if ts == [] then 0 else
      PrefillWall(ts[..|ts| - 1]) + if ts[|ts| - 1].Prefill() then ts[|ts| - 1].total else 0
  }

  function PrefillCount(ts: seq<Tick>): nat {
    if ts == [] then 0 else
      PrefillCount(ts[..|ts| - 1]) + if ts[|ts| - 1].Prefill() then 1 else 0
  }

  lemma ConservationStep(e: seq<Tick>, t: Tick)
    requires t.Prefill() || t.Decode()
    ensures TotalWall(Rows(e + [t])) + Wall(Tail(e + [t]))
         == TotalWall(Rows(e)) + Wall(Tail(e)) + if t.Prefill() then t.total else 0
    ensures TotalTicks(Rows(e + [t])) + |Tail(e + [t])|
         == TotalTicks(Rows(e)) + |Tail(e)| + if t.Prefill() then 1 else 0
  {
    RowsSnoc(e, t);
    TailSnoc(e, t);
    if t.Prefill() {
      WallSnoc(Tail(e), t);
    } else if e != [] && e[|e| - 1].Prefill() {
      var row := RowAt(e + [t], |e|);
      assert (Rows(e) + [row])[..|Rows(e)|] == Rows(e);
    } else {
      assert Tail(e) == [];
    }
  }

  /** Nothing of a pure prefill tick is lost or counted twice: the rows and the open tail add up to
      the log's pure prefill ticks, in wall and in number. */
  lemma {:induction false} Conservation(ts: seq<Tick>)
    ensures var e := Erase(ts);
            TotalWall(Rows(e)) + Wall(Tail(e)) == PrefillWall(ts) && TotalTicks(Rows(e)) + |Tail(e)| == PrefillCount(ts)
    decreases |ts|
  {
    if ts != [] {
      var init, t := ts[..|ts| - 1], ts[|ts| - 1];
      Conservation(init);
      if t.Prefill() || t.Decode() {
        ConservationStep(Erase(init), t);
      }
    }
  }

  /** Erasing first changes nothing but the mixed count: mixed and idle ticks leave no trace. */
  lemma {:induction false} EraseIdempotent(ts: seq<Tick>)
    ensures Erase(Erase(ts)) == Erase(ts)
    decreases |ts|
  {
    if ts != [] {
      var init, t := ts[..|ts| - 1], ts[|ts| - 1];
      EraseIdempotent(init);
      if t.Prefill() || t.Decode() {
        assert (Erase(init) + [t])[..|Erase(init)|] == Erase(init);
      }
    }
  }
}
