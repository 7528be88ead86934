/** Contingency tables over a run's evaluation points: the 2^k table of one run with its marginals, the
    paired comparison of two runs through their row permutations, and the check of a permutation
    against the gold answers with its negative control. */
module CurveTable {

  import opened Prelude
  import opened Discordance

  /** One evaluated problem: its gold answer and whether the run got it right. */
  datatype Row = Row(answer: string, correct: bool)

  // ----- the 2^k table

  /** The same problem at every position of every curve. */
  ghost predicate Aligned(curves: seq<seq<Row>>) {
    && (forall j, k :: 0 <= j < |curves| && 0 <= k < |curves| ==> |curves[j]| == |curves[k]|)
    && (forall j, k, i :: 0 <= j < |curves| && 0 <= k < |curves| && 0 <= i < |curves[j]| && i < |curves[k]| ==>
          curves[j][i].answer == curves[k][i].answer)
  }

  method AssertAligned(curves: seq<seq<Row>>) returns (ok: bool)
    requires curves != []
    ensures ok <==> Aligned(curves)
  {
    var n := |curves[0]|;
    for j := 0 to |curves|
      invariant forall k :: 0 <= k < j ==> |curves[k]| == n
    {
      if |curves[j]| != n {
        return false;
      }
    }
    for i := 0 to n
      invariant forall h, k :: 0 <= h < |curves| && 0 <= k < i ==> curves[h][k].answer == curves[0][k].answer
    {
      for j := 0 to |curves|
        invariant forall h :: 0 <= h < j ==> curves[h][i].answer == curves[0][i].answer
      {
        if curves[j][i].answer != curves[0][i].answer {
          return false;
        }
      }
    }
    return true;
  }

  type Cell = seq<bool>

  /** Which curves get position `i` right. */
  function CellAt(curves: seq<seq<Row>>, i: nat): (c: Cell)
    requires forall j :: 0 <= j < |curves| ==> i < |curves[j]|
    ensures |c| == |curves| && forall j :: 0 <= j < |curves| ==> c[j] == curves[j][i].correct
  {
    seq(|curves|, j requires 0 <= j < |curves| => curves[j][i].correct)
  }

  function Bump(cells: map<Cell, nat>, c: Cell): map<Cell, nat> {
    cells[c := if c in cells then cells[c] + 1 else 1]
  }

  /** Rows a curve gets right. */
  function Score(rows: seq<Row>): nat {
    if rows == [] then 0
    else Score(rows[..|rows| - 1]) + if rows[|rows| - 1].correct then 1 else 0
  }

  /** A score is the number of right positions. */
  lemma {:induction false} ScoreCounts(rows: seq<Row>)
    ensures Score(rows) == |set i: nat | i < |rows| && rows[i].correct|
  {
    if rows != [] {
      var n := |rows| - 1;
      ScoreCounts(rows[..n]);
      var right := set i: nat | i < |rows| && rows[i].correct;
      var before := set i: nat | i < n && rows[..n][i].correct;
      assert right == before + if rows[n].correct then {n} else {};
    }
  }

  /** The curves that get position `i` right are those the cell `c` names. */
  ghost predicate Pattern(curves: seq<seq<Row>>, i: nat, c: Cell) {
    |c| == |curves| && forall j :: 0 <= j < |curves| ==> i < |curves[j]| && c[j] == curves[j][i].correct
  }

  /** The positions before `n` with pattern `c`. */
  ghost function Having(curves: seq<seq<Row>>, n: nat, c: Cell): set<nat> {
    set i: nat | i < n && Pattern(curves, i, c)
  }

  /** Each cell that occurs among the first `n` positions, with how often. */
  ghost predicate Tabulated(cells: map<Cell, nat>, curves: seq<seq<Row>>, n: nat) {
    && (forall c :: c in cells <==> Having(curves, n, c) != {})
    && (forall c :: c in cells ==> cells[c] == |Having(curves, n, c)|)
  }

  lemma HavingNext(curves: seq<seq<Row>>, n: nat, c: Cell)
    requires forall j :: 0 <= j < |curves| ==> n < |curves[j]|
    ensures Having(curves, n + 1, c) == Having(curves, n, c) + if c == CellAt(curves, n) then {n} else {}
  {
    assert Pattern(curves, n, c) <==> c == CellAt(curves, n);
  }

  lemma TabulatedNext(cells: map<Cell, nat>, curves: seq<seq<Row>>, n: nat)
    requires Tabulated(cells, curves, n) && forall j :: 0 <= j < |curves| ==> n < |curves[j]|
    ensures Tabulated(Bump(cells, CellAt(curves, n)), curves, n + 1)
  {
    var d, more := CellAt(curves, n), Bump(cells, CellAt(curves, n));
    forall c
      ensures c in more <==> Having(curves, n + 1, c) != {}
      ensures c in more ==> more[c] == |Having(curves, n + 1, c)|
    {
      HavingNext(curves, n, c);
      assert c == d ==> n in Having(curves, n + 1, c);
      assert c in cells <==> Having(curves, n, c) != {};
    }
  }

  /** What a cell adds to curve `j`'s marginal. */
  function Share(c: Cell, count: nat, j: nat): nat {
    if j < |c| && c[j] then count else 0
  }

  /** Sum of the cells in which curve `j` is right, over the cells in `keys`. */
  ghost function Marginal(cells: map<Cell, nat>, keys: set<Cell>, j: nat): nat
    requires keys <= cells.Keys
  {
    if keys == {} then 0
    else
      var c :| c in keys;
      Share(c, cells[c], j) + Marginal(cells, keys - {c}, j)
  }

  /** The order in which cells are added up does not matter. */
  lemma {:induction false} MarginalTake(cells: map<Cell, nat>, keys: set<Cell>, j: nat, c: Cell)
    requires keys <= cells.Keys && c in keys
    ensures Marginal(cells, keys, j) == Share(c, cells[c], j) + Marginal(cells, keys - {c}, j)
  {
    var d :| d in keys && Marginal(cells, keys, j) == Share(d, cells[d], j) + Marginal(cells, keys - {d}, j);
    if d != c {
      MarginalTake(cells, keys - {d}, j, c);
      MarginalTake(cells, keys - {c}, j, d);
      assert keys - {d} - {c} == keys - {c} - {d};
    }
  }

  lemma {:induction false} MarginalSame(x: map<Cell, nat>, y: map<Cell, nat>, keys: set<Cell>, j: nat)
    requires keys <= x.Keys && keys <= y.Keys && forall c :: c in keys ==> x[c] == y[c]
    ensures Marginal(x, keys, j) == Marginal(y, keys, j)
  {
    if keys != {} {
      var c :| c in keys;
      MarginalTake(x, keys, j, c);
      MarginalTake(y, keys, j, c);
      MarginalSame(x, y, keys - {c}, j);
    }
  }

  /** One more row in a cell adds one to the marginals of the curves that cell has right. */
  lemma MarginalBump(cells: map<Cell, nat>, c: Cell, j: nat)
    ensures Marginal(Bump(cells, c), Bump(cells, c).Keys, j) == Marginal(cells, cells.Keys, j) + Share(c, 1, j)
  {
    var more := Bump(cells, c);
    MarginalTake(more, more.Keys, j, c);
    if c in cells {
      MarginalTake(cells, cells.Keys, j, c);
      assert more.Keys - {c} == cells.Keys - {c};
      MarginalSame(cells, more, cells.Keys - {c}, j);
    } else {
      assert more.Keys - {c} == cells.Keys;
      MarginalSame(cells, more, cells.Keys, j);
    }
  }

  /** Every marginal is what the first `n` rows of its curve score. */
  ghost predicate Closed(cells: map<Cell, nat>, curves: seq<seq<Row>>, n: nat) {
    forall j :: 0 <= j < |curves| && n <= |curves[j]| ==> Marginal(cells, cells.Keys, j) == Score(curves[j][..n])
  }

  lemma ClosedNext(cells: map<Cell, nat>, curves: seq<seq<Row>>, n: nat)
    requires Closed(cells, curves, n) && forall j :: 0 <= j < |curves| ==> n < |curves[j]|
    ensures Closed(Bump(cells, CellAt(curves, n)), curves, n + 1)
  {
    var c := CellAt(curves, n);
    forall j | 0 <= j < |curves|
      ensures Marginal(Bump(cells, c), Bump(cells, c).Keys, j) == Score(curves[j][..n + 1])
    {
      MarginalBump(cells, c, j);
      assert curves[j][..n + 1][..n] == curves[j][..n];
    }
  }

  /** The table of a run; refused only when the curves are not aligned. A cell counts the positions with
      its pattern. The marginal test that closes the table cannot fail. */
  method SingleTable(curves: seq<seq<Row>>) returns (cells: Option<map<Cell, nat>>, closes: bool)
    requires curves != []
    ensures cells.Some? <==> Aligned(curves)
    ensures cells.Some? ==> closes && Tabulated(cells.value, curves, |curves[0]|)
    ensures cells.Some? ==>
      forall j :: 0 <= j < |curves| ==> Marginal(cells.value, cells.value.Keys, j) == Score(curves[j])
  {
    var aligned := AssertAligned(curves);
    if !aligned {
      return None, false;
    }
    var table := Tabulate(curves);
    forall j | 0 <= j < |curves| ensures curves[j][..|curves[0]|] == curves[j] {
    }
    closes := true;
    for j := 0 to |curves|
      invariant closes
    {
      var got := MarginalOf(table, j);
      var want := Score(curves[j]);
      closes := closes && got == want;
    }
    cells := Some(table);
  }

  method Tabulate(curves: seq<seq<Row>>) returns (cells: map<Cell, nat>)
    requires curves != [] && forall j :: 0 <= j < |curves| ==> |curves[j]| == |curves[0]|
    ensures Tabulated(cells, curves, |curves[0]|) && Closed(cells, curves, |curves[0]|)
  {
    cells := map[];
    for i := 0 to |curves[0]|
      invariant Tabulated(cells, curves, i) && Closed(cells, curves, i)
    {
      TabulatedNext(cells, curves, i);
      ClosedNext(cells, curves, i);
      cells := Bump(cells, CellAt(curves, i));
    }
  }

  /** Adds up the cells in whatever order they come. */
  method MarginalOf(cells: map<Cell, nat>, j: nat) returns (got: nat)
    ensures got == Marginal(cells, cells.Keys, j)
  {
    got := 0;
    var left := cells.Keys;
    while left != {}
      invariant left <= cells.Keys && got + Marginal(cells, left, j) == Marginal(cells, cells.Keys, j)
      decreases left
    {
      var c :| c in left;
      MarginalTake(cells, left, j, c);
      got := got + Share(c, cells[c], j);
      left := left - {c};
    }
  }

  // ----- two runs through their permutations

  /** File row to correctness; a file row named twice keeps its last position. */
  function ByRow(perm: seq<nat>, rows: seq<Row>): map<nat, bool>
    requires |rows| <= |perm|
  {
    if rows == [] then map[]
    else
      var n := |rows| - 1;
      ByRow(perm, rows[..n])[perm[n] := rows[n].correct]
  }

  /** No two positions name one file row. */
  ghost predicate Injective(perm: seq<nat>) {
    forall i, j :: 0 <= i < j < |perm| ==> perm[i] != perm[j]
  }

  ghost predicate InRange(perm: seq<nat>, gold: seq<string>) {
    forall i :: 0 <= i < |perm| ==> perm[i] < |gold|
  }

  /** Scores, discordant counts and paired count of two runs at one step. */
  datatype Swap = Swap(score0: nat, score1: nat, right0wrong1: nat, right1wrong0: nat, paired: nat)

  function OnlyIn(m: map<nat, bool>, o: map<nat, bool>): set<nat> {
    set fr | fr in m && fr in o && m[fr] && !o[fr]
  }

  function CompareRuns(rows0: seq<Row>, rows1: seq<Row>, perm0: seq<nat>, perm1: seq<nat>): Swap
    requires |rows0| <= |perm0| && |rows1| <= |perm1|
  {
    var (m0, m1) := (ByRow(perm0, rows0), ByRow(perm1, rows1));
    Swap(Score(rows0), Score(rows1), |OnlyIn(m0, m1)|, |OnlyIn(m1, m0)|, |set fr | fr in perm0 && fr in perm1|)
  }

  /** File rows a run has right. */
  ghost function RightRows(m: map<nat, bool>): set<nat> { set fr | fr in m && m[fr] }

  /** Position `i`'s file row is named again before position `n`. */
  ghost predicate Repeated(perm: seq<nat>, i: nat, n: nat)
    requires n <= |perm|
  {
    i < n && exists j :: i < j < n && perm[j] == perm[i]
  }

  /** Right positions that do not show in the file rows, because a later position names their row. */
  ghost function Shadowed(perm: seq<nat>, rows: seq<Row>): set<nat>
    requires |rows| <= |perm|
  {
    set i: nat | i < |rows| && rows[i].correct && Repeated(perm, i, |rows|)
  }

  /** A file row shows what its last position says. */
  lemma {:induction false} LastPosition(perm: seq<nat>, rows: seq<Row>, fr: nat) returns (i: nat)
    requires |rows| <= |perm| && fr in ByRow(perm, rows)
    ensures i < |rows| && perm[i] == fr && !Repeated(perm, i, |rows|) && ByRow(perm, rows)[fr] == rows[i].correct
  {
    var n := |rows| - 1;
    if perm[n] == fr {
      i := n;
    } else {
      i := LastPosition(perm, rows[..n], fr);
    }
  }

  /** The last of the run's positions that names file row `fr` is answered right, or wrong. */
  ghost predicate Says(perm: seq<nat>, rows: seq<Row>, fr: nat, right: bool) {
    exists i :: 0 <= i < |rows| && i < |perm| && perm[i] == fr && rows[i].correct == right
             && forall j :: i < j < |rows| && j < |perm| ==> perm[j] != fr
  }

  lemma SaysIffRow(perm: seq<nat>, rows: seq<Row>, fr: nat, right: bool)
    requires |rows| <= |perm|
    ensures Says(perm, rows, fr, right) <==> fr in ByRow(perm, rows) && ByRow(perm, rows)[fr] == right
  {
    ByRowHolds(perm, rows);
    if fr in ByRow(perm, rows) {
      var i := LastPosition(perm, rows, fr);
    } else {
      assert forall i :: 0 <= i < |rows| ==> perm[i] in perm[..|rows|];
    }
  }

  /** What two runs' numbers count: right positions, file rows whose last answers differ one way and
      the other, and file rows both permutations name. */
  lemma SwapByTheNumbers(rows0: seq<Row>, rows1: seq<Row>, perm0: seq<nat>, perm1: seq<nat>)
    requires |rows0| <= |perm0| && |rows1| <= |perm1|
    ensures var s := CompareRuns(rows0, rows1, perm0, perm1);
      && s.score0 == |set i: nat | i < |rows0| && rows0[i].correct|
      && s.score1 == |set i: nat | i < |rows1| && rows1[i].correct|
      && s.right0wrong1 == |set fr | fr in perm0 && Says(perm0, rows0, fr, true) && Says(perm1, rows1, fr, false)|
      && s.right1wrong0 == |set fr | fr in perm1 && Says(perm1, rows1, fr, true) && Says(perm0, rows0, fr, false)|
      && s.paired == |set fr | fr in perm0 && fr in perm1|
  {
    ScoreCounts(rows0);
    ScoreCounts(rows1);
    OnlyInSays(perm0, rows0, perm1, rows1);
    OnlyInSays(perm1, rows1, perm0, rows0);
  }

  lemma OnlyInSays(perm: seq<nat>, rows: seq<Row>, operm: seq<nat>, orows: seq<Row>)
    requires |rows| <= |perm| && |orows| <= |operm|
    ensures OnlyIn(ByRow(perm, rows), ByRow(operm, orows)) ==
      set fr | fr in perm && Says(perm, rows, fr, true) && Says(operm, orows, fr, false)
  {
    var m, o := ByRow(perm, rows), ByRow(operm, orows);
    forall fr ensures fr in OnlyIn(m, o) <==> fr in perm && Says(perm, rows, fr, true) && Says(operm, orows, fr, false)
    {
      SaysIffRow(perm, rows, fr, true);
      SaysIffRow(operm, orows, fr, false);
    }
  }

  lemma ShadowedFresh(perm: seq<nat>, rows: seq<Row>)
    requires rows != [] && |rows| <= |perm| && perm[|rows| - 1] !in perm[..|rows| - 1]
    ensures Shadowed(perm, rows) == Shadowed(perm, rows[..|rows| - 1])
  {
    var n := |rows| - 1;
    forall i: nat | i < n ensures Repeated(perm, i, n + 1) <==> Repeated(perm, i, n) {
      assert perm[i] in perm[..n];
    }
  }

  /** A position that names a row again shadows the row's last position so far, if that was right. */
  lemma ShadowedAgain(perm: seq<nat>, rows: seq<Row>, last: nat)
    requires rows != [] && |rows| <= |perm| && last < |rows| - 1 && perm[last] == perm[|rows| - 1]
    requires !Repeated(perm, last, |rows| - 1)
    ensures last !in Shadowed(perm, rows[..|rows| - 1])
    ensures Shadowed(perm, rows) == Shadowed(perm, rows[..|rows| - 1]) + if rows[last].correct then {last} else {}
  {
    var n := |rows| - 1;
    assert Repeated(perm, last, n + 1);
    forall i: nat | i < n && i != last ensures Repeated(perm, i, n + 1) <==> Repeated(perm, i, n) {
      if perm[i] == perm[n] {
        assert i < last;
      }
    }
  }

  /** Every right position shows as a right file row or is shadowed. */
  lemma {:induction false} ScoreSplits(perm: seq<nat>, rows: seq<Row>)
    requires |rows| <= |perm|
    ensures Score(rows) == |RightRows(ByRow(perm, rows))| + |Shadowed(perm, rows)|
  {
    if rows == [] {
      assert RightRows(ByRow(perm, rows)) == {} && Shadowed(perm, rows) == {};
    } else {
      var n := |rows| - 1;
      var was := ByRow(perm, rows[..n]);
      ScoreSplits(perm, rows[..n]);
      RightRowsNext(was, perm[n], rows[n].correct);
      ByRowHolds(perm, rows[..n]);
      if perm[n] in was {
        var last := LastPosition(perm, rows[..n], perm[n]);
        ShadowedAgain(perm, rows, last);
      } else {
        ShadowedFresh(perm, rows);
      }
    }
  }

  lemma RightRowsNext(m: map<nat, bool>, fr: nat, right: bool)
    ensures |RightRows(m[fr := right])| + (if fr in m && m[fr] then 1 else 0) == |RightRows(m)| + if right then 1 else 0
  {
    var rest := RightRows(m) - {fr};
    if right {
      assert RightRows(m[fr := right]) == rest + {fr};
    } else {
      assert RightRows(m[fr := right]) == rest;
    }
    if fr in RightRows(m) {
      assert RightRows(m) == rest + {fr};
    } else {
      assert RightRows(m) == rest;
    }
  }

  /** Under an injective permutation nothing is shadowed. */
  lemma NoneShadowed(perm: seq<nat>, rows: seq<Row>)
    requires |rows| <= |perm| && Injective(perm)
    ensures Shadowed(perm, rows) == {}
  {
  }

  /** The net score difference, accounted for exactly, whatever the permutations: the swap on the rows
      both runs hold, what each run has right on rows the other does not hold, and what its own
      permutation shadows. */
  lemma NetScore(rows0: seq<Row>, rows1: seq<Row>, perm0: seq<nat>, perm1: seq<nat>)
    requires |rows0| <= |perm0| && |rows1| <= |perm1|
    ensures var s := CompareRuns(rows0, rows1, perm0, perm1);
      s.score1 - s.score0 == s.right1wrong0 - s.right0wrong1
        + Unswapped(perm1, rows1, ByRow(perm0, rows0)) - Unswapped(perm0, rows0, ByRow(perm1, rows1))
  {
    var (m0, m1) := (ByRow(perm0, rows0), ByRow(perm1, rows1));
    ScoreSplits(perm0, rows0);
    ScoreSplits(perm1, rows1);
    RightParts(m0, m1);
    RightParts(m1, m0);
    SwapCounts(m0, m1);
  }

  /** Right positions of a run that the swap cannot see. */
  ghost function Unswapped(perm: seq<nat>, rows: seq<Row>, other: map<nat, bool>): nat
    requires |rows| <= |perm|
  {
    |RightRows(ByRow(perm, rows)) - other.Keys| + |Shadowed(perm, rows)|
  }

  /** The swap alone is the net score difference exactly when it misses as much of one run as of the
      other. */
  lemma NetIsSwapIff(rows0: seq<Row>, rows1: seq<Row>, perm0: seq<nat>, perm1: seq<nat>)
    requires |rows0| <= |perm0| && |rows1| <= |perm1|
    ensures var s := CompareRuns(rows0, rows1, perm0, perm1);
      (s.score1 - s.score0 == s.right1wrong0 - s.right0wrong1) <==>
      (Unswapped(perm1, rows1, ByRow(perm0, rows0)) == Unswapped(perm0, rows0, ByRow(perm1, rows1)))
  {
    NetScore(rows0, rows1, perm0, perm1);
  }

  /** The swap is the difference of what each run has right on the rows both hold. */
  lemma SwapCounts(m0: map<nat, bool>, m1: map<nat, bool>)
    ensures |OnlyIn(m1, m0)| - |OnlyIn(m0, m1)| == |RightRows(m1) * m0.Keys| - |RightRows(m0) * m1.Keys|
  {
    OnlyInIsDifference(m0, m1);
    OnlyInIsDifference(m1, m0);
    Discordant(RightRows(m1) * m0.Keys, RightRows(m0) * m1.Keys);
  }

  lemma OnlyInIsDifference(m: map<nat, bool>, o: map<nat, bool>)
    ensures OnlyIn(m, o) == RightRows(m) * o.Keys - RightRows(o) * m.Keys
  {
  }

  lemma RightParts(m: map<nat, bool>, o: map<nat, bool>)
    ensures |RightRows(m)| == |RightRows(m) * o.Keys| + |RightRows(m) - o.Keys|
  {
    assert RightRows(m) == (RightRows(m) * o.Keys) + (RightRows(m) - o.Keys);
  }

  lemma {:induction false} ByRowHolds(perm: seq<nat>, rows: seq<Row>)
    requires |rows| <= |perm|
    ensures ByRow(perm, rows).Keys == set i | i in perm[..|rows|]
  {
    if rows != [] {
      var n := |rows| - 1;
      ByRowHolds(perm, rows[..n]);
      assert perm[..|rows|] == perm[..n] + [perm[n]];
    }
  }

  /** Two runs over the same file rows: the net score difference is the swap alone. */
  lemma NetIsSwap(rows0: seq<Row>, rows1: seq<Row>, perm0: seq<nat>, perm1: seq<nat>)
    requires |rows0| == |perm0| && |rows1| == |perm1| && Injective(perm0) && Injective(perm1)
    requires (set fr | fr in perm0) == (set fr | fr in perm1)
    ensures var s := CompareRuns(rows0, rows1, perm0, perm1);
      s.score1 - s.score0 == s.right1wrong0 - s.right0wrong1
  {
    NetIsSwapIff(rows0, rows1, perm0, perm1);
    NoneShadowed(perm0, rows0);
    NoneShadowed(perm1, rows1);
    ByRowHolds(perm0, rows0);
    ByRowHolds(perm1, rows1);
    assert perm0[..|rows0|] == perm0 && perm1[..|rows1|] == perm1;
    NoneOutside(ByRow(perm0, rows0), ByRow(perm1, rows1));
  }

  lemma NoneOutside(m: map<nat, bool>, o: map<nat, bool>)
    requires m.Keys == o.Keys
    ensures RightRows(m) - o.Keys == {} && RightRows(o) - m.Keys == {}
  {
  }

  // ----- the gold check and its negative control

  /** Positions whose gold disagrees with the permutation's file row. */
  function Bad(rows: seq<Row>, perm: seq<nat>, gold: seq<string>, pos: nat): (r: seq<nat>)
    requires |perm| <= |rows| && InRange(perm, gold) && pos <= |perm|
    ensures forall i :: i in r <==> pos <= i < |perm| && rows[i].answer != gold[perm[i]]
    ensures r == [] <==> forall i :: pos <= i < |perm| ==> rows[i].answer == gold[perm[i]]
    decreases |perm| - pos
  {
    if pos == |perm| then []
    else (if rows[pos].answer != gold[perm[pos]] then [pos] else []) + Bad(rows, perm, gold, pos + 1)
  }

  predicate GoldCheck(rows: seq<Row>, perm: seq<nat>, gold: seq<string>)
    requires |perm| <= |rows| && InRange(perm, gold)
  {
    Bad(rows, perm, gold, 0) == []
  }

  /** The file rows of each gold, ascending. */
  ghost predicate Groups(byGold: map<string, seq<nat>>, gold: seq<string>, n: nat) {
    && n <= |gold|
    && (forall fr :: 0 <= fr < n ==> gold[fr] in byGold && fr in byGold[gold[fr]])
    && (forall g, i :: g in byGold && 0 <= i < |byGold[g]| ==> byGold[g][i] < n && gold[byGold[g][i]] == g)
    && (forall g :: g in byGold ==> Injective(byGold[g]))
  }

  lemma GroupsNext(byGold: map<string, seq<nat>>, gold: seq<string>, fr: nat, had: seq<nat>)
    requires fr < |gold| && Groups(byGold, gold, fr) && had == if gold[fr] in byGold then byGold[gold[fr]] else []
    ensures Groups(byGold[gold[fr] := had + [fr]], gold, fr + 1)
  {
    var g, next := gold[fr], byGold[gold[fr] := had + [fr]];
    forall r | 0 <= r < fr + 1 ensures gold[r] in next && r in next[gold[r]] {
      assert r < fr ==> r in byGold[gold[r]];
    }
    forall h, i | h in next && 0 <= i < |next[h]| ensures next[h][i] < fr + 1 && gold[next[h][i]] == h {
      assert h in byGold && i < |byGold[h]| ==> byGold[h][i] < fr && gold[byGold[h][i]] == h;
    }
  }

  method GroupByGold(gold: seq<string>) returns (byGold: map<string, seq<nat>>)
    ensures Groups(byGold, gold, |gold|)
  {
    byGold := map[];
    for fr := 0 to |gold|
      invariant Groups(byGold, gold, fr)
    {
      var g := gold[fr];
      var had := if g in byGold then byGold[g] else [];
      GroupsNext(byGold, gold, fr, had);
      byGold := byGold[g := had + [fr]];
    }
  }

  /** No other file row has this one's gold. */
  ghost predicate UniqueGold(gold: seq<string>, row: nat)
    requires row < |gold|
  {
    forall fr :: 0 <= fr < |gold| && gold[fr] == gold[row] ==> fr == row
  }

  /** Every position moved to some file row of the same gold; `choose` stands for the generator. */
  method SameGoldPerturb(perm: seq<nat>, gold: seq<string>, choose: (nat, nat) -> nat) returns (q: seq<nat>)
    requires InRange(perm, gold)
    requires forall k, n :: 0 < n ==> choose(k, n) < n
    ensures |q| == |perm| && InRange(q, gold)
    ensures forall i :: 0 <= i < |perm| ==> gold[q[i]] == gold[perm[i]]
    ensures forall i :: 0 <= i < |perm| && UniqueGold(gold, perm[i]) ==> q[i] == perm[i]
  {
    var byGold := GroupByGold(gold);
    q := [];
    for i := 0 to |perm|
      invariant |q| == i && InRange(q, gold)
      invariant forall j :: 0 <= j < i ==> gold[q[j]] == gold[perm[j]]
    {
      var group := byGold[gold[perm[i]]];
      assert perm[i] in group;
      q := q + [group[choose(i, |group|)]];
    }
  }

  /** The gold check cannot tell a perturbed permutation from the original. */
  lemma PerturbKeepsGoldCheck(rows: seq<Row>, perm: seq<nat>, q: seq<nat>, gold: seq<string>)
    requires |perm| <= |rows| && |q| == |perm| && InRange(perm, gold) && InRange(q, gold)
    requires forall i :: 0 <= i < |perm| ==> gold[q[i]] == gold[perm[i]]
    ensures GoldCheck(rows, q, gold) <==> GoldCheck(rows, perm, gold)
  {
  }

  /** What the check does see: it passes exactly when the permutation names a row with the right gold
      everywhere, so on distinct golds it pins the permutation down. */
  lemma GoldCheckPinsDistinct(rows: seq<Row>, perm: seq<nat>, q: seq<nat>, gold: seq<string>)
    requires |perm| <= |rows| && |q| == |perm| && InRange(perm, gold) && InRange(q, gold)
    requires forall x, y :: 0 <= x < y < |gold| ==> gold[x] != gold[y]
    requires GoldCheck(rows, perm, gold) && GoldCheck(rows, q, gold)
    ensures q == perm
  {
    forall i | 0 <= i < |perm| ensures q[i] == perm[i] {
      assert gold[q[i]] == rows[i].answer == gold[perm[i]];
    }
  }

  /** A perturbed permutation need not be injective. Against a run that holds every row it names, the
      swap then misses what it shadows, and is the net score difference exactly when that is what the
      other run has right on rows no longer named. */
  lemma PerturbedNet(rows0: seq<Row>, rows1: seq<Row>, perm0: seq<nat>, q: seq<nat>)
    requires |rows0| == |perm0| && |rows1| == |q| && Injective(perm0) && forall fr :: fr in q ==> fr in perm0
    ensures var s := CompareRuns(rows0, rows1, perm0, q);
      (s.score1 - s.score0 == s.right1wrong0 - s.right0wrong1) <==>
      (|Shadowed(q, rows1)| == |RightRows(ByRow(perm0, rows0)) - ByRow(q, rows1).Keys|)
  {
    NetIsSwapIff(rows0, rows1, perm0, q);
    NoneShadowed(perm0, rows0);
    ByRowHolds(perm0, rows0);
    ByRowHolds(q, rows1);
    assert perm0[..|rows0|] == perm0 && q[..|rows1|] == q;
    assert RightRows(ByRow(q, rows1)) - ByRow(perm0, rows0).Keys == {};
  }

  /** For instance two right answers of run 1 land on one file row. */
  lemma PerturbedSwapIsOff(wrong: Row, right: Row, perm0: seq<nat>, q: seq<nat>, gold: seq<string>)
    requires wrong == Row("7", false) && right == Row("7", true)
    requires perm0 == [0, 1] && q == [0, 0] && gold == ["7", "7"]
    ensures Injective(perm0) && InRange(perm0, gold) && InRange(q, gold) && GoldCheck([right, right], q, gold)
    ensures forall i :: 0 <= i < |q| ==> gold[q[i]] == gold[perm0[i]]
    ensures var s := CompareRuns([wrong, wrong], [right, right], perm0, q);
      s.score1 - s.score0 != s.right1wrong0 - s.right0wrong1
  {
    var rows0, rows1 := [wrong, wrong], [right, right];
    PerturbedNet(rows0, rows1, perm0, q);
    assert Repeated(q, 0, 2) by { assert q[1] == q[0]; }
    assert 0 in Shadowed(q, rows1);
    NoneRight(wrong);
    ScoreSplits(perm0, rows0);
  }

  lemma NoneRight(r: Row)
    requires !r.correct
    ensures Score([r, r]) == 0
  {
    assert [r, r][..1] == [r] && [r][..0] == [];
    assert Score([r]) == 0;
  }
}
