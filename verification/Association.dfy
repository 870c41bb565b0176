/** Matching the detections of a frame with the predicted boxes. */
module Association {
  import opened Common
  import opened BoxGeometry
  import opened Assignment

  type Scores = seq<seq<Score>>

  function IouRow(d: Box, trks: seq<Box>): (r: seq<Score>)
    ensures |r| == |trks| && forall j :: 0 <= j < |trks| ==> r[j] == Iou(d, trks[j])
  {
    seq(|trks|, j requires 0 <= j < |trks| => Iou(d, trks[j]))
  }

  function IouBatch(dets: seq<Box>, trks: seq<Box>): (m: Scores)
    ensures |m| == |dets| && Rectangular(m, |trks|)
    ensures forall i, j :: 0 <= i < |dets| && 0 <= j < |trks| ==> m[i][j] == Iou(dets[i], trks[j])
  {
    seq(|dets|, i requires 0 <= i < |dets| => IouRow(dets[i], trks))
  }

  // ----- the shortcut -----

  /** Entries of row `i`, among the first `k` columns, above the threshold. */
  function RowSum(m: Scores, columns: nat, t: real, i: nat, k: nat): nat
    requires Rectangular(m, columns) && i < |m| && k <= columns
  {
    if k == 0 then 0 else RowSum(m, columns, t, i, k - 1) + if m[i][k - 1].Above(t) then 1 else 0
  }

  function ColumnSum(m: Scores, columns: nat, t: real, j: nat, k: nat): nat
    requires Rectangular(m, columns) && j < columns && k <= |m|
  {
    if k == 0 then 0 else ColumnSum(m, columns, t, j, k - 1) + if m[k - 1][j].Above(t) then 1 else 0
  }

  /** The largest row sum and the largest column sum are both one. */
  predicate Shortcut(m: Scores, columns: nat, t: real)
    requires Rectangular(m, columns)
  {
    && (forall i :: 0 <= i < |m| ==> RowSum(m, columns, t, i, columns) <= 1)
    && (exists i :: 0 <= i < |m| && RowSum(m, columns, t, i, columns) == 1)
    && (forall j :: 0 <= j < columns ==> ColumnSum(m, columns, t, j, |m|) <= 1)
    && (exists j :: 0 <= j < columns && ColumnSum(m, columns, t, j, |m|) == 1)
  }

  predicate OnRow(ps: seq<Pair>, i: nat) {
    && (forall a :: 0 <= a < |ps| ==> ps[a].row == i)
    && forall a, b :: 0 <= a < b < |ps| ==> ps[a].col < ps[b].col
  }

  predicate RowsBelow(ps: seq<Pair>, n: nat) {
    forall a :: 0 <= a < |ps| ==> ps[a].row < n
  }

  /** The pairs above the threshold in row `i`, among the first `k` columns. */
  function WhereInRow(m: Scores, columns: nat, t: real, i: nat, k: nat): (ps: seq<Pair>)
    requires Rectangular(m, columns) && i < |m| && k <= columns
    ensures forall a :: 0 <= a < |ps| ==> ps[a].row == i && ps[a].col < k && m[i][ps[a].col].Above(t)
    ensures forall j: nat :: j < k && m[i][j].Above(t) ==> Pair(i, j) in ps
    ensures OnRow(ps, i)
  {
    if k == 0 then []
    else WhereInRow(m, columns, t, i, k - 1) + if m[i][k - 1].Above(t) then [Pair(i, k - 1)] else []
  }

  /** The pairs above the threshold in the first `n` rows, row by row. */
  function Where(m: Scores, columns: nat, t: real, n: nat): (ps: seq<Pair>)
    requires Rectangular(m, columns) && n <= |m|
    ensures forall a :: 0 <= a < |ps| ==>
              ps[a].row < n && ps[a].col < columns && m[ps[a].row][ps[a].col].Above(t)
    ensures RowsBelow(ps, n)
  {
    if n == 0 then [] else Where(m, columns, t, n - 1) + WhereInRow(m, columns, t, n - 1, columns)
  }

  predicate Before(p: Pair, q: Pair) { p.row < q.row || (p.row == q.row && p.col < q.col) }

  predicate RowMajor(ps: seq<Pair>) {
    forall a, b :: 0 <= a < b < |ps| ==> Before(ps[a], ps[b])
  }

  lemma AppendRow(ps: seq<Pair>, row: seq<Pair>, n: nat)
    requires RowMajor(ps) && RowsBelow(ps, n) && OnRow(row, n)
    ensures RowMajor(ps + row)
  {
    var all := ps + row;
    forall a, b | 0 <= a < b < |all|
      ensures Before(all[a], all[b])
    {
      if a < |ps| {
        assert all[a] == ps[a];
        assert all[b] == if b < |ps| then ps[b] else row[b - |ps|];
      } else {
        assert all[a] == row[a - |ps|] && all[b] == row[b - |ps|];
      }
    }
  }

  /** Row-major order, and no pair is left out. */
  lemma {:induction false} WhereOrder(m: Scores, columns: nat, t: real, n: nat)
    requires Rectangular(m, columns) && n <= |m|
    ensures RowMajor(Where(m, columns, t, n))
  {
    hide RowMajor, Score.Above, RowsBelow;
    if n == 0 {
      EmptyRowMajor();
    } else {
      WhereOrder(m, columns, t, n - 1);
      WhereOrderStep(m, columns, t, n);
    }
  }

  lemma EmptyRowMajor()
    ensures RowMajor([])
  {
  }

  lemma WhereOrderStep(m: Scores, columns: nat, t: real, n: nat)
    requires Rectangular(m, columns) && 0 < n <= |m| && RowMajor(Where(m, columns, t, n - 1))
    ensures RowMajor(Where(m, columns, t, n))
  {
    hide RowMajor, RowsBelow, OnRow, WhereInRow, Score.Above;
    AppendRow(Where(m, columns, t, n - 1), WhereInRow(m, columns, t, n - 1, columns), n - 1);
  }

  lemma {:induction false} WhereComplete(m: Scores, columns: nat, t: real, n: nat, p: Pair)
    requires Rectangular(m, columns) && n <= |m|
    requires p.row < n && p.col < columns
    ensures p in Where(m, columns, t, n) <==> m[p.row][p.col].Above(t)
  {
    hide WhereInRow;
    var front, row := Where(m, columns, t, n - 1), WhereInRow(m, columns, t, n - 1, columns);
    InConcat(front, row, p);
    if p.row < n - 1 {
      WhereComplete(m, columns, t, n - 1, p);
    }
  }

  lemma InConcat(a: seq<Pair>, b: seq<Pair>, p: Pair)
    ensures p in a + b <==> p in a || p in b
  {
  }

  function AllAbove(m: Scores, columns: nat, t: real): seq<Pair>
    requires Rectangular(m, columns)
  {
    Where(m, columns, t, |m|)
  }

  lemma {:induction false} RowSumBounds(m: Scores, columns: nat, t: real, i: nat, k: nat)
    requires Rectangular(m, columns) && i < |m| && k <= columns
    ensures RowSum(m, columns, t, i, k) == 0 <==> forall a :: 0 <= a < k ==> !m[i][a].Above(t)
    ensures RowSum(m, columns, t, i, k) <= 1 <==>
            forall a, b :: 0 <= a < b < k ==> !(m[i][a].Above(t) && m[i][b].Above(t))
  {
    if k > 0 {
      RowSumBounds(m, columns, t, i, k - 1);
    }
  }

  lemma {:induction false} ColumnSumBounds(m: Scores, columns: nat, t: real, j: nat, k: nat)
    requires Rectangular(m, columns) && j < columns && k <= |m|
    ensures ColumnSum(m, columns, t, j, k) == 0 <==> forall a :: 0 <= a < k ==> !m[a][j].Above(t)
    ensures ColumnSum(m, columns, t, j, k) <= 1 <==>
            forall a, b :: 0 <= a < b < k ==> !(m[a][j].Above(t) && m[b][j].Above(t))
  {
    if k > 0 {
      ColumnSumBounds(m, columns, t, j, k - 1);
    }
  }

  /** The guard says that the above-threshold relation is itself a matching and is not empty. */
  lemma ShortcutMeansMatching(m: Scores, columns: nat, t: real)
    requires Rectangular(m, columns)
    ensures Shortcut(m, columns, t) <==> AllAbove(m, columns, t) != [] && IsMatching(AllAbove(m, columns, t))
  {
    if Shortcut(m, columns, t) {
      ShortcutMakesMatching(m, columns, t);
    }
    if AllAbove(m, columns, t) != [] && IsMatching(AllAbove(m, columns, t)) {
      MatchingMeansShortcut(m, columns, t);
    }
  }

  lemma ShortcutMakesMatching(m: Scores, columns: nat, t: real)
    requires Rectangular(m, columns) && Shortcut(m, columns, t)
    ensures AllAbove(m, columns, t) != [] && IsMatching(AllAbove(m, columns, t))
  {
    var ps := AllAbove(m, columns, t);
    var i :| 0 <= i < |m| && RowSum(m, columns, t, i, columns) == 1;
    RowSumBounds(m, columns, t, i, columns);
    var j :| 0 <= j < columns && m[i][j].Above(t);
    WhereComplete(m, columns, t, |m|, Pair(i, j));
    WhereOrder(m, columns, t, |m|);
    forall a, b | 0 <= a < b < |ps|
      ensures ps[a].row != ps[b].row && ps[a].col != ps[b].col
    {
      assert Before(ps[a], ps[b]);
      RowSumBounds(m, columns, t, ps[a].row, columns);
      ColumnSumBounds(m, columns, t, ps[a].col, |m|);
      assert m[ps[a].row][ps[a].col].Above(t) && m[ps[b].row][ps[b].col].Above(t);
    }
  }

  lemma MatchingMeansShortcut(m: Scores, columns: nat, t: real)
    requires Rectangular(m, columns)
    requires AllAbove(m, columns, t) != [] && IsMatching(AllAbove(m, columns, t))
    ensures Shortcut(m, columns, t)
  {
    var ps := AllAbove(m, columns, t);
    forall i | 0 <= i < |m|
      ensures RowSum(m, columns, t, i, columns) <= 1
    {
      RowSumBounds(m, columns, t, i, columns);
      forall a, b | 0 <= a < b < columns
        ensures !(m[i][a].Above(t) && m[i][b].Above(t))
      {
        WhereComplete(m, columns, t, |m|, Pair(i, a));
        WhereComplete(m, columns, t, |m|, Pair(i, b));
        TwoInMatching(ps, Pair(i, a), Pair(i, b));
      }
    }
    forall j | 0 <= j < columns
      ensures ColumnSum(m, columns, t, j, |m|) <= 1
    {
      ColumnSumBounds(m, columns, t, j, |m|);
      forall a, b | 0 <= a < b < |m|
        ensures !(m[a][j].Above(t) && m[b][j].Above(t))
      {
        WhereComplete(m, columns, t, |m|, Pair(a, j));
        WhereComplete(m, columns, t, |m|, Pair(b, j));
        TwoInMatching(ps, Pair(a, j), Pair(b, j));
      }
    }
    var p := ps[0];
    RowSumBounds(m, columns, t, p.row, columns);
    ColumnSumBounds(m, columns, t, p.col, |m|);
    assert m[p.row][p.col].Above(t);
    assert RowSum(m, columns, t, p.row, columns) == 1 && ColumnSum(m, columns, t, p.col, |m|) == 1;
  }

  lemma TwoInMatching(ps: seq<Pair>, p: Pair, q: Pair)
    requires IsMatching(ps) && p != q
    ensures p in ps && q in ps ==> p.row != q.row && p.col != q.col
  {
  }

  // ----- the association -----

  datatype Match = Match(matches: seq<Pair>, newDets: seq<nat>, lostTrks: seq<nat>)

  function Rows(ps: seq<Pair>): (r: seq<nat>)
    ensures |r| == |ps| && forall i :: 0 <= i < |ps| ==> r[i] == ps[i].row
  {
    if ps == [] then [] else Rows(ps[..|ps| - 1]) + [ps[|ps| - 1].row]
  }

  function Columns(ps: seq<Pair>): (r: seq<nat>)
    ensures |r| == |ps| && forall i :: 0 <= i < |ps| ==> r[i] == ps[i].col
  {
    if ps == [] then [] else Columns(ps[..|ps| - 1]) + [ps[|ps| - 1].col]
  }

  /** The numbers below `n` that are not used, ascending. */
  function Missing(n: nat, used: seq<nat>): (r: seq<nat>)
    ensures forall x: nat :: x in r <==> x < n && x !in used
    ensures Increasing(r)
  {
    if n == 0 then []
    else
      var rest := Missing(n - 1, used);
      assert forall i :: 0 <= i < |rest| ==> rest[i] in rest;
      if n - 1 in used then rest else rest + [n - 1]
  }

  function Sift(m: Scores, columns: nat, t: real, low: bool, ps: seq<Pair>): (r: seq<Pair>)
    requires Rectangular(m, columns) && InRange(ps, |m|, columns)
    ensures InRange(r, |m|, columns)
  {
    if ps == [] then []
    else
      var p := ps[|ps| - 1];
      var rest := Sift(m, columns, t, low, ps[..|ps| - 1]);
      if m[p.row][p.col].Below(t) == low then rest + [p] else rest
  }

  lemma {:induction false} SiftMembers(m: Scores, columns: nat, t: real, low: bool, ps: seq<Pair>)
    requires Rectangular(m, columns) && InRange(ps, |m|, columns)
    ensures forall p :: p in Sift(m, columns, t, low, ps) <==> p in ps && m[p.row][p.col].Below(t) == low
  {
    if ps != [] {
      SiftMembers(m, columns, t, low, ps[..|ps| - 1]);
    }
  }

  /** The costs handed to the solver, or `None` where it refuses the matrix: scores that are not finite. */
  function Costs(m: Scores): (r: Option<Matrix>)
    ensures r.Some? <==> forall i, j :: 0 <= i < |m| && 0 <= j < |m[i]| ==> m[i][j].Num?
    ensures r.Some? ==> |r.value| == |m| && forall i :: 0 <= i < |m| ==> |r.value[i]| == |m[i]|
    ensures r.Some? ==> forall i, j :: 0 <= i < |m| && 0 <= j < |m[i]| ==> r.value[i][j] == -m[i][j].v
  {
    if forall i, j :: 0 <= i < |m| && 0 <= j < |m[i]| ==> m[i][j].Num? then
      Some(seq(|m|, i requires 0 <= i < |m| => NegatedRow(m[i])))
    else None
  }

  function NegatedRow(row: seq<Score>): (r: seq<real>)
    requires forall j :: 0 <= j < |row| ==> row[j].Num?
    ensures |r| == |row| && forall j :: 0 <= j < |row| ==> r[j] == -row[j].v
  {
    if row == [] then [] else NegatedRow(row[..|row| - 1]) + [-row[|row| - 1].v]
  }

  /** The index pairs before the low ones are filtered out. */
  function Candidates(m: Scores, columns: nat, t: real, solve: Matrix -> seq<Pair>): Option<seq<Pair>>
    requires Rectangular(m, columns)
  {
    if |m| == 0 || columns == 0 then Some([])
    else if Shortcut(m, columns, t) then Some(AllAbove(m, columns, t))
    else if Costs(m).None? then None
    else Some(solve(Costs(m).value))
  }

  lemma SolverAnswer(m: Scores, columns: nat, solve: Matrix -> seq<Pair>)
    requires Rectangular(m, columns) && IsSolver(solve) && |m| > 0 && columns > 0 && Costs(m).Some?
    ensures var c := Costs(m).value;
            Rectangular(c, columns) && IsAssignment(solve(c), |m|, columns) && RowsAscend(solve(c))
  {
    assert Rectangular(Costs(m).value, columns);
    assert Solves(Costs(m).value, columns, solve(Costs(m).value));
  }

  lemma CandidatesMatch(m: Scores, columns: nat, t: real, solve: Matrix -> seq<Pair>)
    requires Rectangular(m, columns) && IsSolver(solve)
    ensures Candidates(m, columns, t, solve).Some? ==>
              var ps := Candidates(m, columns, t, solve).value;
              InRange(ps, |m|, columns) && IsMatching(ps)
  {
    ShortcutMeansMatching(m, columns, t);
    if Costs(m).Some? && |m| > 0 && columns > 0 {
      SolverAnswer(m, columns, solve);
    }
  }

  /** The match that follows from the candidate pairs. */
  function MatchOf(m: Scores, columns: nat, t: real, ps: seq<Pair>): Match
    requires Rectangular(m, columns) && InRange(ps, |m|, columns)
  {
    var low := Sift(m, columns, t, true, ps);
    Match(Sift(m, columns, t, false, ps),
          Missing(|m|, Rows(ps)) + Rows(low),
          Missing(columns, Columns(ps)) + Columns(low))
  }

  /** The whole association, `None` when the solver raises. */
  function Associate(dets: seq<Box>, trks: seq<Box>, t: real, solve: Matrix -> seq<Pair>): Option<Match>
    requires IsSolver(solve)
  {
    if trks == [] then Some(Match([], Range(|dets|), []))
    else
      var m := IouBatch(dets, trks);
      CandidatesMatch(m, |trks|, t, solve);
      match Candidates(m, |trks|, t, solve)
      case None => None
      case Some(ps) => Some(MatchOf(m, |trks|, t, ps))
  }

  method AssociateDetectionsToTrackers(
    dets: seq<Box>, trks: seq<Box>, t: real, solve: Matrix -> seq<Pair>, lapInstalled: bool)
    returns (r: Option<Match>)
    requires IsSolver(solve)
    ensures r == Associate(dets, trks, t, solve)
  {
    if |trks| == 0 {
      return Some(Match([], Range(|dets|), []));
    }
    var m := IouBatch(dets, trks);
    CandidatesMatch(m, |trks|, t, solve);
    var matched := [];
    if |dets| > 0 {
      if Shortcut(m, |trks|, t) {
        matched := AllAbove(m, |trks|, t);
      } else {
        var costs := Costs(m);
        if costs.None? {
          return None;
        }
        SolverAnswer(m, |trks|, solve);
        matched := LinearAssignment(costs.value, |trks|, solve, lapInstalled);
      }
    }
    var split := SplitMatched(m, |trks|, t, matched);
    r := Some(split);
  }

  /** The three loops that follow the assignment. */
  method SplitMatched(m: Scores, columns: nat, t: real, matched: seq<Pair>) returns (r: Match)
    requires Rectangular(m, columns) && InRange(matched, |m|, columns)
    ensures r == MatchOf(m, columns, t, matched)
  {
    var newDets := NotIn(|m|, Rows(matched));
    var lostTrks := NotIn(columns, Columns(matched));
    r := FilterLow(m, columns, t, matched, newDets, lostTrks);
  }

  method NotIn(n: nat, used: seq<nat>) returns (r: seq<nat>)
    ensures r == Missing(n, used)
  {
    r := [];
    for x := 0 to n
      invariant r == Missing(x, used)
    {
      if x !in used {
        r := r + [x];
      }
    }
  }

  /** What the filter has built after the first `i` pairs. */
  ghost predicate Filtered(m: Scores, columns: nat, t: real, ps: seq<Pair>, start: Match, now: Match)
    requires Rectangular(m, columns) && InRange(ps, |m|, columns)
  {
    var low := Sift(m, columns, t, true, ps);
    && now.matches == Sift(m, columns, t, false, ps)
    && now.newDets == start.newDets + Rows(low)
    && now.lostTrks == start.lostTrks + Columns(low)
  }

  lemma FilterStep(m: Scores, columns: nat, t: real, ps: seq<Pair>, p: Pair, start: Match, now: Match)
    requires Rectangular(m, columns) && InRange(ps, |m|, columns) && p.row < |m| && p.col < columns
    requires Filtered(m, columns, t, ps, start, now)
    ensures Filtered(m, columns, t, ps + [p], start,
              if m[p.row][p.col].Below(t)
              then Match(now.matches, now.newDets + [p.row], now.lostTrks + [p.col])
              else Match(now.matches + [p], now.newDets, now.lostTrks))
  {
    hide Rows, Columns;
    assert (ps + [p])[..|ps|] == ps;
    SidesSnoc(Sift(m, columns, t, true, ps), p);
  }

  lemma SidesSnoc(ps: seq<Pair>, p: Pair)
    ensures Rows(ps + [p]) == Rows(ps) + [p.row] && Columns(ps + [p]) == Columns(ps) + [p.col]
  {
  }

  method FilterLow(m: Scores, columns: nat, t: real, matched: seq<Pair>, newDets: seq<nat>, lostTrks: seq<nat>)
    returns (r: Match)
    requires Rectangular(m, columns) && InRange(matched, |m|, columns)
    ensures Filtered(m, columns, t, matched, Match([], newDets, lostTrks), r)
  {
    r := Match([], newDets, lostTrks);
    ghost var start := r;
    for i := 0 to |matched|
      invariant Filtered(m, columns, t, matched[..i], start, r)
    {
      var p := matched[i];
      FilterStep(m, columns, t, matched[..i], p, start, r);
      assert matched[..i + 1] == matched[..i] + [p];
      if m[p.row][p.col].Below(t) {
        r := Match(r.matches, r.newDets + [p.row], r.lostTrks + [p.col]);
      } else {
        r := Match(r.matches + [p], r.newDets, r.lostTrks);
      }
    }
    assert matched[..|matched|] == matched;
  }

  // ----- what the association guarantees -----

  /** Every index below `n` occurs exactly once in `used + unused`. */
  ghost predicate SplitsIndices(used: seq<nat>, unused: seq<nat>, n: nat) {
    Distinct(used + unused) && forall x: nat :: x in used + unused <==> x < n
  }

  lemma {:induction false} SiftKeepsMatching(m: Scores, columns: nat, t: real, low: bool, ps: seq<Pair>)
    requires Rectangular(m, columns) && InRange(ps, |m|, columns) && IsMatching(ps)
    ensures IsMatching(Sift(m, columns, t, low, ps))
  {
    if ps != [] {
      var rest := Sift(m, columns, t, low, ps[..|ps| - 1]);
      SiftKeepsMatching(m, columns, t, low, ps[..|ps| - 1]);
      SiftMembers(m, columns, t, low, ps[..|ps| - 1]);
      assert forall i :: 0 <= i < |rest| ==> rest[i] in rest;
    }
  }

  /** Kept, low and missing indices, on one side, are a partition. */
  lemma SplitSide(used: seq<nat>, all: seq<nat>, low: seq<nat>, n: nat)
    requires Distinct(used) && Distinct(low) && Distinct(all)
    requires forall x :: x in all <==> x in used || x in low
    requires forall x :: !(x in used && x in low)
    requires forall x :: x in all ==> x < n
    ensures SplitsIndices(used, Missing(n, all) + low, n)
  {
    var gone := Missing(n, all);
    IncreasingDistinct(gone);
    assert forall i :: 0 <= i < |gone| ==> gone[i] in gone;
    assert forall i :: 0 <= i < |used| ==> used[i] in used;
    assert forall i :: 0 <= i < |low| ==> low[i] in low;
  }

  lemma RowIn(ps: seq<Pair>, x: nat) returns (p: Pair)
    requires x in Rows(ps)
    ensures p in ps && p.row == x
  {
    var i :| 0 <= i < |ps| && Rows(ps)[i] == x;
    p := ps[i];
  }

  lemma ColumnIn(ps: seq<Pair>, x: nat) returns (p: Pair)
    requires x in Columns(ps)
    ensures p in ps && p.col == x
  {
    var i :| 0 <= i < |ps| && Columns(ps)[i] == x;
    p := ps[i];
  }

  lemma InRows(ps: seq<Pair>, p: Pair)
    requires p in ps
    ensures p.row in Rows(ps) && p.col in Columns(ps)
  {
    var i :| 0 <= i < |ps| && ps[i] == p;
    assert Rows(ps)[i] == p.row && Columns(ps)[i] == p.col;
  }

  lemma SplitsBothSides(m: Scores, columns: nat, t: real, ps: seq<Pair>)
    requires Rectangular(m, columns) && InRange(ps, |m|, columns) && IsMatching(ps)
    ensures var r := MatchOf(m, columns, t, ps);
            && SplitsIndices(Rows(r.matches), r.newDets, |m|)
            && SplitsIndices(Columns(r.matches), r.lostTrks, columns)
  {
    var kept, low := Sift(m, columns, t, false, ps), Sift(m, columns, t, true, ps);
    SiftKeepsMatching(m, columns, t, false, ps);
    SiftKeepsMatching(m, columns, t, true, ps);
    forall x: nat
      ensures x in Rows(ps) <==> x in Rows(kept) || x in Rows(low)
      ensures !(x in Rows(kept) && x in Rows(low))
      ensures x in Rows(ps) ==> x < |m|
    {
      SideOf(m, columns, t, ps, x);
    }
    forall x: nat
      ensures x in Columns(ps) <==> x in Columns(kept) || x in Columns(low)
      ensures !(x in Columns(kept) && x in Columns(low))
      ensures x in Columns(ps) ==> x < columns
    {
      SideOf(m, columns, t, ps, x);
    }
    SplitSide(Rows(kept), Rows(ps), Rows(low), |m|);
    SplitSide(Columns(kept), Columns(ps), Columns(low), columns);
  }

  lemma SideOf(m: Scores, columns: nat, t: real, ps: seq<Pair>, x: nat)
    requires Rectangular(m, columns) && InRange(ps, |m|, columns) && IsMatching(ps)
    ensures var kept, low := Sift(m, columns, t, false, ps), Sift(m, columns, t, true, ps);
            && (x in Rows(ps) <==> x in Rows(kept) || x in Rows(low))
            && !(x in Rows(kept) && x in Rows(low))
            && (x in Columns(ps) <==> x in Columns(kept) || x in Columns(low))
            && !(x in Columns(kept) && x in Columns(low))
  {
    var kept, low := Sift(m, columns, t, false, ps), Sift(m, columns, t, true, ps);
    SiftMembers(m, columns, t, false, ps);
    SiftMembers(m, columns, t, true, ps);
    if x in Rows(ps) {
      var p := RowIn(ps, x);
      InRows(if m[p.row][p.col].Below(t) then low else kept, p);
    }
    if x in Columns(ps) {
      var p := ColumnIn(ps, x);
      InRows(if m[p.row][p.col].Below(t) then low else kept, p);
    }
    if x in Rows(kept) {
      var p := RowIn(kept, x);
      InRows(ps, p);
      if x in Rows(low) {
        var q := RowIn(low, x);
        TwoInMatching(ps, p, q);
      }
    }
    if x in Rows(low) {
      var p := RowIn(low, x);
      InRows(ps, p);
    }
    if x in Columns(kept) {
      var p := ColumnIn(kept, x);
      InRows(ps, p);
      if x in Columns(low) {
        var q := ColumnIn(low, x);
        TwoInMatching(ps, p, q);
      }
    }
    if x in Columns(low) {
      var p := ColumnIn(low, x);
      InRows(ps, p);
    }
  }

  /** Every detection is in exactly one of matches and new detections, every tracker in exactly one of
      matches and lost trackers; matches use no index twice and none is below the threshold. */
  lemma AssociationPartitions(dets: seq<Box>, trks: seq<Box>, t: real, solve: Matrix -> seq<Pair>)
    requires IsSolver(solve) && Associate(dets, trks, t, solve).Some?
    ensures var r := Associate(dets, trks, t, solve).value;
            && InRange(r.matches, |dets|, |trks|) && IsMatching(r.matches)
            && SplitsIndices(Rows(r.matches), r.newDets, |dets|)
            && SplitsIndices(Columns(r.matches), r.lostTrks, |trks|)
            && |r.matches| + |r.newDets| == |dets|
            && forall p :: p in r.matches ==> !Iou(dets[p.row], trks[p.col]).Below(t)
  {
    var r := Associate(dets, trks, t, solve).value;
    if trks == [] {
      AllNew(|dets|);
      assert Columns(r.matches) + r.lostTrks == [];
    } else {
      hide Candidates, Sift, Missing, IsMatching, SplitsIndices, Rows, Columns;
      var m := IouBatch(dets, trks);
      CandidatesMatch(m, |trks|, t, solve);
      var ps := Candidates(m, |trks|, t, solve).value;
      SplitsBothSides(m, |trks|, t, ps);
      SiftKeepsMatching(m, |trks|, t, false, ps);
      SiftMembers(m, |trks|, t, false, ps);
    }
    CountsAdd(Rows(r.matches), r.newDets, |dets|);
  }

  lemma AllNew(n: nat)
    ensures SplitsIndices(Rows([]), Range(n), n)
  {
    var all := Rows([]) + Range(n);
    forall x: nat | x < n
      ensures x in all
    {
      assert all[x] == x;
    }
  }

  lemma CountsAdd(used: seq<nat>, unused: seq<nat>, n: nat)
    requires SplitsIndices(used, unused, n)
    ensures |used| + |unused| == n
  {
    PermutationLength(used + unused, n);
  }

  /** The bounds a caller needs to index with the result. */
  lemma AssociationBounds(dets: seq<Box>, trks: seq<Box>, t: real, solve: Matrix -> seq<Pair>)
    requires IsSolver(solve) && Associate(dets, trks, t, solve).Some?
    ensures var r := Associate(dets, trks, t, solve).value;
            && InRange(r.matches, |dets|, |trks|) && IsMatching(r.matches)
            && (forall i :: 0 <= i < |r.newDets| ==> r.newDets[i] < |dets|)
            && |r.matches| + |r.newDets| == |dets|
  {
    AssociationPartitions(dets, trks, t, solve);
    var r := Associate(dets, trks, t, solve).value;
    IndexBound(Rows(r.matches), r.newDets, |dets|);
  }

  lemma IndexBound(used: seq<nat>, unused: seq<nat>, n: nat)
    requires SplitsIndices(used, unused, n)
    ensures forall i :: 0 <= i < |unused| ==> unused[i] < n
  {
    forall i | 0 <= i < |unused|
      ensures unused[i] < n
    {
      assert (used + unused)[|used| + i] == unused[i];
      assert unused[i] in used + unused;
    }
  }

  // ----- what the shortcut takes -----

  /** Under the guard the pairs taken contain every matching made of above-threshold pairs. */
  lemma ShortcutContainsRivals(m: Scores, columns: nat, t: real, rival: seq<Pair>)
    requires Rectangular(m, columns) && Shortcut(m, columns, t) && InRange(rival, |m|, columns)
    requires forall i :: 0 <= i < |rival| ==> m[rival[i].row][rival[i].col].Above(t)
    ensures IsMatching(AllAbove(m, columns, t))
    ensures forall i :: 0 <= i < |rival| ==> rival[i] in AllAbove(m, columns, t)
  {
    ShortcutMeansMatching(m, columns, t);
    forall i | 0 <= i < |rival|
      ensures rival[i] in AllAbove(m, columns, t)
    {
      WhereComplete(m, columns, t, |m|, rival[i]);
    }
  }

  /** The later filter drops none of the pairs the shortcut took. */
  lemma ShortcutSurvivesFilter(m: Scores, columns: nat, t: real)
    requires Rectangular(m, columns)
    ensures Sift(m, columns, t, true, AllAbove(m, columns, t)) == []
    ensures Sift(m, columns, t, false, AllAbove(m, columns, t)) == AllAbove(m, columns, t)
  {
    SiftNone(m, columns, t, AllAbove(m, columns, t));
  }

  lemma {:induction false} SiftNone(m: Scores, columns: nat, t: real, ps: seq<Pair>)
    requires Rectangular(m, columns) && InRange(ps, |m|, columns)
    requires forall i :: 0 <= i < |ps| ==> m[ps[i].row][ps[i].col].Above(t)
    ensures Sift(m, columns, t, true, ps) == [] && Sift(m, columns, t, false, ps) == ps
  {
    if ps != [] {
      SiftNone(m, columns, t, ps[..|ps| - 1]);
    }
  }

  function RowCosts(row: seq<Score>): (r: seq<real>)
    ensures |r| == |row| && forall j :: 0 <= j < |row| ==> r[j] == if row[j].Num? then -row[j].v else 0.0
  {
    seq(|row|, j requires 0 <= j < |row| => if row[j].Num? then -row[j].v else 0.0)
  }

  function OverlapCosts(m: Scores): (c: Matrix)
    ensures |c| == |m| && forall i :: 0 <= i < |m| ==> c[i] == RowCosts(m[i])
  {
    seq(|m|, i requires 0 <= i < |m| => RowCosts(m[i]))
  }

  predicate TakesInfinite(m: Scores, columns: nat, ps: seq<Pair>)
    requires Rectangular(m, columns) && InRange(ps, |m|, columns)
  {
    exists i :: 0 <= i < |ps| && m[ps[i].row][ps[i].col].Inf?
  }

  /** The total overlap of pairs above a threshold: infinite when one of them is. */
  function TotalOverlap(m: Scores, columns: nat, ps: seq<Pair>): Score
    requires Rectangular(m, columns) && InRange(ps, |m|, columns)
  {
    if TakesInfinite(m, columns, ps) then Inf else Num(-TotalCost(OverlapCosts(m), columns, ps))
  }

  predicate AtLeast(a: Score, b: Score) { a.Inf? || (a.Num? && b.Num? && a.v >= b.v) }

  /** With a nonnegative threshold the shortcut's pairs have the largest total overlap among all matchings made of
      above-threshold pairs. */
  lemma ShortcutIsBest(m: Scores, columns: nat, t: real, rival: seq<Pair>)
    requires Rectangular(m, columns) && Shortcut(m, columns, t) && t >= 0.0
    requires InRange(rival, |m|, columns) && IsMatching(rival)
    requires forall i :: 0 <= i < |rival| ==> m[rival[i].row][rival[i].col].Above(t)
    ensures AtLeast(TotalOverlap(m, columns, AllAbove(m, columns, t)), TotalOverlap(m, columns, rival))
  {
    hide Shortcut, IsMatching, Where;
    var taken := AllAbove(m, columns, t);
    ShortcutContainsRivals(m, columns, t, rival);
    if !TakesInfinite(m, columns, taken) {
      RivalIsFinite(m, columns, taken, rival);
      MoreIsCheaper(OverlapCosts(m), columns, taken, rival);
    }
  }

  lemma RivalIsFinite(m: Scores, columns: nat, taken: seq<Pair>, rival: seq<Pair>)
    requires Rectangular(m, columns) && InRange(taken, |m|, columns) && InRange(rival, |m|, columns)
    requires !TakesInfinite(m, columns, taken) && forall i :: 0 <= i < |rival| ==> rival[i] in taken
    ensures !TakesInfinite(m, columns, rival)
  {
    forall i | 0 <= i < |rival|
      ensures !m[rival[i].row][rival[i].col].Inf?
    {
      assert rival[i] in taken;
    }
  }

  lemma {:induction false} RemoveCost(c: Matrix, columns: nat, ps: seq<Pair>, i: nat)
    requires Rectangular(c, columns) && InRange(ps, |c|, columns) && i < |ps|
    ensures TotalCost(c, columns, ps) == TotalCost(c, columns, Without(ps, i)) + c[ps[i].row][ps[i].col]
  {
    if i == |ps| - 1 {
      assert Without(ps, i) == ps[..i];
    } else {
      var front := ps[..|ps| - 1];
      RemoveCost(c, columns, front, i);
      assert Without(ps, i)[..|ps| - 2] == Without(front, i);
    }
  }

  lemma StillInFront(ps: seq<Pair>, some: seq<Pair>, i: nat)
    requires IsMatching(some) && ps != [] && i < |some| && some[i] == ps[|ps| - 1]
    requires forall j :: 0 <= j < |some| ==> some[j] in ps
    ensures IsMatching(Without(some, i))
    ensures forall j :: 0 <= j < |some| - 1 ==> Without(some, i)[j] in ps[..|ps| - 1]
  {
    var rest := Without(some, i);
    forall j | 0 <= j < |rest|
      ensures rest[j] in ps[..|ps| - 1]
    {
      var k := if j < i then j else j + 1;
      assert rest[j] == some[k] && some[k] in ps && some[k].row != some[i].row;
    }
  }

  lemma {:induction false} MoreIsCheaper(c: Matrix, columns: nat, ps: seq<Pair>, some: seq<Pair>)
    requires Rectangular(c, columns) && InRange(ps, |c|, columns) && InRange(some, |c|, columns)
    requires IsMatching(some)
    requires forall j :: 0 <= j < |some| ==> some[j] in ps
    requires forall i :: 0 <= i < |ps| ==> c[ps[i].row][ps[i].col] <= 0.0
    ensures TotalCost(c, columns, ps) <= TotalCost(c, columns, some)
    decreases |ps|
  {
    assert some != [] ==> some[0] in ps;
    if ps != [] {
      var p, front := ps[|ps| - 1], ps[..|ps| - 1];
      if i :| 0 <= i < |some| && some[i] == p {
        RemoveCost(c, columns, some, i);
        StillInFront(ps, some, i);
        MoreIsCheaper(c, columns, front, Without(some, i));
      } else {
        MoreIsCheaper(c, columns, front, some);
      }
    }
  }
}
