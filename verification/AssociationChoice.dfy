/** Which detections and boxes an association pairs, told by their overlaps alone. */
module AssociationChoice {
  import opened Common
  import opened BoxGeometry
  import opened Assignment
  import opened Association

  /** Overlap above the threshold; a quotient by zero counts as infinite. */
  predicate Overlapping(d: Box, b: Box, t: real) {
    Iou(d, b).Inf? || (Iou(d, b).Num? && Iou(d, b).v > t)
  }

  /** No detection overlaps two boxes and no box two detections, and some pair overlaps. */
  predicate ClearCut(dets: seq<Box>, trks: seq<Box>, t: real) {
    && (exists i, j :: 0 <= i < |dets| && 0 <= j < |trks| && Overlapping(dets[i], trks[j], t))
    && (forall i, j, k :: 0 <= i < |dets| && 0 <= j < k < |trks| ==>
          !(Overlapping(dets[i], trks[j], t) && Overlapping(dets[i], trks[k], t)))
    && (forall i, j, k :: 0 <= i < j < |dets| && 0 <= k < |trks| ==>
          !(Overlapping(dets[i], trks[k], t) && Overlapping(dets[j], trks[k], t)))
  }

  /** Every overlap is a number, as it is for positive boxes. */
  predicate Numbers(dets: seq<Box>, trks: seq<Box>) {
    forall i, j :: 0 <= i < |dets| && 0 <= j < |trks| ==> Iou(dets[i], trks[j]).Num?
  }

  function TotalIou(dets: seq<Box>, trks: seq<Box>, ps: seq<Pair>): real
    requires Numbers(dets, trks) && InRange(ps, |dets|, |trks|)
  {
    if ps == [] then 0.0
    else
      var p := ps[|ps| - 1];
      TotalIou(dets, trks, ps[..|ps| - 1]) + Iou(dets[p.row], trks[p.col]).v
  }

  /** A largest matching of greatest total overlap. */
  ghost predicate BestAssignment(dets: seq<Box>, trks: seq<Box>, ps: seq<Pair>)
    requires Numbers(dets, trks)
  {
    && IsAssignment(ps, |dets|, |trks|)
    && forall qs :: IsAssignment(qs, |dets|, |trks|) ==> TotalIou(dets, trks, qs) <= TotalIou(dets, trks, ps)
  }

  lemma {:induction false} CostIsOverlap(dets: seq<Box>, trks: seq<Box>, c: Matrix, ps: seq<Pair>)
    requires Numbers(dets, trks) && InRange(ps, |dets|, |trks|)
    requires |c| == |dets| && Rectangular(c, |trks|)
    requires forall i, j :: 0 <= i < |dets| && 0 <= j < |trks| ==> c[i][j] == -Iou(dets[i], trks[j]).v
    ensures TotalCost(c, |trks|, ps) == -TotalIou(dets, trks, ps)
  {
    hide Iou;
    if ps != [] {
      CostIsOverlap(dets, trks, c, ps[..|ps| - 1]);
    }
  }

  lemma AboveIsOverlapping(dets: seq<Box>, trks: seq<Box>, t: real, p: Pair)
    requires p.row < |dets| && p.col < |trks|
    ensures p in AllAbove(IouBatch(dets, trks), |trks|, t) <==> Overlapping(dets[p.row], trks[p.col], t)
  {
    hide Iou, Where;
    WhereComplete(IouBatch(dets, trks), |trks|, t, |dets|, p);
  }

  /** The guard of the shortcut, told by overlaps. */
  lemma ShortcutIsClearCut(dets: seq<Box>, trks: seq<Box>, t: real)
    ensures Shortcut(IouBatch(dets, trks), |trks|, t) <==> ClearCut(dets, trks, t)
  {
    hide Shortcut, Where, Overlapping, ClearCut, IsMatching;
    ShortcutMeansMatching(IouBatch(dets, trks), |trks|, t);
    if ClearCut(dets, trks, t) {
      ClearCutMatches(dets, trks, t);
    }
    if Shortcut(IouBatch(dets, trks), |trks|, t) {
      MatchingIsClearCut(dets, trks, t);
    }
  }

  lemma ClearCutMatches(dets: seq<Box>, trks: seq<Box>, t: real)
    requires ClearCut(dets, trks, t)
    ensures AllAbove(IouBatch(dets, trks), |trks|, t) != [] && IsMatching(AllAbove(IouBatch(dets, trks), |trks|, t))
  {
    hide Iou, Overlapping, Where;
    var m := IouBatch(dets, trks);
    var ps := AllAbove(m, |trks|, t);
    var i, j :| 0 <= i < |dets| && 0 <= j < |trks| && Overlapping(dets[i], trks[j], t);
    AboveIsOverlapping(dets, trks, t, Pair(i, j));
    WhereOrder(m, |trks|, t, |dets|);
    forall a, b | 0 <= a < b < |ps|
      ensures ps[a].row != ps[b].row && ps[a].col != ps[b].col
    {
      assert Before(ps[a], ps[b]);
      assert ps[a] in ps && ps[b] in ps;
      InRangeOf(dets, trks, t);
      AboveIsOverlapping(dets, trks, t, ps[a]);
      AboveIsOverlapping(dets, trks, t, ps[b]);
    }
  }

  lemma InRangeOf(dets: seq<Box>, trks: seq<Box>, t: real)
    ensures InRange(AllAbove(IouBatch(dets, trks), |trks|, t), |dets|, |trks|)
  {
    hide Iou;
  }

  lemma MatchingIsClearCut(dets: seq<Box>, trks: seq<Box>, t: real)
    requires var ps := AllAbove(IouBatch(dets, trks), |trks|, t); ps != [] && IsMatching(ps)
    ensures ClearCut(dets, trks, t)
  {
    hide Iou, Overlapping, Where;
    var ps := AllAbove(IouBatch(dets, trks), |trks|, t);
    InRangeOf(dets, trks, t);
    assert ps[0] in ps;
    AboveIsOverlapping(dets, trks, t, ps[0]);
    assert Overlapping(dets[ps[0].row], trks[ps[0].col], t);
    forall i, j, k | 0 <= i < |dets| && 0 <= j < k < |trks|
      ensures !(Overlapping(dets[i], trks[j], t) && Overlapping(dets[i], trks[k], t))
    {
      AboveIsOverlapping(dets, trks, t, Pair(i, j));
      AboveIsOverlapping(dets, trks, t, Pair(i, k));
      TwoInMatching(ps, Pair(i, j), Pair(i, k));
    }
    forall i, j, k | 0 <= i < j < |dets| && 0 <= k < |trks|
      ensures !(Overlapping(dets[i], trks[k], t) && Overlapping(dets[j], trks[k], t))
    {
      AboveIsOverlapping(dets, trks, t, Pair(i, k));
      AboveIsOverlapping(dets, trks, t, Pair(j, k));
      TwoInMatching(ps, Pair(i, k), Pair(j, k));
    }
  }

  /** Without competition exactly the overlapping pairs are matched; the detections left over come in order. */
  lemma ClearCutChoice(dets: seq<Box>, trks: seq<Box>, t: real, solve: Matrix -> seq<Pair>)
    requires IsSolver(solve) && ClearCut(dets, trks, t)
    ensures Associate(dets, trks, t, solve).Some?
    ensures forall p: Pair :: p.row < |dets| && p.col < |trks| ==>
              (p in Associate(dets, trks, t, solve).value.matches <==> Overlapping(dets[p.row], trks[p.col], t))
    ensures Increasing(Associate(dets, trks, t, solve).value.newDets)
  {
    hide Iou, Overlapping, Where, Shortcut, IsMatching, IsSolver, Costs;
    var m := IouBatch(dets, trks);
    ShortcutIsClearCut(dets, trks, t);
    ShortcutSurvivesFilter(m, |trks|, t);
    InRangeOf(dets, trks, t);
    assert Candidates(m, |trks|, t, solve) == Some(AllAbove(m, |trks|, t));
    assert Rows([]) == [];
    var born := Missing(|dets|, Rows(AllAbove(m, |trks|, t)));
    assert born + [] == born;
    assert Associate(dets, trks, t, solve).value.newDets == born;
    forall p: Pair | p.row < |dets| && p.col < |trks|
      ensures p in Associate(dets, trks, t, solve).value.matches <==> Overlapping(dets[p.row], trks[p.col], t)
    {
      AboveIsOverlapping(dets, trks, t, p);
    }
  }

  /** Detections that no pair uses, ascending, then those of pairs that overlap too little, ascending. */
  ghost predicate NewInOrder(newDets: seq<nat>, ps: seq<Pair>) {
    exists n: nat :: n <= |newDets|
      && Increasing(newDets[..n]) && (forall d :: d in newDets[..n] ==> d !in Rows(ps))
      && Increasing(newDets[n..]) && (forall d :: d in newDets[n..] ==> d in Rows(ps))
  }

  /** With competition the matches are the pairs of a largest matching of greatest total overlap, without those below
      the threshold. */
  lemma ContestedChoice(dets: seq<Box>, trks: seq<Box>, t: real, solve: Matrix -> seq<Pair>) returns (ps: seq<Pair>)
    requires IsSolver(solve) && !ClearCut(dets, trks, t) && Numbers(dets, trks)
    ensures Associate(dets, trks, t, solve).Some?
    ensures BestAssignment(dets, trks, ps)
    ensures forall p: Pair :: p.row < |dets| && p.col < |trks| ==>
              (p in Associate(dets, trks, t, solve).value.matches <==>
               p in ps && Iou(dets[p.row], trks[p.col]).v >= t)
    ensures NewInOrder(Associate(dets, trks, t, solve).value.newDets, ps)
  {
    if |dets| == 0 || |trks| == 0 {
      ps := [];
      NothingToChoose(dets, trks, t, solve);
    } else {
      ps := SolverChoice(dets, trks, t, solve);
    }
  }

  lemma NothingToChoose(dets: seq<Box>, trks: seq<Box>, t: real, solve: Matrix -> seq<Pair>)
    requires IsSolver(solve) && (|dets| == 0 || |trks| == 0)
    ensures Numbers(dets, trks) && BestAssignment(dets, trks, [])
    ensures Associate(dets, trks, t, solve).Some? && Associate(dets, trks, t, solve).value.matches == []
    ensures NewInOrder(Associate(dets, trks, t, solve).value.newDets, [])
  {
    hide IsSolver;
    assert forall qs :: IsAssignment(qs, |dets|, |trks|) ==> qs == [];
    var born := Associate(dets, trks, t, solve).value.newDets;
    assert Rows([]) == [];
    assert trks != [] ==> born == Missing(0, []) + [];
    assert born[..|born|] == born && born[|born|..] == [];
  }

  lemma SolverChoice(dets: seq<Box>, trks: seq<Box>, t: real, solve: Matrix -> seq<Pair>) returns (ps: seq<Pair>)
    requires IsSolver(solve) && !ClearCut(dets, trks, t) && Numbers(dets, trks) && |dets| > 0 && |trks| > 0
    ensures Associate(dets, trks, t, solve).Some?
    ensures BestAssignment(dets, trks, ps)
    ensures forall p: Pair :: p.row < |dets| && p.col < |trks| ==>
              (p in Associate(dets, trks, t, solve).value.matches <==>
               p in ps && Iou(dets[p.row], trks[p.col]).v >= t)
    ensures NewInOrder(Associate(dets, trks, t, solve).value.newDets, ps)
  {
    hide Iou, Shortcut, Where, ClearCut, IsSolver, IsMatching, Sift, Missing;
    var m: Scores := IouBatch(dets, trks);
    ShortcutIsClearCut(dets, trks, t);
    assert Costs(m).Some?;
    var c := Costs(m).value;
    ps := solve(c);
    SolvesCosts(m, |trks|, solve);
    assert Candidates(m, |trks|, t, solve) == Some(ps);
    IsBest(dets, trks, c, ps);
    SiftMembers(m, |trks|, t, false, ps);
    LowRows(m, |trks|, t, ps);
    assert Associate(dets, trks, t, solve) == Some(MatchOf(m, |trks|, t, ps));
    SplitOrder(Missing(|dets|, Rows(ps)), Rows(Sift(m, |trks|, t, true, ps)), ps);
  }

  lemma SolvesCosts(m: Scores, columns: nat, solve: Matrix -> seq<Pair>)
    requires Rectangular(m, columns) && IsSolver(solve) && |m| > 0 && columns > 0 && Costs(m).Some?
    ensures Rectangular(Costs(m).value, columns) && Solves(Costs(m).value, columns, solve(Costs(m).value))
  {
    assert Rectangular(Costs(m).value, columns);
  }

  lemma IsBest(dets: seq<Box>, trks: seq<Box>, c: Matrix, ps: seq<Pair>)
    requires Numbers(dets, trks) && |c| == |dets| && Rectangular(c, |trks|) && Solves(c, |trks|, ps)
    requires forall i, j :: 0 <= i < |dets| && 0 <= j < |trks| ==> c[i][j] == -Iou(dets[i], trks[j]).v
    ensures BestAssignment(dets, trks, ps)
  {
    hide Iou;
    CostIsOverlap(dets, trks, c, ps);
    forall qs | IsAssignment(qs, |dets|, |trks|)
      ensures TotalIou(dets, trks, qs) <= TotalIou(dets, trks, ps)
    {
      CostIsOverlap(dets, trks, c, qs);
    }
  }

  predicate Among(a: seq<nat>, b: seq<nat>) { forall d :: d in a ==> d in b }

  /** The rows of the low pairs ascend with the solver's. */
  lemma {:induction false} LowRows(m: Scores, columns: nat, t: real, ps: seq<Pair>)
    requires Rectangular(m, columns) && InRange(ps, |m|, columns) && RowsAscend(ps)
    ensures Increasing(Rows(Sift(m, columns, t, true, ps))) && Among(Rows(Sift(m, columns, t, true, ps)), Rows(ps))
  {
    hide Score.Below, RowsAscend, Increasing, Among;
    if ps == [] {
      NoRows();
    } else {
      hide Rows;
      var front, p := ps[..|ps| - 1], ps[|ps| - 1];
      assert ps == front + [p];
      AscendingFront(front, p, ps);
      LowRows(m, columns, t, front);
      LowRowStep(Sift(m, columns, t, true, front), front, p);
    }
  }

  lemma NoRows()
    ensures Rows([]) == [] && Increasing([]) && Among([], [])
  {
  }

  predicate AllBelow(s: seq<nat>, x: nat) { forall d :: d in s ==> d < x }

  lemma AscendingFront(front: seq<Pair>, p: Pair, ps: seq<Pair>)
    requires RowsAscend(ps) && ps == front + [p]
    ensures RowsAscend(front) && AllBelow(Rows(front), p.row)
  {
    assert forall k :: 0 <= k < |front| ==> front[k] == ps[k];
    forall d | d in Rows(front)
      ensures d < p.row
    {
      var k :| 0 <= k < |front| && Rows(front)[k] == d;
      assert front[k].row == d && ps[k] == front[k] && ps[|front|] == p;
    }
  }

  /** One more pair, low or not. */
  lemma LowRowStep(low: seq<Pair>, front: seq<Pair>, p: Pair)
    requires Increasing(Rows(low)) && Among(Rows(low), Rows(front)) && AllBelow(Rows(front), p.row)
    ensures Among(Rows(low), Rows(front + [p]))
    ensures Increasing(Rows(low + [p])) && Among(Rows(low + [p]), Rows(front + [p]))
  {
    hide Rows;
    RowsSnoc(front, p);
    RowsSnoc(low, p);
    assert forall i :: 0 <= i < |Rows(low)| ==> Rows(low)[i] in Rows(low);
  }

  lemma RowsSnoc(ps: seq<Pair>, p: Pair)
    ensures Rows(ps + [p]) == Rows(ps) + [p.row]
  {
    assert (ps + [p])[..|ps|] == ps;
  }

  lemma SplitOrder(unpaired: seq<nat>, low: seq<nat>, ps: seq<Pair>)
    requires Increasing(unpaired) && forall d :: d in unpaired ==> d !in Rows(ps)
    requires Increasing(low) && forall d :: d in low ==> d in Rows(ps)
    ensures NewInOrder(unpaired + low, ps)
  {
    var all := unpaired + low;
    assert all[..|unpaired|] == unpaired && all[|unpaired|..] == low;
  }

  /** The association raises exactly when pairs compete and some overlap is not a number. */
  lemma AnswersIff(dets: seq<Box>, trks: seq<Box>, t: real, solve: Matrix -> seq<Pair>)
    requires IsSolver(solve)
    ensures Associate(dets, trks, t, solve).Some? <==> ClearCut(dets, trks, t) || Numbers(dets, trks)
  {
    hide ClearCut, IsSolver, Iou, Shortcut;
    if ClearCut(dets, trks, t) {
      ClearCutChoice(dets, trks, t, solve);
    } else if Numbers(dets, trks) {
      var ps := ContestedChoice(dets, trks, t, solve);
    } else {
      ShortcutIsClearCut(dets, trks, t);
      var m: Scores := IouBatch(dets, trks);
      var i, j :| 0 <= i < |dets| && 0 <= j < |trks| && !Iou(dets[i], trks[j]).Num?;
      assert !m[i][j].Num?;
      assert Costs(m).None?;
    }
  }
}
