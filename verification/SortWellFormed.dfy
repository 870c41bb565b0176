/** Runs on positive detections: with a measurement update that keeps area and ratio positive, nothing in the tracker
    ever degenerates, so the whole-run laws hold without exceptions. */
module SortWellFormed {
  import opened BoxGeometry
  import opened Assignment
  import opened Association
  import opened SortSpec
  import opened SortRuns

  /** What is asked of the foreign numeric code. */
  ghost predicate Sound(c: Config) {
    IsSolver(c.solve) && IsSqrt(c.sqrt) && KeepsWellFormed(c.measure)
  }

  /** Measuring a positive box keeps area and ratio positive. */
  ghost predicate KeepsWellFormed(measure: (nat, nat, KState, Box) -> KState) {
    forall id: nat, age: nat, k: KState, b: Box ::
      k.WellFormed() && b.Positive() ==> measure(id, age, k, b).WellFormed()
  }

  predicate AllWellFormed(ts: seq<Track>) {
    forall i :: 0 <= i < |ts| ==> ts[i].x.WellFormed()
  }

  predicate AllPositive(boxes: seq<Box>) {
    forall i :: 0 <= i < |boxes| ==> boxes[i].Positive()
  }

  predicate PositiveBox(p: Pred) { p.Finite? && p.box.Positive() }

  predicate Predicted(ts: seq<Track>) {
    forall i :: 0 <= i < |ts| ==> PositiveBox(LastBox(ts[i]))
  }

  predicate RowsPositive(rows: seq<Row>) {
    forall i :: 0 <= i < |rows| ==> PositiveBox(rows[i].box)
  }

  // ----- one frame -----

  lemma PredictsPositive(c: Config, t: Track)
    requires IsSqrt(c.sqrt) && t.x.WellFormed()
    ensures PredictTrack(c, t).x.WellFormed() && PositiveBox(LastBox(PredictTrack(c, t)))
  {
    hide XToBbox;
    StateRoundTrip(c.sqrt, Advance(t.x));
  }

  lemma PredictionsPositive(c: Config, ts: seq<Track>)
    requires IsSqrt(c.sqrt) && AllWellFormed(ts)
    ensures AllWellFormed(Predictions(c, ts)) && Predicted(Predictions(c, ts))
  {
    hide PredictTrack, LastBox, PositiveBox, KState.WellFormed;
    forall i | 0 <= i < |ts|
      ensures Predictions(c, ts)[i].x.WellFormed() && PositiveBox(LastBox(Predictions(c, ts)[i]))
    {
      PredictsPositive(c, ts[i]);
    }
  }

  /** Nobody is dropped, and the rows are the predictions, one for one. */
  lemma {:induction false} NoneDropped(ts: seq<Track>)
    requires Predicted(ts)
    ensures Alive(ts) == ts && |CompressRows(ts)| == |ts| && AllPositive(CompressRows(ts))
    ensures forall j :: 0 <= j < |ts| ==> LastBox(ts[j]) == Finite(CompressRows(ts)[j])
  {
    hide LastBox, Box.Positive;
    if ts != [] {
      var front, last := ts[..|ts| - 1], ts[|ts| - 1];
      NoneDropped(front);
      assert PositiveBox(LastBox(last));
      assert ts == front + [last];
    }
  }

  /** Overlaps of positive boxes are numbers, so the solver is never handed anything else. */
  lemma AssociationAnswers(dets: seq<Box>, trks: seq<Box>, t: real, solve: Matrix -> seq<Pair>)
    requires IsSolver(solve) && AllPositive(dets) && AllPositive(trks)
    ensures Associate(dets, trks, t, solve).Some?
  {
    hide Iou, Shortcut, AllAbove, MatchOf, IsSolver, Box.Positive;
    var m: Scores := IouBatch(dets, trks);
    forall i, j | 0 <= i < |m| && 0 <= j < |m[i]|
      ensures m[i][j].Num?
    {
      IouIsASimilarity(dets[i], trks[j]);
    }
    CandidatesMatch(m, |trks|, t, solve);
    assert Candidates(m, |trks|, t, solve).Some?;
  }

  lemma {:induction false} MatchesKeep(c: Config, ts: seq<Track>, dets: seq<Box>, ps: seq<Pair>)
    requires KeepsWellFormed(c.measure) && AllWellFormed(ts) && AllPositive(dets) && MatchesFit(ps, dets, ts)
    ensures AllWellFormed(ApplyMatches(c, ts, dets, ps))
  {
    if ps != [] {
      hide KState.WellFormed, Box.Positive;
      MatchesKeep(c, ts, dets, ps[..|ps| - 1]);
    }
  }

  lemma NewbornsWellFormed(c: Config, id: nat, dets: seq<Box>, unmatched: seq<nat>)
    requires IsSqrt(c.sqrt) && AllPositive(dets) && forall i :: 0 <= i < |unmatched| ==> unmatched[i] < |dets|
    ensures AllWellFormed(Newborns(id, dets, unmatched))
  {
    hide InitialState, KState.WellFormed, Box.Positive;
    forall k | 0 <= k < |unmatched|
      ensures Newborns(id, dets, unmatched)[k].x.WellFormed()
    {
      BoxRoundTrip(c.sqrt, dets[unmatched[k]]);
    }
  }

  lemma {:induction false} SurvivorsWellFormed(c: Config, ts: seq<Track>)
    requires AllWellFormed(ts)
    ensures AllWellFormed(Survivors(c, ts))
  {
    hide KState.WellFormed;
    if ts != [] {
      SurvivorsWellFormed(c, ts[..|ts| - 1]);
    }
  }

  lemma {:induction false} ReportPositive(c: Config, frameCount: int, ts: seq<Track>)
    requires IsSqrt(c.sqrt) && AllWellFormed(ts)
    ensures RowsPositive(Report(c, frameCount, ts))
  {
    hide KState.WellFormed, XToBbox;
    if ts != [] {
      ReportPositive(c, frameCount, ts[..|ts| - 1]);
      PositiveBoxOf(c, ts[|ts| - 1].x);
    }
  }

  lemma PositiveBoxOf(c: Config, k: KState)
    requires IsSqrt(c.sqrt) && k.WellFormed()
    ensures PositiveBox(XToBbox(c.sqrt, k))
  {
    hide XToBbox;
    StateRoundTrip(c.sqrt, k);
  }

  /** One call on positive detections: nobody is dropped, the solver answers, the trackers stay well formed and every
      reported box is positive. */
  lemma FrameStaysWellFormed(c: Config, s: State, dets: seq<Box>)
    requires Sound(c) && AllWellFormed(s.tracks) && AllPositive(dets)
    ensures Predicted(Predictions(c, s.tracks)) && FrameMatch(c, s, dets).Some?
    ensures AllWellFormed(Frame(c, s, dets).0.tracks)
    ensures Frame(c, s, dets).1.Reported? && RowsPositive(Frame(c, s, dets).1.rows)
  {
    hide AllWellFormed, AllPositive, Predicted, RowsPositive, KeepsWellFormed, IsSqrt, IsSolver, Associate, Predictions;
    hide CompressRows, Alive, ApplyMatches, Newborns, Survivors, Report;
    var predicted := Predictions(c, s.tracks);
    PredictionsPositive(c, s.tracks);
    NoneDropped(predicted);
    AssociationAnswers(dets, CompressRows(predicted), c.iouThreshold, c.solve);
    FrameParts(c, s, dets);
    var m := FrameMatch(c, s, dets).value;
    MatchesKeep(c, predicted, dets, m.matches);
    NewbornsWellFormed(c, s.nextId, dets, m.newDets);
    var all := ApplyMatches(c, predicted, dets, m.matches) + Newborns(s.nextId, dets, m.newDets);
    WellFormedJoin(ApplyMatches(c, predicted, dets, m.matches), Newborns(s.nextId, dets, m.newDets));
    SurvivorsWellFormed(c, all);
    ReportPositive(c, s.frameCount + 1, all);
  }

  lemma WellFormedJoin(a: seq<Track>, b: seq<Track>)
    requires AllWellFormed(a) && AllWellFormed(b)
    ensures AllWellFormed(a + b)
  {
    hide KState.WellFormed;
  }

  // ----- whole runs -----

  predicate PositiveInputs(inputs: seq<Input>) {
    forall k :: 0 <= k < |inputs| ==> AllPositive(inputs[k].dets)
  }

  /** In every state that positive detections reach, every tracker is well formed. */
  lemma {:induction false} RunStaysWellFormed(c: Config, inputs: seq<Input>)
    requires Sound(c) && PositiveInputs(inputs)
    ensures AllWellFormed(Run(c, inputs).tracks)
  {
    if inputs != [] {
      hide AllWellFormed, AllPositive, Frame, IsSolver, IsSqrt, KeepsWellFormed;
      var front, i := inputs[..|inputs| - 1], inputs[|inputs| - 1];
      assert PositiveInputs(front) && AllPositive(i.dets);
      RunStaysWellFormed(c, front);
      FrameStaysWellFormed(c, Enter(Run(c, front), i), i.dets);
    }
  }

  /** On a run with positive detections no call raises and every reported box is positive; every tracker has a positive
      prediction, and masking and popping leave row `j` to tracker `j`. */
  lemma NothingDegenerates(c: Config, inputs: seq<Input>, i: Input)
    requires Sound(c) && PositiveInputs(inputs + [i])
    ensures var s := Enter(Run(c, inputs), i);
            var predicted := Predictions(c, s.tracks);
            && Frame(c, s, i.dets).1.Reported? && RowsPositive(Frame(c, s, i.dets).1.rows)
            && Alive(predicted) == predicted && |CompressRows(predicted)| == |predicted|
            && forall j :: 0 <= j < |predicted| ==> LastBox(predicted[j]) == Finite(CompressRows(predicted)[j])
  {
    hide Frame, AllPositive, AllWellFormed, RowsPositive, Predicted, Predictions, IsSolver, IsSqrt, KeepsWellFormed;
    InputsBefore(inputs, i);
    RunStaysWellFormed(c, inputs);
    FrameStaysWellFormed(c, Enter(Run(c, inputs), i), i.dets);
    NoneDropped(Predictions(c, Run(c, inputs).tracks));
  }

  lemma InputsBefore(inputs: seq<Input>, i: Input)
    requires PositiveInputs(inputs + [i])
    ensures PositiveInputs(inputs) && AllPositive(i.dets)
  {
    hide AllPositive;
    assert forall k :: 0 <= k < |inputs| ==> inputs[k] == (inputs + [i])[k];
    assert (inputs + [i])[|inputs|] == i;
  }

  lemma CallAnswers(c: Config, inputs: seq<Input>, i: Input)
    requires Sound(c) && PositiveInputs(inputs + [i])
    ensures FrameMatch(c, Enter(Run(c, inputs), i), i.dets).Some?
  {
    hide Frame, FrameMatch, Run, AllPositive, PositiveInputs, AllWellFormed, RowsPositive, Predicted, Predictions;
    hide IsSolver, IsSqrt, KeepsWellFormed;
    InputsBefore(inputs, i);
    RunStaysWellFormed(c, inputs);
    FrameStaysWellFormed(c, Enter(Run(c, inputs), i), i.dets);
  }

  lemma NoLastRaise(c: Config, front: seq<Input>, i: Input)
    requires IsSolver(c.solve) && FrameMatch(c, Enter(Run(c, front), i), i.dets).Some?
    ensures Raises(c, front + [i]) == 0
  {
    hide FrameMatch, Frame, Run, IsSolver;
    assert (front + [i])[..|front|] == front;
  }

  lemma NeverRaises(c: Config, inputs: seq<Input>)
    requires Sound(c) && PositiveInputs(inputs)
    ensures Raises(c, inputs) == 0
  {
    if inputs != [] {
      assert IsSolver(c.solve);
      hide *;
      var front, i := inputs[..|inputs| - 1], inputs[|inputs| - 1];
      assert inputs == front + [i];
      CallAnswers(c, front, i);
      NoLastRaise(c, front, i);
    }
  }

  /** On such runs a tracker outlives a call exactly when its misses in a row, this call included, do not exceed
      `maxAge`; so it is removed exactly on its (`maxAge` + 1)-th consecutive miss. */
  lemma RemovedExactlyOnLastMiss(c: Config, inputs: seq<Input>, i: Input, o: Track)
    requires Sound(c) && PositiveInputs(inputs + [i]) && c.maxAge >= 0 && o in Run(c, inputs).tracks
    ensures var s, h := Enter(Run(c, inputs), i), MatchHistory(Logs(c, inputs), o.id);
            && TrailingMisses(h) <= c.maxAge
            && ((forall t :: t in Run(c, inputs + [i]).tracks ==> t.id != o.id) <==>
                  o.id !in LogOf(c, s, i.dets).matched && TrailingMisses(h) == c.maxAge)
  {
    hide AllPositive, PositiveInputs, FrameMatch, LogOf, MatchHistory, PredictTrack, IsSolver, IsSqrt, KeepsWellFormed;
    hide Born;
    InputsBefore(inputs, i);
    RunStaysWellFormed(c, inputs);
    FrameStaysWellFormed(c, Enter(Run(c, inputs), i), i.dets);
    PredictsPositive(c, o);
    RemovedOnLastMiss(c, inputs, i, o);
    NeverRaises(c, inputs);
    MissesBounded(c, inputs);
    CountersFollowHistory(c, inputs);
    assert Explains(o, MatchHistory(Logs(c, inputs), o.id));
  }

  /** On such runs exactly one tracker per detection is up to date after each call. */
  lemma OneFreshPerPositiveDetection(c: Config, inputs: seq<Input>, i: Input)
    requires Sound(c) && PositiveInputs(inputs + [i]) && c.maxAge >= 0
    ensures FreshCount(Run(c, inputs + [i]).tracks) == |i.dets|
  {
    hide AllPositive, AllWellFormed, PositiveInputs, FrameMatch, Frame, FreshCount, IsSolver, IsSqrt, KeepsWellFormed;
    assert (inputs + [i])[..|inputs|] == inputs;
    InputsBefore(inputs, i);
    RunStaysWellFormed(c, inputs);
    CountersFollowHistory(c, inputs);
    FrameStaysWellFormed(c, Enter(Run(c, inputs), i), i.dets);
    OneFreshPerDetection(c, Enter(Run(c, inputs), i), Logs(c, inputs), i.dets);
  }
}
