/** When the car count of a whole run is the optimal one: a condition on the detector's settings. */
module FrameLockRuns {
  import opened Common
  import opened BoxGeometry
  import opened Assignment
  import opened FrameLock
  import opened SortWellFormed
  import Association
  import SortSpec

  /** Nothing is ever called a car or a truck. */
  predicate NoVehicles(c: Settings) {
    forall k :: 0 <= k < |c.labels| ==> c.labels[k] !in ["car", "truck"]
  }

  /** No confidence passes the threshold, or nothing has a name that counts. */
  predicate Idle(c: Settings) { c.threshold >= 1.0 || NoVehicles(c) }

  /** The size limits refuse boxes without extent, or there is nothing to detect. */
  predicate Careful(c: Settings) { Idle(c) || (c.minWidth >= 0 && c.minHeight >= 0) }

  // ----- careful settings -----

  lemma {:induction false} NothingDetected(c: Settings, width: int, height: int, raws: seq<Raw>)
    requires Idle(c)
    ensures Detections(c, width, height, raws).None? || Detections(c, width, height, raws).value == []
  {
    if raws != [] {
      hide Truncate;
      NothingDetected(c, width, height, raws[..|raws| - 1]);
      var name := LabelAt(c.labels, raws[|raws| - 1].classIndex);
      assert "unknown" !in ["car", "truck"] by {
        assert |"unknown"| == 7 && |"car"| == 3 && |"truck"| == 5;
      }
      assert c.threshold < 1.0 && name.Some? ==> name.value !in ["car", "truck"];
    }
  }

  lemma DetectionsArePositive(c: Settings, width: int, height: int, raws: seq<Raw>)
    requires Careful(c) && Detections(c, width, height, raws).Some?
    ensures AllPositive(Detections(c, width, height, raws).value)
  {
    hide Detections, InitialState, Idle;
    if Idle(c) {
      NothingDetected(c, width, height, raws);
    } else {
      DetectionsAreProper(c, width, height, raws);
      var dets := Detections(c, width, height, raws).value;
      assert forall i :: 0 <= i < |dets| ==> dets[i] in dets;
    }
  }

  lemma PositiveIsDrawable(rows: seq<SortSpec.Row>)
    requires RowsPositive(rows)
    ensures Drawable(rows)
  {
    assert forall i :: 0 <= i < |rows| ==> PositiveBox(rows[i].box);
  }

  lemma ShotStaysWellFormed(c: Settings, t: SortSpec.Config, d: Detector, shot: Shot)
    requires Careful(c) && Sound(t) && AllWellFormed(d.tracker.tracks)
    ensures AllWellFormed(Shoot(c, t, d, shot).0.tracker.tracks)
    ensures Answer(c, t, d, shot).Some? ==>
              Answer(c, t, d, shot).value.Reported? && Drawable(Answer(c, t, d, shot).value.rows)
  {
    hide Careful, Detections, SortSpec.Frame, SortSpec.FrameMatch, AllWellFormed, AllPositive, RowsPositive, Drawable;
    hide Predicted, IsSolver, IsSqrt, KeepsWellFormed;
    var dets := Detections(c, shot.width, shot.height, shot.raws);
    if dets.Some? && dets.value != [] {
      DetectionsArePositive(c, shot.width, shot.height, shot.raws);
      FrameStaysWellFormed(t, d.tracker, dets.value);
      PositiveIsDrawable(SortSpec.Frame(t, d.tracker, dets.value).1.rows);
    }
  }

  /** With careful settings every frame that passes the lock is drawn. */
  lemma {:induction false} CarefulIsDrawn(c: Settings, t: SortSpec.Config, d: Detector, shots: seq<Shot>)
    requires Careful(c) && Sound(t) && AllWellFormed(d.tracker.tracks)
    ensures CountedAreDrawn(c, t, d, shots)
    decreases |shots|
  {
    hide Careful, Shoot, Answer, AllWellFormed, Drawable, IsSolver, IsSqrt, KeepsWellFormed;
    if shots != [] {
      ShotStaysWellFormed(c, t, d, shots[0]);
      CarefulIsDrawn(c, t, Shoot(c, t, d, shots[0]).0, shots[1..]);
    }
  }

  // ----- careless settings -----

  function Fraction(x: int, size: int): real
    requires size > 0
  {
    x as real / size as real
  }

  /** A pixel coordinate is reached by a relative one. */
  lemma PixelOf(x: int, size: int)
    requires size > 0
    ensures Pixel(Fraction(x, size), size) == x
  {
    var q := Fraction(x, size);
    assert q * size as real == x as real;
  }

  function Relative(x1: int, y1: int, x2: int, y2: int, width: int, height: int): Box
    requires width > 0 && height > 0
  {
    Box(Fraction(x1, width), Fraction(y1, height), Fraction(x2, width), Fraction(y2, height))
  }

  lemma PixelsOf(x1: int, y1: int, x2: int, y2: int, width: int, height: int)
    requires width > 0 && height > 0
    ensures PixelBox(Relative(x1, y1, x2, y2, width, height), width, height) == (x1, y1, x2, y2)
  {
    hide Pixel, Fraction;
    PixelOf(x1, width);
    PixelOf(y1, height);
    PixelOf(x2, width);
    PixelOf(y2, height);
  }

  /** A shot of which careless settings accept one box, without height or without width. */
  lemma FlatShot(c: Settings) returns (shot: Shot, b: Box)
    requires !Careful(c)
    ensures Detections(c, shot.width, shot.height, shot.raws) == Some([b])
    ensures b.Height() == 0.0 || (b.Width() == 0.0 && b.Height() != 0.0)
  {
    hide PixelBox, Relative, Detections;
    var k :| 0 <= k < |c.labels| && c.labels[k] in ["car", "truck"];
    var w := if c.minHeight < 0 then Max(c.minWidth, 0) + 1 else 0;
    var h := if c.minHeight < 0 then 0 else c.minHeight + 1;
    var width, height := Max(1, c.left + w + c.right), Max(1, c.top + h + c.bottom);
    var confidence: Confidence := if c.threshold < 0.0 then 0.5 else (c.threshold + 1.0) / 2.0;
    var raw := Raw(confidence, k, Relative(c.left, c.top, c.left + w, c.top + h, width, height));
    PixelsOf(c.left, c.top, c.left + w, c.top + h, width, height);
    b := Box(c.left as real, c.top as real, (c.left + w) as real, (c.top + h) as real);
    shot := Shot(width, height, [raw], 0);
    OneRow(c, width, height, raw, k, c.left, c.top, c.left + w, c.top + h);
  }

  lemma OneRow(c: Settings, width: int, height: int, raw: Raw, k: nat, x1: int, y1: int, x2: int, y2: int)
    requires raw.confidence > c.threshold && raw.classIndex == k < |c.labels| && c.labels[k] in ["car", "truck"]
    requires PixelBox(raw.box, width, height) == (x1, y1, x2, y2)
    requires x1 >= c.left && x2 <= width - c.right && y1 >= c.top && y2 <= height - c.bottom
    requires x2 - x1 > c.minWidth && y2 - y1 > c.minHeight
    ensures Detections(c, width, height, [raw]) == Some([Box(x1 as real, y1 as real, x2 as real, y2 as real)])
  {
    hide PixelBox;
    assert [raw][..|[raw]| - 1] == [];
    assert Detections(c, width, height, []) == Some([]);
    assert [] + [Box(x1 as real, y1 as real, x2 as real, y2 as real)]
        == [Box(x1 as real, y1 as real, x2 as real, y2 as real)];
    assert LabelAt(c.labels, k) == Some(c.labels[k]);
    assert Accepted(c, width, height, c.labels[k], raw.box);
  }

  lemma FlatHasNoBox(t: SortSpec.Config, b: Box)
    requires b.Height() == 0.0 || (b.Width() == 0.0 && b.Height() != 0.0)
    ensures XToBbox(t.sqrt, InitialState(b)).Nan?
  {
    if b.Height() != 0.0 {
      var h := b.Height();
      assert 0.0 * h == 0.0 && 0.0 / h == 0.0;
    }
  }

  /** The first detection of a fresh tracker is reported as it was measured. */
  lemma FirstFrame(t: SortSpec.Config, n: nat, b: Box)
    requires IsSolver(t.solve)
    ensures SortSpec.Frame(t, SortSpec.State([], 0, n), [b]).1
         == SortSpec.Reported([SortSpec.Row(XToBbox(t.sqrt, InitialState(b)), n + 1)])
  {
    hide XToBbox, InitialState, IsSolver;
    var s := SortSpec.State([], 0, n);
    assert SortSpec.CompressRows(SortSpec.Predictions(t, [])) == [];
    var m := Association.Match([], Range(1), []);
    assert SortSpec.FrameMatch(t, s, [b]) == Some(m);
    SortSpec.FrameMatchFits(t, s, [b]);
    var all := SortSpec.Updated(t, s, [b]);
    assert all == [SortSpec.NewTrack(n, b)];
    assert all[..|all| - 1] == [] && SortSpec.Report(t, 1, []) == [];
    assert SortSpec.Shown(t, 1, all[0]);
    assert SortSpec.Report(t, 1, all) == [SortSpec.Row(XToBbox(t.sqrt, InitialState(b)), n + 1)];
  }

  /** With careless settings a single shot is counted by the lock and lost by the drawing. */
  lemma CarelessLosesACount(c: Settings, t: SortSpec.Config, n: nat) returns (shots: seq<Shot>)
    requires !Careful(c) && IsSolver(t.solve)
    ensures var d := Detector(None, SortSpec.State([], 0, n));
            Total(c, t, d, shots) == 0 && |Counted(DetectionFrames(c, t, d, shots), None, c.period)| == 1
  {
    hide SortSpec.Frame, Detections, XToBbox, InitialState, IsSolver, Careful;
    var shot, b := FlatShot(c);
    shots := [shot];
    FlatHasNoBox(t, b);
    FirstFrame(t, n, b);
    var d := Detector(None, SortSpec.State([], 0, n));
    var rows := SortSpec.Frame(t, d.tracker, [b]).1.rows;
    assert rows[0].box.Nan?;
    assert !Drawable(rows);
    assert shots[1..] == [];
    assert Shoot(c, t, d, shot).1 == 0;
    assert DetectionFrames(c, t, Shoot(c, t, d, shot).0, []) == [];
    assert DetectionFrames(c, t, d, shots) == [shot.frame];
    assert [shot.frame][1..] == [];
  }

  // ----- the count -----

  /** The counts that a fresh detector returns add up to the greedy count on every run exactly when the settings are
      careful. */
  lemma CountsAreGreedyIff(c: Settings, t: SortSpec.Config, n: nat)
    requires Sound(t)
    ensures (forall shots ::
               Total(c, t, Detector(None, SortSpec.State([], 0, n)), shots)
               == |Counted(DetectionFrames(c, t, Detector(None, SortSpec.State([], 0, n)), shots), None, c.period)|)
       <==> Careful(c)
  {
    hide Total, Counted, DetectionFrames, CountedAreDrawn, Careful, IsSolver, IsSqrt, KeepsWellFormed;
    var d := Detector(None, SortSpec.State([], 0, n));
    if Careful(c) {
      forall shots
        ensures Total(c, t, d, shots) == |Counted(DetectionFrames(c, t, d, shots), None, c.period)|
      {
        CarefulIsDrawn(c, t, d, shots);
        TotalIsGreedyCount(c, t, d, shots);
      }
    } else {
      var shots := CarelessLosesACount(c, t, n);
    }
  }

  /** With careful settings, the count of a fresh detector over increasing frame indices is the size of the largest set
      of detection frames that are pairwise at least `period` apart. */
  lemma CountIsLargestSpacedSet(c: Settings, t: SortSpec.Config, s: SortSpec.State, shots: seq<Shot>, rival: set<int>)
    requires Careful(c) && Sound(t) && AllWellFormed(s.tracks) && FramesIncrease(shots)
    requires forall x :: x in rival ==> x in DetectionFrames(c, t, Detector(None, s), shots)
    requires Spaced(rival, c.period)
    ensures |rival| <= Total(c, t, Detector(None, s), shots)
    ensures exists best :: |best| == Total(c, t, Detector(None, s), shots) && Spaced(best, c.period)
                           && forall x :: x in best ==> x in DetectionFrames(c, t, Detector(None, s), shots)
  {
    hide Total, Counted, DetectionFrames, CountedAreDrawn, Careful, IsSolver, IsSqrt, KeepsWellFormed, Spaced;
    CarefulIsDrawn(c, t, Detector(None, s), shots);
    LargestWhenDrawn(c, t, s, shots, rival);
  }
}
