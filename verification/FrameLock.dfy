/** The car counter of `v1/car_detection.py`: detection filter, tracker call and frame lock. */
module FrameLock {
  import opened Common
  import opened BoxGeometry
  import opened Assignment
  import SortSpec
  import SortTracker

  // ----- the lock -----

  /** Whether a frame with detections is counted: the first one, or one at least `period` after the last counted. */
  predicate Unlocked(last: Option<int>, frame: int, period: int) {
    last.None? || frame - last.value >= period
  }

  /** The frames counted among a sequence of frames with detections. */
  function Counted(frames: seq<int>, last: Option<int>, period: int): seq<int> {
    if frames == [] then []
    else if Unlocked(last, frames[0], period) then
      [frames[0]] + Counted(frames[1..], Some(frames[0]), period)
    else Counted(frames[1..], last, period)
  }

  predicate Spaced(s: set<int>, period: int) {
    forall a, b :: a in s && b in s && a < b ==> b - a >= period
  }

  function LastCounted(f: int, last: Option<int>, period: int): Option<int> {
    if Unlocked(last, f, period) then Some(f) else last
  }

  lemma CountedHead(frames: seq<int>, last: Option<int>, period: int)
    requires frames != []
    ensures var rest := Counted(frames[1..], LastCounted(frames[0], last, period), period);
            Counted(frames, last, period) == if Unlocked(last, frames[0], period) then [frames[0]] + rest else rest
  {
    hide Unlocked;
  }

  lemma IncreasingTail(frames: seq<int>)
    requires Increasing(frames) && frames != []
    ensures Increasing(frames[1..])
    ensures forall f :: f in frames <==> f == frames[0] || f in frames[1..]
    ensures forall f :: f in frames[1..] ==> f > frames[0]
  {
    assert frames == [frames[0]] + frames[1..];
  }

  lemma LaterUnlocked(f: int, last: Option<int>, period: int, x: int)
    requires x > f && Unlocked(LastCounted(f, last, period), x, period)
    ensures Unlocked(last, x, period)
    ensures Unlocked(last, f, period) ==> x - f >= period
  {
  }

  /** Counted frames are detection frames that passed the lock. */
  lemma {:induction false} CountedMembers(frames: seq<int>, last: Option<int>, period: int)
    requires Increasing(frames)
    ensures forall x :: x in Counted(frames, last, period) ==> x in frames && Unlocked(last, x, period)
  {
    if frames != [] {
      hide Unlocked, Counted, Increasing, LastCounted;
      var next := LastCounted(frames[0], last, period);
      IncreasingTail(frames);
      CountedHead(frames, last, period);
      CountedMembers(frames[1..], next, period);
      forall x | x in Counted(frames[1..], next, period)
        ensures x in frames && Unlocked(last, x, period)
      {
        LaterUnlocked(frames[0], last, period, x);
      }
    }
  }

  lemma {:induction false} CountedGaps(frames: seq<int>, last: Option<int>, period: int)
    requires Increasing(frames)
    ensures Gaps(Counted(frames, last, period), period)
  {
    if frames == [] {
      assert Counted(frames, last, period) == [];
    } else {
      hide Unlocked, Counted, Increasing, LastCounted, Gaps;
      var next := LastCounted(frames[0], last, period);
      IncreasingTail(frames);
      CountedHead(frames, last, period);
      CountedGaps(frames[1..], next, period);
      if Unlocked(last, frames[0], period) {
        CountedMembers(frames[1..], next, period);
        forall x | x in Counted(frames[1..], next, period)
          ensures x > frames[0] && x - frames[0] >= period
        {
          LaterUnlocked(frames[0], last, period, x);
        }
        GapsCons(frames[0], Counted(frames[1..], next, period), period);
      }
    }
  }

  /** In order and at least `period` apart. */
  predicate Gaps(s: seq<int>, period: int) {
    forall i, j :: 0 <= i < j < |s| ==> s[j] > s[i] && s[j] - s[i] >= period
  }

  lemma GapsCons(f: int, s: seq<int>, period: int)
    requires Gaps(s, period) && forall x :: x in s ==> x > f && x - f >= period
    ensures Gaps([f] + s, period)
  {
    var all := [f] + s;
    forall i, j | 0 <= i < j < |all|
      ensures all[j] > all[i] && all[j] - all[i] >= period
    {
      assert all[j] == s[j - 1] && s[j - 1] in s;
    }
  }

  /** The counted frames are detection frames that passed the lock, in order and at least `period` apart. */
  lemma CountedAreSpaced(frames: seq<int>, last: Option<int>, period: int)
    requires Increasing(frames)
    ensures forall x :: x in Counted(frames, last, period) ==> x in frames && Unlocked(last, x, period)
    ensures Gaps(Counted(frames, last, period), period)
  {
    hide *;
    CountedMembers(frames, last, period);
    CountedGaps(frames, last, period);
  }

  lemma AtMostOneNear(s: set<int>, f: int, period: int)
    requires Spaced(s, period) && forall x :: x in s ==> f <= x && (x == f || x - f < period)
    ensures |s| <= 1
  {
    if |s| > 0 {
      var a := Pick(s);
      assert forall b :: b in s ==> !(a < b) && !(b < a);
      assert s == {a};
    }
  }

  /** Removing what is too close to the first frame costs at most one. */
  lemma DropNear(s: set<int>, f: int, period: int) returns (far: set<int>)
    requires Spaced(s, period) && forall x :: x in s ==> f <= x
    ensures far == set x | x in s && x != f && x - f >= period
    ensures |s| <= |far| + 1
  {
    far := set x | x in s && x != f && x - f >= period;
    AtMostOneNear(s - far, f, period);
    assert s == far + (s - far);
  }

  lemma {:induction false} CountedBounds(frames: seq<int>, last: Option<int>, period: int, s: set<int>)
    requires Increasing(frames) && Spaced(s, period)
    requires forall x :: x in s ==> x in frames && Unlocked(last, x, period)
    ensures |s| <= |Counted(frames, last, period)|
    decreases |frames|
  {
    if frames == [] {
      assert forall x :: x in s ==> x in frames;
      assert s == {};
    } else {
      hide Increasing, Counted;
      var f, rest := frames[0], frames[1..];
      IncreasingTail(frames);
      CountedHead(frames, last, period);
      if Unlocked(last, f, period) {
        var far := DropNear(s, f, period);
        CountedBounds(rest, Some(f), period, far);
      } else {
        CountedBounds(rest, last, period, s);
      }
    }
  }

  /** For a fresh detector and increasing frame indices the greedy count is the largest number of detection
      frames that are pairwise at least `period` apart. */
  lemma GreedyCountIsOptimal(frames: seq<int>, period: int, rival: set<int>)
    requires Increasing(frames)
    requires (forall x :: x in rival ==> x in frames) && Spaced(rival, period)
    ensures |rival| <= |Counted(frames, None, period)|
    ensures var best := set x | x in Counted(frames, None, period);
            (forall x :: x in best ==> x in frames) && Spaced(best, period) && |best| == |Counted(frames, None, period)|
  {
    hide Counted;
    CountedBounds(frames, None, period, rival);
    CountedAreSpaced(frames, None, period);
    GapsIncrease(Counted(frames, None, period), period);
    SetOfIncreasing(Counted(frames, None, period));
  }

  lemma GapsIncrease(s: seq<int>, period: int)
    requires Gaps(s, period)
    ensures Increasing(s) && Spaced((set x | x in s), period)
  {
    forall a, b | a in s && b in s && a < b
      ensures b - a >= period
    {
      var i :| 0 <= i < |s| && s[i] == a;
      var j :| 0 <= j < |s| && s[j] == b;
      assert i < j;
    }
  }

  lemma {:induction false} SetOfIncreasing(s: seq<int>)
    requires Increasing(s)
    ensures |set x | x in s| == |s|
  {
    if s != [] {
      var front := s[..|s| - 1];
      SetOfIncreasing(front);
      assert s[|s| - 1] !in front;
      assert (set x | x in s) == (set x | x in front) + {s[|s| - 1]};
    }
  }

  // ----- one frame of the detector -----

  type Confidence = r: real | 0.0 <= r <= 1.0 witness 0.0

  /** One row of the network's output: its box is relative to the image. */
  datatype Raw = Raw(confidence: Confidence, classIndex: int, box: Box)

  /** Configured thresholds and margins, and the image size. */
  datatype Settings = Settings(
    threshold: real, labels: seq<string>, period: int,
    top: int, bottom: int, left: int, right: int, minWidth: int, minHeight: int)

  /** Conversion of a float array to integers drops the fraction. */
  function Truncate(r: real): int {
    if r >= 0.0 then r.Floor else -((-r).Floor)
  }

  /** List indexing: a negative index counts from the end, `None` stands for the exception. */
  function LabelAt(labels: seq<string>, index: int): Option<string> {
    if index >= |labels| then Some("unknown")
    else if index >= 0 then Some(labels[index])
    else if index >= -|labels| then Some(labels[|labels| + index])
    else None
  }

  function Pixel(r: real, size: int): int { Truncate(r * size as real) }

  /** The pixel box of a row. */
  function PixelBox(b: Box, width: int, height: int): (int, int, int, int) {
    (Pixel(b.x1, width), Pixel(b.y1, height), Pixel(b.x2, width), Pixel(b.y2, height))
  }

  predicate Accepted(c: Settings, width: int, height: int, name: string, b: Box) {
    var (x1, y1, x2, y2) := PixelBox(b, width, height);
    && name in ["car", "truck"]
    && !(x1 < c.left || x2 > width - c.right || y1 < c.top || y2 > height - c.bottom)
    && x2 - x1 > c.minWidth && y2 - y1 > c.minHeight
  }

  /** The detections handed to the tracker, in order; `None` when a label lookup raises. */
  function Detections(c: Settings, width: int, height: int, raws: seq<Raw>): Option<seq<Box>> {
    if raws == [] then Some([])
    else
      var r := raws[|raws| - 1];
      match Detections(c, width, height, raws[..|raws| - 1])
      case None => None
      case Some(dets) =>
        if r.confidence <= c.threshold then Some(dets)
        else match LabelAt(c.labels, r.classIndex)
          case None => None
          case Some(name) =>
            var (x1, y1, x2, y2) := PixelBox(r.box, width, height);
            if Accepted(c, width, height, name, r.box)
            then Some(dets + [Box(x1 as real, y1 as real, x2 as real, y2 as real)])
            else Some(dets)
  }

  /** With nonnegative size limits the tracker only ever sees positive boxes inside the margins. */
  lemma {:induction false} DetectionsAreProper(c: Settings, width: int, height: int, raws: seq<Raw>)
    requires c.minWidth >= 0 && c.minHeight >= 0
    ensures Detections(c, width, height, raws).Some? ==> forall b :: b in Detections(c, width, height, raws).value ==>
              && b.Positive() && InitialState(b).WellFormed()
              && b.x1 >= c.left as real && b.x2 <= (width - c.right) as real
              && b.y1 >= c.top as real && b.y2 <= (height - c.bottom) as real
  {
    if raws != [] {
      DetectionsAreProper(c, width, height, raws[..|raws| - 1]);
      var (x1, y1, x2, y2) := PixelBox(raws[|raws| - 1].box, width, height);
      var b := Box(x1 as real, y1 as real, x2 as real, y2 as real);
      if x1 < x2 && y1 < y2 {
        RootsOfArea(b.Width(), b.Height());
      }
    }
  }

  /** The drawing loop converts every coordinate to an integer, which a box that is not finite refuses. */
  predicate Drawable(rows: seq<SortSpec.Row>) {
    forall i :: 0 <= i < |rows| ==> rows[i].box.Finite?
  }

  datatype Shot = Shot(width: int, height: int, raws: seq<Raw>, frame: int)

  datatype Detector = Detector(last: Option<int>, tracker: SortSpec.State)

  /** One call on a loaded model: the detector afterwards, and the count returned. */
  function Shoot(c: Settings, t: SortSpec.Config, d: Detector, shot: Shot): (Detector, nat)
    requires IsSolver(t.solve)
  {
    var dets := Detections(c, shot.width, shot.height, shot.raws);
    if dets.None? || dets.value == [] then (d, 0)
    else
      var (s, outcome) := SortSpec.Frame(t, d.tracker, dets.value);
      if outcome.Raised? || !Unlocked(d.last, shot.frame, c.period) then (Detector(d.last, s), 0)
      else (Detector(Some(shot.frame), s), if Drawable(outcome.rows) then 1 else 0)
  }

  class CarDetector {
    const loaded: bool
    const settings: Settings
    const tracker: SortTracker.Sort
    var lastCounted: Option<int>

    constructor (loaded: bool, settings: Settings, tracker: SortTracker.Sort)
      ensures lastCounted == None && this.tracker == tracker && this.settings == settings && this.loaded == loaded
    {
      this.loaded := loaded;
      this.settings := settings;
      this.tracker := tracker;
      lastCounted := None;
    }

    /** The tracker runs exactly on frames with detections; the lock moves exactly when the tracker did not raise
        and the frame is unlocked; the returned count is lost when the drawing that follows raises. */
    method DetectAndTrack(shot: Shot, lapInstalled: bool) returns (count: int)
      requires tracker.Valid() && IsSolver(tracker.config.solve)
      modifies this, tracker, tracker.trackers, tracker.ids
      ensures tracker.Valid()
      ensures if loaded then
                var after := Shoot(settings, tracker.config, Detector(old(lastCounted), old(tracker.View())), shot);
                Detector(lastCounted, tracker.View()) == after.0 && count == after.1
              else count == 0 && lastCounted == old(lastCounted) && tracker.View() == old(tracker.View())
    {
      hide SortSpec.Frame, Accepted;
      if !loaded {
        return 0;
      }
      var dets: seq<Box> := [];
      for i := 0 to |shot.raws|
        invariant Detections(settings, shot.width, shot.height, shot.raws[..i]) == Some(dets)
      {
        assert shot.raws[..i + 1][..i] == shot.raws[..i];
        var r := shot.raws[i];
        if r.confidence > settings.threshold {
          var name := LabelAt(settings.labels, r.classIndex);
          if name.None? {
            RaisesEarly(settings, shot.width, shot.height, shot.raws, i + 1);
            return 0;
          }
          var (x1, y1, x2, y2) := PixelBox(r.box, shot.width, shot.height);
          if Accepted(settings, shot.width, shot.height, name.value, r.box) {
            dets := dets + [Box(x1 as real, y1 as real, x2 as real, y2 as real)];
          }
        }
      }
      assert shot.raws[..|shot.raws|] == shot.raws;
      count := 0;
      if |dets| > 0 {
        var tracks := tracker.Update(dets, lapInstalled);
        if tracks.Raised? {
          return 0;
        }
        if lastCounted.None? || shot.frame - lastCounted.value >= settings.period {
          count := 1;
          lastCounted := Some(shot.frame);
        }
        if !Drawable(tracks.rows) {
          return 0;
        }
      }
    }
  }

  lemma {:induction false} RaisesEarly(c: Settings, width: int, height: int, raws: seq<Raw>, k: nat)
    requires k <= |raws| && Detections(c, width, height, raws[..k]).None?
    ensures Detections(c, width, height, raws).None?
    decreases |raws| - k
  {
    if k == |raws| {
      assert raws[..k] == raws;
    } else {
      assert raws[..k + 1][..k] == raws[..k];
      RaisesEarly(c, width, height, raws, k + 1);
    }
  }

  // ----- whole runs of the detector -----

  function Total(c: Settings, t: SortSpec.Config, d: Detector, shots: seq<Shot>): nat
    requires IsSolver(t.solve)
    decreases |shots|
  {
    if shots == [] then 0
    else
      var after := Shoot(c, t, d, shots[0]);
      after.1 + Total(c, t, after.0, shots[1..])
  }

  /** What the tracker answers to a shot; `None` when it is not called. */
  function Answer(c: Settings, t: SortSpec.Config, d: Detector, shot: Shot): Option<SortSpec.Outcome>
    requires IsSolver(t.solve)
  {
    var dets := Detections(c, shot.width, shot.height, shot.raws);
    if dets.None? || dets.value == [] then None else Some(SortSpec.Frame(t, d.tracker, dets.value).1)
  }

  /** The frames with detections, those on which the tracker raised left out. */
  function DetectionFrames(c: Settings, t: SortSpec.Config, d: Detector, shots: seq<Shot>): seq<int>
    requires IsSolver(t.solve)
    decreases |shots|
  {
    if shots == [] then []
    else
      var rest := DetectionFrames(c, t, Shoot(c, t, d, shots[0]).0, shots[1..]);
      var answer := Answer(c, t, d, shots[0]);
      if answer.Some? && answer.value.Reported? then [shots[0].frame] + rest else rest
  }

  /** Whether every shot that passes the lock is drawn without raising. */
  predicate CountedAreDrawn(c: Settings, t: SortSpec.Config, d: Detector, shots: seq<Shot>)
    requires IsSolver(t.solve)
    decreases |shots|
  {
    shots != [] ==>
      var answer := Answer(c, t, d, shots[0]);
      && (answer.Some? && answer.value.Reported? && Unlocked(d.last, shots[0].frame, c.period) ==>
            Drawable(answer.value.rows))
      && CountedAreDrawn(c, t, Shoot(c, t, d, shots[0]).0, shots[1..])
  }

  /** Over a whole run the counts returned never exceed the greedy count of the detection frames, and they reach it
      exactly when every frame that passes the lock is also drawn. */
  lemma {:induction false} TotalIsGreedyCount(c: Settings, t: SortSpec.Config, d: Detector, shots: seq<Shot>)
    requires IsSolver(t.solve)
    ensures Total(c, t, d, shots) <= |Counted(DetectionFrames(c, t, d, shots), d.last, c.period)|
    ensures Total(c, t, d, shots) == |Counted(DetectionFrames(c, t, d, shots), d.last, c.period)|
       <==> CountedAreDrawn(c, t, d, shots)
    decreases |shots|
  {
    hide SortSpec.Frame, Detections, Drawable, Unlocked;
    if shots != [] {
      var next := Shoot(c, t, d, shots[0]).0;
      var rest := DetectionFrames(c, t, next, shots[1..]);
      TotalIsGreedyCount(c, t, next, shots[1..]);
      assert ([shots[0].frame] + rest)[1..] == rest;
    }
  }

  predicate FramesIncrease(shots: seq<Shot>) {
    forall i, j :: 0 <= i < j < |shots| ==> shots[i].frame < shots[j].frame
  }

  lemma {:induction false} DetectionFramesIncrease(c: Settings, t: SortSpec.Config, d: Detector, shots: seq<Shot>)
    requires IsSolver(t.solve) && FramesIncrease(shots)
    ensures Increasing(DetectionFrames(c, t, d, shots))
    ensures forall f :: f in DetectionFrames(c, t, d, shots) ==> shots != [] && shots[0].frame <= f
    decreases |shots|
  {
    hide Shoot, Answer;
    if shots != [] {
      var next, rest := Shoot(c, t, d, shots[0]).0, shots[1..];
      assert forall i :: 0 <= i < |rest| ==> rest[i] == shots[i + 1];
      DetectionFramesIncrease(c, t, next, rest);
      var later := DetectionFrames(c, t, next, rest);
      assert forall i :: 0 <= i < |later| ==> later[i] in later;
      assert forall i :: 0 <= i < |later| ==> shots[0].frame < later[i];
    }
  }

  /** When every frame that passes the lock is drawn, the count over increasing frame indices is the size of the
      largest set of detection frames that are pairwise at least `period` apart. */
  lemma LargestWhenDrawn(c: Settings, t: SortSpec.Config, s: SortSpec.State, shots: seq<Shot>, rival: set<int>)
    requires IsSolver(t.solve) && FramesIncrease(shots)
    requires CountedAreDrawn(c, t, Detector(None, s), shots)
    requires forall x :: x in rival ==> x in DetectionFrames(c, t, Detector(None, s), shots)
    requires Spaced(rival, c.period)
    ensures |rival| <= Total(c, t, Detector(None, s), shots)
    ensures exists best :: |best| == Total(c, t, Detector(None, s), shots) && Spaced(best, c.period)
                           && forall x :: x in best ==> x in DetectionFrames(c, t, Detector(None, s), shots)
  {
    hide Shoot, Answer, Spaced, Counted, DetectionFrames, Total, CountedAreDrawn;
    var d := Detector(None, s);
    var frames := DetectionFrames(c, t, d, shots);
    DetectionFramesIncrease(c, t, d, shots);
    TotalIsGreedyCount(c, t, d, shots);
    GreedyCountIsOptimal(frames, c.period, rival);
    var best := set x | x in Counted(frames, None, c.period);
    assert |best| == Total(c, t, d, shots) && Spaced(best, c.period) && forall x :: x in best ==> x in frames;
  }
}
