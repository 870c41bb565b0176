/** Which rows of the network's output reach the tracker: `v1/car_detection.py`. */
module DetectionFilter {
  import opened Common
  import opened BoxGeometry
  import opened FrameLock

  /** A relative coordinate on an image of some size. */
  function Scaled(r: real, size: int): real { r * size as real }

  /** The whole number next to `x` on the side of zero. */
  predicate TowardZero(x: real, p: real) {
    p.Floor as real == p && if x >= 0.0 then p <= x < p + 1.0 else p - 1.0 < x <= p
  }

  /** The box of a row in whole pixels. */
  predicate InPixels(r: Raw, width: int, height: int, b: Box) {
    && TowardZero(Scaled(r.box.x1, width), b.x1) && TowardZero(Scaled(r.box.y1, height), b.y1)
    && TowardZero(Scaled(r.box.x2, width), b.x2) && TowardZero(Scaled(r.box.y2, height), b.y2)
  }

  /** The label of a row, which may count from the end of the list, is a car's or a truck's. */
  predicate IsVehicle(labels: seq<string>, k: int) {
    || (0 <= k < |labels| && (labels[k] == "car" || labels[k] == "truck"))
    || (-|labels| <= k < 0 && (labels[|labels| + k] == "car" || labels[|labels| + k] == "truck"))
  }

  /** A confident vehicle inside the margins that is larger than the size limits. */
  predicate HandedOn(c: Settings, width: int, height: int, r: Raw, b: Box) {
    && r.confidence > c.threshold && IsVehicle(c.labels, r.classIndex)
    && b.x1 >= c.left as real && b.x2 <= (width - c.right) as real
    && b.y1 >= c.top as real && b.y2 <= (height - c.bottom) as real
    && b.x2 - b.x1 > c.minWidth as real && b.y2 - b.y1 > c.minHeight as real
  }

  lemma TruncatedTowardZero(x: real)
    ensures TowardZero(x, Truncate(x) as real)
  {
  }

  lemma OnePixel(x: real, p: real, q: real)
    requires TowardZero(x, p) && TowardZero(x, q)
    ensures p == q
  {
    WholeNumbers(p.Floor, q.Floor);
  }

  lemma WholeNumbers(a: int, b: int)
    requires -1.0 < a as real - b as real < 1.0
    ensures a == b
  {
    assert a as real - b as real == (a - b) as real;
  }

  function PixelsOf(r: Raw, width: int, height: int): Box {
    var (x1, y1, x2, y2) := PixelBox(r.box, width, height);
    Box(x1 as real, y1 as real, x2 as real, y2 as real)
  }

  /** Every row has one box in pixels. */
  lemma PixelsAre(r: Raw, width: int, height: int, b: Box)
    ensures InPixels(r, width, height, b) <==> b == PixelsOf(r, width, height)
  {
    hide TowardZero, Truncate;
    var m := PixelsOf(r, width, height);
    TruncatedTowardZero(Scaled(r.box.x1, width));
    TruncatedTowardZero(Scaled(r.box.y1, height));
    TruncatedTowardZero(Scaled(r.box.x2, width));
    TruncatedTowardZero(Scaled(r.box.y2, height));
    if InPixels(r, width, height, b) {
      OnePixel(Scaled(r.box.x1, width), b.x1, m.x1);
      OnePixel(Scaled(r.box.y1, height), b.y1, m.y1);
      OnePixel(Scaled(r.box.x2, width), b.x2, m.x2);
      OnePixel(Scaled(r.box.y2, height), b.y2, m.y2);
    }
  }

  lemma LabelIsVehicle(labels: seq<string>, k: int)
    ensures LabelAt(labels, k) == None <==> k < -|labels|
    ensures LabelAt(labels, k).Some? ==>
              (LabelAt(labels, k).value in ["car", "truck"] <==> IsVehicle(labels, k))
  {
    assert "unknown"[0] == 'u' && "car"[0] == 'c' && "truck"[0] == 't';
  }

  lemma AcceptedIsHandedOn(c: Settings, width: int, height: int, r: Raw)
    requires LabelAt(c.labels, r.classIndex).Some?
    ensures r.confidence > c.threshold && Accepted(c, width, height, LabelAt(c.labels, r.classIndex).value, r.box)
       <==> HandedOn(c, width, height, r, PixelsOf(r, width, height))
  {
    hide LabelAt, Pixel, IsVehicle;
    LabelIsVehicle(c.labels, r.classIndex);
  }

  /** A label lookup raises exactly when a confident row's index lies before the start of the list. */
  lemma {:induction false} RaisesIff(c: Settings, width: int, height: int, raws: seq<Raw>)
    ensures Detections(c, width, height, raws).None? <==>
            exists i :: 0 <= i < |raws| && raws[i].confidence > c.threshold && raws[i].classIndex < -|c.labels|
  {
    hide Accepted, PixelBox, LabelAt;
    if raws != [] {
      var n := |raws| - 1;
      var front := raws[..n];
      RaisesIff(c, width, height, front);
      LabelIsVehicle(c.labels, raws[n].classIndex);
      if i :| 0 <= i < |front| && front[i].confidence > c.threshold && front[i].classIndex < -|c.labels| {
        assert raws[i] == front[i];
      }
    }
  }

  /** The row, in pixels, is handed on. */
  ghost predicate Taken(c: Settings, width: int, height: int, r: Raw) {
    exists b :: InPixels(r, width, height, b) && HandedOn(c, width, height, r, b)
  }

  lemma TakenInItsPixels(c: Settings, width: int, height: int, r: Raw)
    ensures Taken(c, width, height, r) <==> HandedOn(c, width, height, r, PixelsOf(r, width, height))
    ensures InPixels(r, width, height, PixelsOf(r, width, height))
  {
    hide InPixels, HandedOn;
    var m := PixelsOf(r, width, height);
    PixelsAre(r, width, height, m);
    forall b | InPixels(r, width, height, b)
      ensures b == m
    {
      PixelsAre(r, width, height, b);
    }
  }

  /** The boxes are the pixel boxes of the rows at these positions. */
  ghost predicate BoxesOf(dets: seq<Box>, raws: seq<Raw>, width: int, height: int, at: seq<nat>) {
    |dets| == |at| && forall k :: 0 <= k < |at| ==> at[k] < |raws| && InPixels(raws[at[k]], width, height, dets[k])
  }

  lemma NextBox(dets: seq<Box>, raws: seq<Raw>, width: int, height: int, before: seq<nat>, b: Box)
    requires raws != [] && BoxesOf(dets, raws[..|raws| - 1], width, height, before)
    ensures BoxesOf(dets, raws, width, height, before)
    ensures InPixels(raws[|raws| - 1], width, height, b) ==>
              BoxesOf(dets + [b], raws, width, height, before + [|raws| - 1])
  {
    hide InPixels;
  }

  /** Otherwise the tracker is handed the accepted rows, all of them and no others, in order and in pixels. */
  lemma {:induction false} ExactlyTheAccepted(c: Settings, width: int, height: int, raws: seq<Raw>)
    returns (at: seq<nat>)
    requires Detections(c, width, height, raws).Some?
    ensures Increasing(at) && BoxesOf(Detections(c, width, height, raws).value, raws, width, height, at)
    ensures forall i: nat :: i in at <==> i < |raws| && Taken(c, width, height, raws[i])
  {
    hide InPixels, HandedOn, PixelsOf, Taken, Increasing, Detections;
    if raws == [] {
      at := [];
      NoRows(c, width, height);
    } else {
      hide BoxesOf;
      var n := |raws| - 1;
      LastRow(c, width, height, raws);
      TakenInItsPixels(c, width, height, raws[n]);
      var before := ExactlyTheAccepted(c, width, height, raws[..n]);
      at := ChooseNext(before, n, Taken(c, width, height, raws[n]));
      NextBox(Detections(c, width, height, raws[..n]).value, raws, width, height, before,
              PixelsOf(raws[n], width, height));
    }
  }

  lemma NoRows(c: Settings, width: int, height: int)
    ensures Detections(c, width, height, []) == Some([]) && Increasing([])
  {
  }

  lemma NotConfident(c: Settings, width: int, height: int, r: Raw)
    requires r.confidence <= c.threshold
    ensures forall b :: !HandedOn(c, width, height, r, b)
  {
  }

  lemma LastRow(c: Settings, width: int, height: int, raws: seq<Raw>)
    requires raws != [] && Detections(c, width, height, raws).Some?
    ensures var n := |raws| - 1;
            && Detections(c, width, height, raws[..n]).Some?
            && Detections(c, width, height, raws).value
               == if HandedOn(c, width, height, raws[n], PixelsOf(raws[n], width, height))
                  then Detections(c, width, height, raws[..n]).value + [PixelsOf(raws[n], width, height)]
                  else Detections(c, width, height, raws[..n]).value
  {
    hide Accepted, LabelAt, HandedOn;
    var r := raws[|raws| - 1];
    if r.confidence > c.threshold {
      AcceptedIsHandedOn(c, width, height, r);
    } else {
      NotConfident(c, width, height, r);
    }
  }
}
