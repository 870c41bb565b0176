/** Boxes, overlap and the constant-velocity motion model of the tracker.

    Floats are reals. What floating point adds and the tracker reacts to is kept as explicit values:
    a quotient by zero (`NaN`, `Inf`) and a state vector holding a non-finite component. */
module BoxGeometry {

  datatype Box = Box(x1: real, y1: real, x2: real, y2: real) {
    function Width(): real { x2 - x1 }

    function Height(): real { y2 - y1 }

    function Area(): real { Width() * Height() }

    predicate Positive() { x1 < x2 && y1 < y2 }
  }

  /** One entry of an overlap matrix. */
  datatype Score = Num(v: real) | Inf | NaN {
    predicate Above(t: real) { Inf? || (Num? && v > t) }

    predicate Below(t: real) { Num? && v < t }
  }

  function MinReal(a: real, b: real): real { if a < b then a else b }

  function MaxReal(a: real, b: real): real { if a < b then b else a }

  function Divide(a: real, b: real): Score {
    if b != 0.0 then Num(a / b) else if a == 0.0 then NaN else Inf
  }

  function OverlapWidth(a: Box, b: Box): real {
    MaxReal(0.0, MinReal(a.x2, b.x2) - MaxReal(a.x1, b.x1))
  }

  function OverlapHeight(a: Box, b: Box): real {
    MaxReal(0.0, MinReal(a.y2, b.y2) - MaxReal(a.y1, b.y1))
  }

  function Overlap(a: Box, b: Box): real { OverlapWidth(a, b) * OverlapHeight(a, b) }

  function Iou(a: Box, b: Box): Score {
    Divide(Overlap(a, b), a.Area() + b.Area() - Overlap(a, b))
  }

  lemma Sign(x: real, d: real)
    requires d > 0.0
    ensures (x * d > 0.0 <==> x > 0.0) && (x * d < 0.0 <==> x < 0.0)
  {
    if x > 0.0 {
      assert x * d > 0.0;
    } else if x < 0.0 {
      assert (-x) * d > 0.0;
    }
  }

  lemma ProductMono(a: real, b: real, c: real, d: real)
    requires 0.0 <= a <= c && 0.0 <= b <= d && 0.0 < c && 0.0 < d
    ensures 0.0 <= a * b <= c * d
    ensures a * b == c * d ==> a == c && b == d
  {
    Sign(c - a, d);
    Sign(d - b, c);
    assert c * d - a * b == (c - a) * d + a * (d - b);
    assert a * (d - b) >= 0.0;
    assert c * d - a * b == c * (d - b) + (c - a) * b;
    assert (c - a) * b >= 0.0;
  }

  /** Overlap is bounded by the smaller area, and fills both boxes only when they coincide. */
  lemma OverlapBounds(a: Box, b: Box)
    requires a.Positive() && b.Positive()
    ensures a.Area() > 0.0 && b.Area() > 0.0
    ensures 0.0 <= Overlap(a, b) <= MinReal(a.Area(), b.Area())
    ensures Overlap(a, b) == a.Area() == b.Area() <==> a == b
  {
    hide OverlapWidth, OverlapHeight;
    SideFits(a, b);
    var w, h := OverlapWidth(a, b), OverlapHeight(a, b);
    ProductMono(w, h, a.Width(), a.Height());
    ProductMono(w, h, b.Width(), b.Height());
    Sign(a.Width(), a.Height());
    Sign(b.Width(), b.Height());
  }

  lemma SideFits(a: Box, b: Box)
    requires a.Positive() && b.Positive()
    ensures 0.0 <= OverlapWidth(a, b) <= MinReal(a.Width(), b.Width())
    ensures 0.0 <= OverlapHeight(a, b) <= MinReal(a.Height(), b.Height())
    ensures OverlapWidth(a, b) == a.Width() == b.Width() && OverlapHeight(a, b) == a.Height() == b.Height() <==> a == b
  {
  }

  lemma QuotientInUnit(n: real, d: real)
    requires 0.0 <= n <= d && 0.0 < d
    ensures 0.0 <= n / d <= 1.0 && (n / d == 1.0 <==> n == d)
  {
    var q := n / d;
    assert q * d == n;
    Sign(q, d);
    Sign(q - 1.0, d);
    assert (q - 1.0) * d == n - d;
  }

  lemma IouIsASimilarity(a: Box, b: Box)
    requires a.Positive() && b.Positive()
    ensures Iou(a, b).Num? && Iou(a, b) == Iou(b, a)
    ensures 0.0 <= Iou(a, b).v <= 1.0
    ensures Iou(a, b).v == 1.0 <==> a == b
  {
    OverlapBounds(a, b);
    OverlapSymmetric(a, b);
    hide Overlap, Box.Area, Divide;
    QuotientOfOverlap(Overlap(a, b), a.Area(), b.Area(), a == b);
  }

  lemma OverlapSymmetric(a: Box, b: Box)
    ensures Overlap(a, b) == Overlap(b, a)
  {
  }

  lemma QuotientOfOverlap(wh: real, areaA: real, areaB: real, same: bool)
    requires 0.0 < areaA && 0.0 < areaB && 0.0 <= wh <= MinReal(areaA, areaB)
    requires wh == areaA == areaB <==> same
    ensures Divide(wh, areaA + areaB - wh).Num?
    ensures 0.0 <= Divide(wh, areaA + areaB - wh).v <= 1.0
    ensures Divide(wh, areaA + areaB - wh).v == 1.0 <==> same
  {
    QuotientInUnit(wh, areaA + areaB - wh);
  }

  /** The box common to two boxes; without positive sides they have no inner point in common. */
  function Meet(a: Box, b: Box): Box {
    Box(MaxReal(a.x1, b.x1), MaxReal(a.y1, b.y1), MinReal(a.x2, b.x2), MinReal(a.y2, b.y2))
  }

  predicate Inside(b: Box, x: real, y: real) { b.x1 < x < b.x2 && b.y1 < y < b.y2 }

  /** The surface that two boxes share. */
  function Shared(a: Box, b: Box): real {
    if Meet(a, b).Positive() then (Meet(a, b).x2 - Meet(a, b).x1) * (Meet(a, b).y2 - Meet(a, b).y1) else 0.0
  }

  lemma OverlapIsShared(a: Box, b: Box)
    ensures forall x: real, y: real :: Inside(Meet(a, b), x, y) <==> Inside(a, x, y) && Inside(b, x, y)
    ensures Overlap(a, b) == Shared(a, b)
  {
    var w, h := OverlapWidth(a, b), OverlapHeight(a, b);
    if !Meet(a, b).Positive() {
      assert w == 0.0 || h == 0.0;
      assert w * h == 0.0;
    }
  }

  /** Of the surface that two positive boxes cover together, the overlap is the share they have in common. */
  lemma IouIsTheShare(a: Box, b: Box)
    requires a.Positive() && b.Positive()
    ensures Iou(a, b).Num?
    ensures Iou(a, b).v * ((a.x2 - a.x1) * (a.y2 - a.y1) + (b.x2 - b.x1) * (b.y2 - b.y1) - Shared(a, b)) == Shared(a, b)
  {
    hide OverlapWidth, OverlapHeight, Meet, Shared;
    OverlapBounds(a, b);
    OverlapIsShared(a, b);
    var n, d := Overlap(a, b), a.Area() + b.Area() - Overlap(a, b);
    assert d > 0.0;
    QuotientTimes(n, d);
  }

  lemma QuotientTimes(n: real, d: real)
    requires d != 0.0
    ensures Divide(n, d).Num? && Divide(n, d).v * d == n
  {
  }

  // ----- the filter's state -----

  /** The mean the filter carries: centre, area, aspect ratio and the velocities of the first three. */
  datatype KState =
    | Mean(cx: real, cy: real, s: real, r: real, vx: real, vy: real, vs: real)
    | NotFinite
  {
    predicate WellFormed() { Mean? && s > 0.0 && r > 0.0 }
  }

  /** What turning a state into a box gives. */
  datatype Pred = Finite(box: Box) | Infinite | Nan

  /** The measured part of a box. `Degenerate` when the box has no height, so the ratio is not a number. */
  datatype Measurement = Centred(cx: real, cy: real, s: real, r: real) | Degenerate

  function BboxToZ(b: Box): Measurement {
    if b.Height() == 0.0 then Degenerate
    else Centred(b.x1 + b.Width() / 2.0, b.y1 + b.Height() / 2.0, b.Area(), b.Width() / b.Height())
  }

  /** A new tracker starts at the measurement, at rest. */
  function InitialState(b: Box): KState {
    match BboxToZ(b)
    case Degenerate => NotFinite
    case Centred(cx, cy, s, r) => Mean(cx, cy, s, r, 0.0, 0.0, 0.0)
  }

  function XToBbox(sqrt: real -> real, k: KState): Pred {
    if k.NotFinite? then Nan else FromProduct(sqrt, k, k.s * k.r)
  }

  function FromProduct(sqrt: real -> real, k: KState, p: real): Pred
    requires k.Mean?
  {
    if p < 0.0 then Nan
    else if p == 0.0 then if k.s == 0.0 then Nan else Infinite
    else
      var w := sqrt(p);
      if w == 0.0 then Infinite else Finite(BoxAround(k, w, k.s / w))
  }

  function BoxAround(k: KState, w: real, h: real): Box
    requires k.Mean?
  {
    Box(k.cx - w / 2.0, k.cy - h / 2.0, k.cx + w / 2.0, k.cy + h / 2.0)
  }

  /** The area may not be carried through zero: its velocity is cleared first. */
  function Advance(k: KState): KState {
    match k
    case NotFinite => NotFinite
    case Mean(cx, cy, s, r, vx, vy, vs) =>
      var v := if vs + s <= 0.0 then 0.0 else vs;
      Mean(cx + vx, cy + vy, s + v, r, vx, vy, v)
  }

  function Coast(k: KState, n: nat): KState {
    if n == 0 then k else Advance(Coast(k, n - 1))
  }

  /** The assumed square root. */
  ghost predicate IsSqrt(sqrt: real -> real) {
    forall x: real :: x >= 0.0 ==> sqrt(x) >= 0.0 && sqrt(x) * sqrt(x) == x
  }

  lemma SameSquare(a: real, b: real)
    requires a >= 0.0 && b > 0.0 && a * a == b * b
    ensures a == b
  {
    Sign(b - a, b + a);
    calc {
      (b - a) * (b + a);
      (b - a) * b + (b - a) * a;
      b * b - a * b + b * a - a * a;
      0.0;
    }
  }

  lemma RootsOfArea(w: real, h: real)
    requires w > 0.0 && h > 0.0
    ensures (w * h) * (w / h) == w * w && (w * h) / w == h && w * h > 0.0 && w / h > 0.0
  {
    var q := w / h;
    assert q * h == w;
    assert (w * h) * q == w * (q * h);
    Sign(q, h);
    Sign(w, h);
    assert (w * h) / w == h;
  }

  /** The two conversions undo each other on positive boxes. */
  lemma BoxRoundTrip(sqrt: real -> real, b: Box)
    requires IsSqrt(sqrt) && b.Positive()
    ensures InitialState(b).WellFormed()
    ensures XToBbox(sqrt, InitialState(b)) == Finite(b)
  {
    RootsOfArea(b.Width(), b.Height());
    SameSquare(sqrt(b.Width() * b.Width()), b.Width());
  }

  /** A state yields a positive box exactly when area and ratio are both positive,
      and measuring that box gives the state back. */
  lemma StateRoundTrip(sqrt: real -> real, k: KState)
    requires IsSqrt(sqrt)
    ensures k.WellFormed() <==> XToBbox(sqrt, k).Finite? && XToBbox(sqrt, k).box.Positive()
    ensures k.WellFormed() ==> BboxToZ(XToBbox(sqrt, k).box) == Centred(k.cx, k.cy, k.s, k.r)
  {
    if k.Mean? {
      SignOfProduct(k.s, k.r);
      FromProductRoundTrip(sqrt, k, k.s * k.r);
    }
  }

  lemma FromProductRoundTrip(sqrt: real -> real, k: KState, p: real)
    requires IsSqrt(sqrt) && k.Mean? && p == k.s * k.r
    ensures p > 0.0 && k.s > 0.0 <==> FromProduct(sqrt, k, p).Finite? && FromProduct(sqrt, k, p).box.Positive()
    ensures p > 0.0 && k.s > 0.0 ==> BboxToZ(FromProduct(sqrt, k, p).box) == Centred(k.cx, k.cy, k.s, k.r)
  {
    if p > 0.0 {
      var w := sqrt(p);
      assert w * w == p && w >= 0.0;
      HeightOf(k.s, k.r, w);
      MeasureBoxAround(k, w, k.s / w);
    }
  }

  lemma SignOfProduct(s: real, r: real)
    ensures s > 0.0 && r > 0.0 ==> s * r > 0.0
    ensures s * r > 0.0 && s > 0.0 ==> r > 0.0
  {
    if s > 0.0 {
      Sign(r, s);
    }
  }

  lemma MeasureBoxAround(k: KState, w: real, h: real)
    requires k.Mean? && w > 0.0 && h != 0.0
    ensures BoxAround(k, w, h).Positive() <==> h > 0.0
    ensures BboxToZ(BoxAround(k, w, h)) == Centred(k.cx, k.cy, w * h, w / h)
  {
    var b := BoxAround(k, w, h);
    assert b.Width() == w && b.Height() == h;
    assert b.Width() * b.Height() == w * h;
    assert b.Width() / b.Height() == w / h;
  }

  lemma HeightOf(s: real, r: real, w: real)
    requires s * r > 0.0 && w >= 0.0 && w * w == s * r
    ensures w > 0.0 && w * (s / w) == s
    ensures s > 0.0 <==> s / w > 0.0
    ensures s / w != 0.0 && w / (s / w) == r
  {
    assert w != 0.0;
    var h := s / w;
    assert h * w == s;
    Sign(h, w);
    assert s != 0.0;
    assert w * (h * r) == s * r == w * w;
    Sign(h * r - w, w);
    assert (h * r - w) * w == 0.0;
    assert r * h == w;
  }

  /** Every coasted box of a track is well formed exactly when its ratio is positive and its area is
      positive now or becomes so in one step. */
  lemma {:induction false} CoastingStaysWellFormed(sqrt: real -> real, k: KState, n: nat)
    requires IsSqrt(sqrt) && k.Mean? && n > 0
    ensures XToBbox(sqrt, Coast(k, n)).Finite? && XToBbox(sqrt, Coast(k, n)).box.Positive()
            <==> k.r > 0.0 && (k.s > 0.0 || k.s + k.vs > 0.0)
  {
    CoastState(k, n);
    StateRoundTrip(sqrt, Coast(k, n));
  }

  lemma {:induction false} CoastState(k: KState, n: nat)
    requires k.Mean? && n > 0
    ensures Coast(k, n).Mean? && Coast(k, n).r == k.r
    ensures Coast(k, n).s > 0.0 <==> k.s > 0.0 || k.s + k.vs > 0.0
    ensures Coast(k, n).s <= 0.0 ==> Coast(k, n).vs == 0.0
  {
    if n == 1 {
      assert Coast(k, 1) == Advance(Coast(k, 0));
    } else {
      CoastState(k, n - 1);
    }
  }
}
