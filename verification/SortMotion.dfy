/** Where tracks are predicted, and what a matched detection does to them. */
module SortMotion {
  import opened Common
  import opened BoxGeometry
  import opened Assignment
  import opened Association
  import opened SortSpec

  /** The box lies at a centre and has an area and a ratio of width to height. */
  predicate Lies(p: Pred, cx: real, cy: real, area: real, ratio: real) {
    && p.Finite? && p.box.Positive()
    && (p.box.x1 + p.box.x2) / 2.0 == cx && (p.box.y1 + p.box.y2) / 2.0 == cy
    && (p.box.x2 - p.box.x1) * (p.box.y2 - p.box.y1) == area
    && (p.box.x2 - p.box.x1) / (p.box.y2 - p.box.y1) == ratio
  }

  lemma BoxLies(sqrt: real -> real, k: KState)
    requires IsSqrt(sqrt) && k.WellFormed()
    ensures Lies(XToBbox(sqrt, k), k.cx, k.cy, k.s, k.r)
  {
    hide XToBbox;
    StateRoundTrip(sqrt, k);
    var b := XToBbox(sqrt, k).box;
    assert b.x1 + b.Width() / 2.0 == (b.x1 + b.x2) / 2.0;
    assert b.y1 + b.Height() / 2.0 == (b.y1 + b.y2) / 2.0;
  }

  /** The box that a prediction appends: moved by the velocity of the centre, with the area changed by its velocity as
      long as that leaves an area, and the ratio kept. */
  lemma PredictedBox(c: Config, t: Track)
    requires IsSqrt(c.sqrt) && t.x.WellFormed()
    ensures Lies(LastBox(PredictTrack(c, t)), t.x.cx + t.x.vx, t.x.cy + t.x.vy,
                 if t.x.s + t.x.vs > 0.0 then t.x.s + t.x.vs else t.x.s, t.x.r)
  {
    hide XToBbox, Lies;
    BoxLies(c.sqrt, Advance(t.x));
  }

  /** A track after `n` predictions without a match. */
  function Missed(c: Config, t: Track, n: nat): Track {
    if n == 0 then t else PredictTrack(c, Missed(c, t, n - 1))
  }

  /** Steps of a constant velocity. */
  function Moved(x: real, v: real, n: nat): real {
    if n == 0 then x else Moved(x, v, n - 1) + v
  }

  function Linear(x: real, v: real, n: nat): real { x + n as real * v }

  lemma {:induction false} MovedIsLinear(x: real, v: real, n: nat)
    ensures Moved(x, v, n) == Linear(x, v, n)
  {
    if n > 0 {
      hide Linear;
      MovedIsLinear(x, v, n - 1);
      OneMoreStep(x, v, n - 1);
    } else {
      assert Moved(x, v, 0) == x;
    }
  }

  lemma OneMoreStep(x: real, v: real, n: nat)
    ensures Linear(x, v, n + 1) == Linear(x, v, n) + v
  {
    Distribute(n as real, v);
    assert (n + 1) as real == n as real + 1.0;
  }

  lemma Distribute(a: real, v: real)
    ensures (a + 1.0) * v == a * v + v
  {
  }

  /** The area follows its velocity for `m` steps, as far as that leaves an area, and then stays. */
  predicate GrewFor(s: real, vs: real, n: nat, m: nat) {
    m <= n && Moved(s, vs, m) > 0.0 && (m < n ==> Moved(s, vs, m) + vs <= 0.0)
  }

  lemma {:induction false} StateAfterMisses(c: Config, t: Track, n: nat) returns (m: nat)
    requires t.x.WellFormed()
    ensures GrewFor(t.x.s, t.x.vs, n, m)
    ensures Missed(c, t, n).x == Mean(Moved(t.x.cx, t.x.vx, n), Moved(t.x.cy, t.x.vy, n), Moved(t.x.s, t.x.vs, m),
                                      t.x.r, t.x.vx, t.x.vy, if m == n then t.x.vs else 0.0)
  {
    hide XToBbox;
    if n == 0 {
      m := 0;
    } else {
      m := StateAfterMisses(c, t, n - 1);
      if m == n - 1 && Moved(t.x.s, t.x.vs, m) + t.x.vs > 0.0 {
        m := n;
      }
    }
  }

  /** The box after `n` misses in a row, in closed form: the centre has moved `n` times, the area changed `m` times. */
  lemma BoxAfterMisses(c: Config, t: Track, n: nat) returns (m: nat)
    requires IsSqrt(c.sqrt) && t.x.WellFormed() && n > 0
    ensures m <= n && Linear(t.x.s, t.x.vs, m) > 0.0
    ensures m < n ==> Linear(t.x.s, t.x.vs, m) + t.x.vs <= 0.0
    ensures Lies(LastBox(Missed(c, t, n)), Linear(t.x.cx, t.x.vx, n), Linear(t.x.cy, t.x.vy, n),
                 Linear(t.x.s, t.x.vs, m), t.x.r)
  {
    hide XToBbox, Lies, LastBox, Moved, PredictTrack, Linear;
    m := StateAfterMisses(c, t, n);
    ShowsItself(c, Missed(c, t, n - 1));
    BoxLies(c.sqrt, Missed(c, t, n).x);
    MovedIsLinear(t.x.cx, t.x.vx, n);
    MovedIsLinear(t.x.cy, t.x.vy, n);
    MovedIsLinear(t.x.s, t.x.vs, m);
  }

  lemma ShowsItself(c: Config, t: Track)
    ensures LastBox(PredictTrack(c, t)) == XToBbox(c.sqrt, PredictTrack(c, t).x)
  {
    hide XToBbox;
  }

  /** A new tracker is at rest: it shows its detection, and predicts it again. */
  lemma NewTrackStays(c: Config, id: nat, b: Box, n: nat)
    requires IsSqrt(c.sqrt) && b.Positive()
    ensures XToBbox(c.sqrt, NewTrack(id, b).x) == Finite(b)
    ensures n > 0 ==> LastBox(Missed(c, NewTrack(id, b), n)) == Finite(b)
  {
    hide XToBbox;
    BoxRoundTrip(c.sqrt, b);
    var t := NewTrack(id, b);
    var m := StateAfterMisses(c, t, n);
    MovedIsLinear(t.x.cx, 0.0, n);
    MovedIsLinear(t.x.cy, 0.0, n);
    MovedIsLinear(t.x.s, 0.0, m);
    assert n as real * 0.0 == 0.0 && m as real * 0.0 == 0.0;
    assert Missed(c, t, n).x == t.x;
  }

  // ----- matched and new trackers in the result of a frame -----

  lemma {:induction false} StaysListed(c: Config, ts: seq<Track>, t: Track)
    requires t in ts && t.missed <= c.maxAge
    ensures t in Survivors(c, ts)
  {
    var front, last := ts[..|ts| - 1], ts[|ts| - 1];
    assert ts == front + [last];
    if t in front {
      StaysListed(c, front, t);
    }
  }

  lemma {:induction false} Untouched(c: Config, ts: seq<Track>, dets: seq<Box>, ps: seq<Pair>, j: nat)
    requires MatchesFit(ps, dets, ts) && j < |ts| && forall k :: 0 <= k < |ps| ==> ps[k].col != j
    ensures ApplyMatches(c, ts, dets, ps)[j] == ts[j]
  {
    if ps != [] {
      hide HitTrack;
      Untouched(c, ts, dets, ps[..|ps| - 1], j);
    }
  }

  lemma {:induction false} HitOnce(c: Config, ts: seq<Track>, dets: seq<Box>, ps: seq<Pair>, k: nat)
    requires MatchesFit(ps, dets, ts) && IsMatching(ps) && k < |ps|
    ensures ApplyMatches(c, ts, dets, ps)[ps[k].col] == HitTrack(c, ts[ps[k].col], dets[ps[k].row])
  {
    hide HitTrack;
    var front, p := ps[..|ps| - 1], ps[|ps| - 1];
    if k < |front| {
      HitOnce(c, ts, dets, front, k);
      assert front[k] == ps[k] && ps[k].col != p.col;
    } else {
      Untouched(c, ts, dets, front, p.col);
    }
  }

  /** The tracker after its match: its counters moved on, its state measured once from the one it had. */
  predicate MeasuredBy(c: Config, was: Track, det: Box, now: Track) {
    && now.id == was.id && now.age == was.age && now.hits == was.hits + 1 && now.missed == 0
    && now.x == c.measure(was.id, was.age, was.x, det)
  }

  predicate AtRest(now: Track, id: nat, det: Box) {
    now.id == id && now.age == 0 && now.hits == 0 && now.missed == 0 && now.x == InitialState(det)
  }

  /** After a call that does not raise, every matched tracker is listed, measured once from its predicted state by its
      own detection, and every new detection has a tracker at rest at it, with the next free id. */
  lemma FrameMeasures(c: Config, s: State, dets: seq<Box>)
    requires IsSolver(c.solve) && FrameMatch(c, s, dets).Some? && c.maxAge >= 0
    ensures var m, kept := FrameMatch(c, s, dets).value, Alive(Predictions(c, s.tracks));
            && (forall k :: 0 <= k < |m.matches| ==>
                  && m.matches[k].col < |kept| && m.matches[k].row < |dets|
                  && exists t :: t in Frame(c, s, dets).0.tracks
                       && MeasuredBy(c, kept[m.matches[k].col], dets[m.matches[k].row], t))
            && (forall k :: 0 <= k < |m.newDets| ==>
                  && m.newDets[k] < |dets|
                  && exists t :: t in Frame(c, s, dets).0.tracks && AtRest(t, s.nextId + k, dets[m.newDets[k]]))
  {
    hide Associate, Predictions, Alive, CompressRows, Survivors, ApplyMatches, InitialState;
    FrameMatchFits(c, s, dets);
    var m, kept := FrameMatch(c, s, dets).value, Alive(Predictions(c, s.tracks));
    var hit, all := ApplyMatches(c, kept, dets, m.matches), Updated(c, s, dets);
    forall k | 0 <= k < |m.matches|
      ensures exists t :: t in Frame(c, s, dets).0.tracks
                && MeasuredBy(c, kept[m.matches[k].col], dets[m.matches[k].row], t)
    {
      HitOnce(c, kept, dets, m.matches, k);
      var t := all[m.matches[k].col];
      assert t == hit[m.matches[k].col];
      StaysListed(c, all, t);
      assert t in Frame(c, s, dets).0.tracks && MeasuredBy(c, kept[m.matches[k].col], dets[m.matches[k].row], t);
    }
    forall k | 0 <= k < |m.newDets|
      ensures exists t :: t in Frame(c, s, dets).0.tracks && AtRest(t, s.nextId + k, dets[m.newDets[k]])
    {
      var t := all[|hit| + k];
      assert t == NewTrack(s.nextId + k, dets[m.newDets[k]]);
      StaysListed(c, all, t);
      assert t in Frame(c, s, dets).0.tracks && AtRest(t, s.nextId + k, dets[m.newDets[k]]);
    }
  }
}
