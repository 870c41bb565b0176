/** One frame of the SORT tracker as a function on values, and the histories it leaves behind. */
module SortSpec {
  import opened Common
  import opened BoxGeometry
  import opened Assignment
  import opened Association

  /** A tracker's fields. `missed` is the time since the last update, `boxes` the predictions since then. */
  datatype Track = Track(id: nat, missed: int, hits: int, streak: int, age: nat, boxes: seq<Pred>, x: KState)

  /** Parameters and foreign numeric code. `measure` stands for the filter's measurement update; it may
      depend on anything, since the id and age of a tracker never repeat. */
  datatype Config = Config(
    maxAge: int,
    minHits: int,
    iouThreshold: real,
    sqrt: real -> real,
    solve: Matrix -> seq<Pair>,
    measure: (nat, nat, KState, Box) -> KState)

  datatype State = State(tracks: seq<Track>, frameCount: int, nextId: nat)

  datatype Row = Row(box: Pred, tag: int)

  /** What a frame returns: rows, or the exception of a solver that refused its matrix. */
  datatype Outcome = Reported(rows: seq<Row>) | Raised

  function PredictTrack(c: Config, t: Track): Track {
    var x := Advance(t.x);
    t.(x := x,
       age := t.age + 1,
       streak := if t.missed > 0 then 0 else t.streak,
       missed := t.missed + 1,
       boxes := t.boxes + [XToBbox(c.sqrt, x)])
  }

  function HitTrack(c: Config, t: Track, det: Box): Track {
    t.(missed := 0, boxes := [], hits := t.hits + 1, streak := t.streak + 1, x := c.measure(t.id, t.age, t.x, det))
  }

  function NewTrack(id: nat, det: Box): Track {
    Track(id, 0, 0, 0, 0, [], InitialState(det))
  }

  function Predictions(c: Config, tracks: seq<Track>): (r: seq<Track>)
    ensures |r| == |tracks| && forall i :: 0 <= i < |tracks| ==> r[i] == PredictTrack(c, tracks[i])
  {
    if tracks == [] then []
    else Predictions(c, tracks[..|tracks| - 1]) + [PredictTrack(c, tracks[|tracks| - 1])]
  }

  function LastBox(t: Track): Pred { if t.boxes == [] then Nan else t.boxes[|t.boxes| - 1] }

  /** The trackers whose prediction is a number. */
  function Alive(ts: seq<Track>): seq<Track> {
    if ts == [] then []
    else
      var rest, t := Alive(ts[..|ts| - 1]), ts[|ts| - 1];
      if LastBox(t).Nan? then rest else rest + [t]
  }

  /** The rows left after masking everything that is not finite. */
  function CompressRows(ts: seq<Track>): seq<Box> {
    if ts == [] then []
    else
      var rest, b := CompressRows(ts[..|ts| - 1]), LastBox(ts[|ts| - 1]);
      if b.Finite? then rest + [b.box] else rest
  }

  lemma {:induction false} RowsFitTrackers(ts: seq<Track>)
    ensures |CompressRows(ts)| <= |Alive(ts)| <= |ts|
  {
    if ts != [] {
      RowsFitTrackers(ts[..|ts| - 1]);
    }
  }

  predicate MatchesFit(ps: seq<Pair>, dets: seq<Box>, ts: seq<Track>) {
    forall i :: 0 <= i < |ps| ==> ps[i].row < |dets| && ps[i].col < |ts|
  }

  function ApplyMatches(c: Config, ts: seq<Track>, dets: seq<Box>, ps: seq<Pair>): (r: seq<Track>)
    requires MatchesFit(ps, dets, ts)
    ensures |r| == |ts|
  {
    if ps == [] then ts
    else
      var p := ps[|ps| - 1];
      var rest := ApplyMatches(c, ts, dets, ps[..|ps| - 1]);
      rest[p.col := HitTrack(c, rest[p.col], dets[p.row])]
  }

  function Newborns(id: nat, dets: seq<Box>, unmatched: seq<nat>): (r: seq<Track>)
    requires forall i :: 0 <= i < |unmatched| ==> unmatched[i] < |dets|
    ensures |r| == |unmatched|
    ensures forall k :: 0 <= k < |r| ==> r[k] == NewTrack(id + k, dets[unmatched[k]])
  {
    if unmatched == [] then []
    else
      Newborns(id, dets, unmatched[..|unmatched| - 1])
      + [NewTrack(id + |unmatched| - 1, dets[unmatched[|unmatched| - 1]])]
  }

  predicate Shown(c: Config, frameCount: int, t: Track) {
    t.missed < 1 && (t.streak >= c.minHits || frameCount <= c.minHits)
  }

  /** The reported rows, newest tracker first. */
  function Report(c: Config, frameCount: int, ts: seq<Track>): seq<Row> {
    if ts == [] then []
    else
      var rest, t := Report(c, frameCount, ts[..|ts| - 1]), ts[|ts| - 1];
      if Shown(c, frameCount, t) then [Row(XToBbox(c.sqrt, t.x), t.id + 1)] + rest else rest
  }

  function Survivors(c: Config, ts: seq<Track>): seq<Track> {
    if ts == [] then []
    else
      var rest, t := Survivors(c, ts[..|ts| - 1]), ts[|ts| - 1];
      if t.missed > c.maxAge then rest else rest + [t]
  }

  /** How the detections of this frame are matched with the predicted trackers. */
  function FrameMatch(c: Config, s: State, dets: seq<Box>): Option<Match>
    requires IsSolver(c.solve)
  {
    Associate(dets, CompressRows(Predictions(c, s.tracks)), c.iouThreshold, c.solve)
  }

  lemma FrameMatchFits(c: Config, s: State, dets: seq<Box>)
    requires IsSolver(c.solve) && FrameMatch(c, s, dets).Some?
    ensures var m := FrameMatch(c, s, dets).value;
            var kept := Alive(Predictions(c, s.tracks));
            && MatchesFit(m.matches, dets, kept) && IsMatching(m.matches)
            && (forall i :: 0 <= i < |m.newDets| ==> m.newDets[i] < |dets|)
            && |m.matches| + |m.newDets| == |dets|
  {
    AssociationBounds(dets, CompressRows(Predictions(c, s.tracks)), c.iouThreshold, c.solve);
    RowsFitTrackers(Predictions(c, s.tracks));
  }

  /** The trackers after updates and births, before pruning. */
  function Updated(c: Config, s: State, dets: seq<Box>): seq<Track>
    requires IsSolver(c.solve) && FrameMatch(c, s, dets).Some?
  {
    var m := FrameMatch(c, s, dets).value;
    FrameMatchFits(c, s, dets);
    ApplyMatches(c, Alive(Predictions(c, s.tracks)), dets, m.matches) + Newborns(s.nextId, dets, m.newDets)
  }

  /** One call of `Sort.update`. */
  function Frame(c: Config, s: State, dets: seq<Box>): (State, Outcome)
    requires IsSolver(c.solve)
  {
    match FrameMatch(c, s, dets)
    case None => (State(Alive(Predictions(c, s.tracks)), s.frameCount + 1, s.nextId), Raised)
    case Some(m) =>
      var all := Updated(c, s, dets);
      (State(Survivors(c, all), s.frameCount + 1, s.nextId + |m.newDets|), Reported(Report(c, s.frameCount + 1, all)))
  }

  /** The stages of a frame, side by side. */
  lemma FrameParts(c: Config, s: State, dets: seq<Box>)
    requires IsSolver(c.solve)
    ensures var predicted := Predictions(c, s.tracks);
            var m := Associate(dets, CompressRows(predicted), c.iouThreshold, c.solve);
            && (m.None? ==> Frame(c, s, dets) == (State(Alive(predicted), s.frameCount + 1, s.nextId), Raised))
            && (m.Some? ==>
                  && MatchesFit(m.value.matches, dets, Alive(predicted))
                  && (forall i :: 0 <= i < |m.value.newDets| ==> m.value.newDets[i] < |dets|)
                  && var all := ApplyMatches(c, Alive(predicted), dets, m.value.matches)
                                + Newborns(s.nextId, dets, m.value.newDets);
                     Frame(c, s, dets) ==
                       (State(Survivors(c, all), s.frameCount + 1, s.nextId + |m.value.newDets|),
                        Reported(Report(c, s.frameCount + 1, all))))
  {
    hide Associate, Predictions, CompressRows, Alive, ApplyMatches, Newborns, Survivors, Report;
    if FrameMatch(c, s, dets).Some? {
      FrameMatchFits(c, s, dets);
    }
  }
}
