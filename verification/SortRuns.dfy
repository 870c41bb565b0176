/** What holds of the tracker list over whole runs.

    A run is a sequence of calls of `Sort.update`. Other trackers in the process share the id counter, so
    each call is preceded by any number of foreign births. */
module SortRuns {
  import opened BoxGeometry
  import opened Assignment
  import opened Association
  import opened SortSpec

  datatype Input = Input(dets: seq<Box>, foreign: nat)

  /** What an observer of one call notes: which trackers were updated, and the range of new ids. */
  datatype Log = Log(matched: set<nat>, firstNew: nat, endNew: nat)

  function Enter(s: State, i: Input): State {
    s.(nextId := s.nextId + i.foreign)
  }

  function Run(c: Config, inputs: seq<Input>): State
    requires IsSolver(c.solve)
  {
    if inputs == [] then State([], 0, 0)
    else
      var i := inputs[|inputs| - 1];
      Frame(c, Enter(Run(c, inputs[..|inputs| - 1]), i), i.dets).0
  }

  function MatchedIds(ts: seq<Track>, ps: seq<Pair>): set<nat>
    requires forall k :: 0 <= k < |ps| ==> ps[k].col < |ts|
  {
    set k | 0 <= k < |ps| :: ts[ps[k].col].id
  }

  function LogOf(c: Config, s: State, dets: seq<Box>): Log
    requires IsSolver(c.solve)
  {
    match FrameMatch(c, s, dets)
    case None => Log({}, s.nextId, s.nextId)
    case Some(m) =>
      FrameMatchFits(c, s, dets);
      Log(MatchedIds(Alive(Predictions(c, s.tracks)), m.matches), s.nextId, s.nextId + |m.newDets|)
  }

  function Logs(c: Config, inputs: seq<Input>): (r: seq<Log>)
    requires IsSolver(c.solve)
    ensures |r| == |inputs|
  {
    if inputs == [] then []
    else
      var i := inputs[|inputs| - 1];
      Logs(c, inputs[..|inputs| - 1]) + [LogOf(c, Enter(Run(c, inputs[..|inputs| - 1]), i), i.dets)]
  }

  /** Hit or miss in each call after the one that created the tracker. */
  function MatchHistory(logs: seq<Log>, id: nat): seq<bool> {
    if logs == [] then []
    else
      var last := logs[|logs| - 1];
      if last.firstNew <= id < last.endNew then []
      else MatchHistory(logs[..|logs| - 1], id) + [id in last.matched]
  }

  predicate Born(logs: seq<Log>, id: nat) {
    exists k :: 0 <= k < |logs| && logs[k].firstNew <= id < logs[k].endNew
  }

  // ----- reading a history -----

  function Hits(h: seq<bool>): nat {
    if h == [] then 0 else Hits(h[..|h| - 1]) + if h[|h| - 1] then 1 else 0
  }

  function TrailingMisses(h: seq<bool>): nat {
    if h == [] || h[|h| - 1] then 0 else TrailingMisses(h[..|h| - 1]) + 1
  }

  function TrailingHits(h: seq<bool>): nat {
    if h == [] || !h[|h| - 1] then 0 else TrailingHits(h[..|h| - 1]) + 1
  }

  /** Length of the latest unbroken run of hits, skipping the trailing misses. */
  function LatestRun(h: seq<bool>): nat {
    if h == [] then 0 else if h[|h| - 1] then TrailingHits(h) else LatestRun(h[..|h| - 1])
  }

  /** A tracker's counters are those that its history dictates. */
  predicate Explains(t: Track, h: seq<bool>) {
    && t.age == |h|
    && t.hits == Hits(h)
    && t.missed == TrailingMisses(h) == |t.boxes|
    && t.streak == if TrailingMisses(h) <= 1 then LatestRun(h) else 0
  }

  lemma RunAfter(h: seq<bool>, hit: bool)
    ensures var next := h + [hit];
            && next[..|h|] == h
            && Hits(next) == Hits(h) + (if hit then 1 else 0)
            && TrailingMisses(next) == (if hit then 0 else TrailingMisses(h) + 1)
            && LatestRun(next) ==
                 (if !hit then LatestRun(h) else if TrailingMisses(h) == 0 then LatestRun(h) + 1 else 1)
  {
    assert (h + [hit])[..|h|] == h;
    assert TrailingMisses(h) > 0 ==> TrailingHits(h) == 0;
    assert TrailingMisses(h) == 0 ==> LatestRun(h) == TrailingHits(h);
  }

  lemma ExplainsStep(c: Config, t: Track, h: seq<bool>, det: Box)
    requires Explains(t, h)
    ensures Explains(PredictTrack(c, t), h + [false])
    ensures Explains(HitTrack(c, PredictTrack(c, t), det), h + [true])
  {
    hide XToBbox, Advance;
    RunAfter(h, false);
    RunAfter(h, true);
  }

  // ----- ids -----

  /** Ids ascend along the list and lie below the counter. */
  predicate IdsAscend(ts: seq<Track>, bound: nat) {
    && (forall i, j :: 0 <= i < j < |ts| ==> ts[i].id < ts[j].id)
    && forall i :: 0 <= i < |ts| ==> ts[i].id < bound
  }

  lemma AliveMembers(ts: seq<Track>, bound: nat)
    requires IdsAscend(ts, bound)
    ensures IdsAscend(Alive(ts), bound)
    ensures forall t :: t in Alive(ts) <==> t in ts && !LastBox(t).Nan?
  {
    hide LastBox, Alive;
    AliveIds(ts, bound);
    forall t: Track
      ensures t in Alive(ts) <==> t in ts && !LastBox(t).Nan?
    {
      AliveIn(ts, t);
    }
  }

  lemma {:induction false} AliveIds(ts: seq<Track>, bound: nat)
    requires IdsAscend(ts, bound)
    ensures IdsAscend(Alive(ts), bound)
  {
    hide LastBox;
    if ts != [] {
      AliveIds(ts[..|ts| - 1], ts[|ts| - 1].id);
    }
  }

  lemma {:induction false} AliveIn(ts: seq<Track>, t: Track)
    ensures t in Alive(ts) <==> t in ts && !LastBox(t).Nan?
  {
    hide LastBox;
    if ts != [] {
      AliveIn(ts[..|ts| - 1], t);
      assert ts == ts[..|ts| - 1] + [ts[|ts| - 1]];
    }
  }

  lemma {:induction false} SurvivorMembers(c: Config, ts: seq<Track>, bound: nat)
    requires IdsAscend(ts, bound)
    ensures IdsAscend(Survivors(c, ts), bound)
    ensures forall t :: t in Survivors(c, ts) <==> t in ts && t.missed <= c.maxAge
  {
    if ts != [] {
      SurvivorMembers(c, ts[..|ts| - 1], bound);
      var rest := Survivors(c, ts[..|ts| - 1]);
      assert forall i :: 0 <= i < |rest| ==> rest[i] in rest;
    }
  }

  lemma {:induction false} ApplyMatchesAt(c: Config, ts: seq<Track>, dets: seq<Box>, ps: seq<Pair>, j: nat)
    requires MatchesFit(ps, dets, ts) && IsMatching(ps) && j < |ts|
    ensures var r := ApplyMatches(c, ts, dets, ps)[j];
            && (forall k :: 0 <= k < |ps| && ps[k].col == j ==> r == HitTrack(c, ts[j], dets[ps[k].row]))
            && ((forall k :: 0 <= k < |ps| ==> ps[k].col != j) ==> r == ts[j])
  {
    hide HitTrack;
    if ps != [] {
      ApplyMatchesAt(c, ts, dets, ps[..|ps| - 1], j);
    }
  }

  lemma {:induction false} IdsAfterMatches(c: Config, ts: seq<Track>, dets: seq<Box>, ps: seq<Pair>, bound: nat)
    requires MatchesFit(ps, dets, ts) && IdsAscend(ts, bound)
    ensures IdsAscend(ApplyMatches(c, ts, dets, ps), bound)
    ensures forall j :: 0 <= j < |ts| ==> ApplyMatches(c, ts, dets, ps)[j].id == ts[j].id
  {
    if ps != [] {
      IdsAfterMatches(c, ts, dets, ps[..|ps| - 1], bound);
    }
  }

  // ----- histories explain counters -----

  predicate Explained(ts: seq<Track>, logs: seq<Log>) {
    forall t :: t in ts ==> Born(logs, t.id) && Explains(t, MatchHistory(logs, t.id))
  }

  ghost predicate Inv(s: State, logs: seq<Log>) {
    IdsAscend(s.tracks, s.nextId) && Explained(s.tracks, logs)
  }

  lemma LogStep(logs: seq<Log>, log: Log, id: nat)
    ensures Born(logs, id) ==> Born(logs + [log], id)
    ensures log.firstNew <= id < log.endNew ==> Born(logs + [log], id) && MatchHistory(logs + [log], id) == []
    ensures !(log.firstNew <= id < log.endNew) ==>
              MatchHistory(logs + [log], id) == MatchHistory(logs, id) + [id in log.matched]
  {
    var all := logs + [log];
    assert all[..|logs|] == logs && all[|logs|] == log;
    if Born(logs, id) {
      var k :| 0 <= k < |logs| && logs[k].firstNew <= id < logs[k].endNew;
      assert all[k] == logs[k];
    }
  }

  lemma PredictedIds(c: Config, ts: seq<Track>, bound: nat)
    requires IdsAscend(ts, bound)
    ensures IdsAscend(Predictions(c, ts), bound)
  {
    hide XToBbox, Advance;
  }

  /** A tracker kept after prediction comes from one tracker of the old list. */
  lemma KeptComesFrom(c: Config, s: State, j: nat) returns (t: Track)
    requires IdsAscend(s.tracks, s.nextId) && j < |Alive(Predictions(c, s.tracks))|
    ensures t in s.tracks && Alive(Predictions(c, s.tracks))[j] == PredictTrack(c, t)
    ensures !LastBox(PredictTrack(c, t)).Nan?
  {
    hide XToBbox, Advance;
    PredictedIds(c, s.tracks, s.nextId);
    AliveMembers(Predictions(c, s.tracks), s.nextId);
    var kept := Alive(Predictions(c, s.tracks))[j];
    assert kept in Alive(Predictions(c, s.tracks));
    var i :| 0 <= i < |s.tracks| && Predictions(c, s.tracks)[i] == kept;
    t := s.tracks[i];
  }

  /** The log names exactly the trackers that a match points at. */
  lemma MatchedIff(ts: seq<Track>, ps: seq<Pair>, j: nat, bound: nat)
    requires IdsAscend(ts, bound) && j < |ts| && forall k :: 0 <= k < |ps| ==> ps[k].col < |ts|
    ensures ts[j].id in MatchedIds(ts, ps) <==> exists k :: 0 <= k < |ps| && ps[k].col == j
  {
    if ts[j].id in MatchedIds(ts, ps) {
      var k :| 0 <= k < |ps| && ts[ps[k].col].id == ts[j].id;
      assert ps[k].col == j;
    }
  }

  /** What becomes of the tracker at position `j` after prediction: hit or missed, as the log says. */
  lemma KeptOutcome(c: Config, s: State, dets: seq<Box>, j: nat) returns (o: Track, det: Box)
    requires IsSolver(c.solve) && IdsAscend(s.tracks, s.nextId) && FrameMatch(c, s, dets).Some?
    requires j < |Alive(Predictions(c, s.tracks))|
    ensures o in s.tracks && !LastBox(PredictTrack(c, o)).Nan? && j < |Updated(c, s, dets)|
    ensures Alive(Predictions(c, s.tracks))[j] == PredictTrack(c, o)
    ensures Updated(c, s, dets)[j] ==
            if o.id in LogOf(c, s, dets).matched then HitTrack(c, PredictTrack(c, o), det) else PredictTrack(c, o)
  {
    hide XToBbox, Advance, Associate, Predictions, HitTrack, Alive, ApplyMatches;
    FrameMatchFits(c, s, dets);
    var m, kept := FrameMatch(c, s, dets).value, Alive(Predictions(c, s.tracks));
    o := KeptComesFrom(c, s, j);
    det := Box(0.0, 0.0, 0.0, 0.0);
    ApplyMatchesAt(c, kept, dets, m.matches, j);
    PredictedIds(c, s.tracks, s.nextId);
    AliveMembers(Predictions(c, s.tracks), s.nextId);
    MatchedIff(kept, m.matches, j, s.nextId);
    if o.id in LogOf(c, s, dets).matched {
      var k :| 0 <= k < |m.matches| && m.matches[k].col == j;
      det := dets[m.matches[k].row];
    }
  }

  lemma OutcomeExplained(c: Config, s: State, logs: seq<Log>, o: Track, t: Track, det: Box, log: Log)
    requires Inv(s, logs) && o in s.tracks && log.firstNew >= s.nextId
    requires t == if o.id in log.matched then HitTrack(c, PredictTrack(c, o), det) else PredictTrack(c, o)
    ensures t.id == o.id && Born(logs + [log], t.id) && Explains(t, MatchHistory(logs + [log], t.id))
    ensures t.missed == 0 <==> t.id in log.matched
  {
    hide XToBbox, Advance;
    LogStep(logs, log, o.id);
    ExplainsStep(c, o, MatchHistory(logs, o.id), det);
  }

  /** Histories explain every tracker between update and pruning, and ids still ascend. */
  lemma UpdatedExplained(c: Config, s: State, logs: seq<Log>, dets: seq<Box>)
    requires IsSolver(c.solve) && Inv(s, logs) && FrameMatch(c, s, dets).Some?
    ensures IdsAscend(Updated(c, s, dets), s.nextId + |FrameMatch(c, s, dets).value.newDets|)
    ensures Explained(Updated(c, s, dets), logs + [LogOf(c, s, dets)])
  {
    hide XToBbox, Advance, Associate, Predictions, PredictTrack, HitTrack, Alive, ApplyMatches;
    hide Explains, MatchHistory, Born, InitialState;
    FrameMatchFits(c, s, dets);
    var m, kept, log := FrameMatch(c, s, dets).value, Alive(Predictions(c, s.tracks)), LogOf(c, s, dets);
    PredictedIds(c, s.tracks, s.nextId);
    AliveMembers(Predictions(c, s.tracks), s.nextId);
    IdsAfterMatches(c, kept, dets, m.matches, s.nextId);
    var all := Updated(c, s, dets);
    forall t | t in all
      ensures Born(logs + [log], t.id) && Explains(t, MatchHistory(logs + [log], t.id))
    {
      var j :| 0 <= j < |all| && all[j] == t;
      UpdatedAtExplained(c, s, logs, dets, j);
    }
  }

  lemma UpdatedAtExplained(c: Config, s: State, logs: seq<Log>, dets: seq<Box>, j: nat)
    requires IsSolver(c.solve) && Inv(s, logs) && FrameMatch(c, s, dets).Some? && j < |Updated(c, s, dets)|
    ensures var all, t := logs + [LogOf(c, s, dets)], Updated(c, s, dets)[j];
            Born(all, t.id) && Explains(t, MatchHistory(all, t.id))
  {
    hide XToBbox, Advance, Associate, Predictions, PredictTrack, HitTrack, Alive, ApplyMatches;
    hide Explains, MatchHistory, Born, InitialState;
    FrameMatchFits(c, s, dets);
    var m, kept, log := FrameMatch(c, s, dets).value, |Alive(Predictions(c, s.tracks))|, LogOf(c, s, dets);
    var t := Updated(c, s, dets)[j];
    if j < kept {
      var o, det := KeptOutcome(c, s, dets, j);
      OutcomeExplained(c, s, logs, o, t, det, log);
    } else {
      LogStep(logs, log, t.id);
      NewTrackExplained(t.id, dets[m.newDets[j - kept]]);
    }
  }

  lemma NewTrackExplained(id: nat, det: Box)
    ensures Explains(NewTrack(id, det), [])
  {
  }

  /** When the solver raises, the predicted trackers stay and everyone has missed. */
  lemma RaisedExplained(c: Config, s: State, logs: seq<Log>, dets: seq<Box>)
    requires IsSolver(c.solve) && Inv(s, logs) && FrameMatch(c, s, dets).None?
    ensures Inv(Frame(c, s, dets).0, logs + [LogOf(c, s, dets)])
  {
    hide XToBbox, Advance, Associate, Predictions, PredictTrack, Alive, Explains, MatchHistory, Born;
    var kept, log := Alive(Predictions(c, s.tracks)), LogOf(c, s, dets);
    PredictedIds(c, s.tracks, s.nextId);
    AliveMembers(Predictions(c, s.tracks), s.nextId);
    forall t | t in kept
      ensures Born(logs + [log], t.id) && Explains(t, MatchHistory(logs + [log], t.id))
    {
      var j :| 0 <= j < |kept| && kept[j] == t;
      var o := KeptComesFrom(c, s, j);
      OutcomeExplained(c, s, logs, o, t, Box(0.0, 0.0, 0.0, 0.0), log);
    }
  }

  lemma FrameKeepsInv(c: Config, s: State, logs: seq<Log>, dets: seq<Box>)
    requires IsSolver(c.solve) && Inv(s, logs)
    ensures Inv(Frame(c, s, dets).0, logs + [LogOf(c, s, dets)])
  {
    hide Associate, Explained, IdsAscend;
    if FrameMatch(c, s, dets).None? {
      RaisedExplained(c, s, logs, dets);
    } else {
      UpdatedExplained(c, s, logs, dets);
      var all := Updated(c, s, dets);
      SurvivorsExplained(c, all, logs + [LogOf(c, s, dets)], s.nextId + |FrameMatch(c, s, dets).value.newDets|);
    }
  }

  lemma SurvivorsExplained(c: Config, ts: seq<Track>, logs: seq<Log>, bound: nat)
    requires IdsAscend(ts, bound) && Explained(ts, logs)
    ensures IdsAscend(Survivors(c, ts), bound) && Explained(Survivors(c, ts), logs)
  {
    SurvivorMembers(c, ts, bound);
  }

  /** In every reachable state ids ascend along the list, and each tracker's age, hits, time since update,
      streak and box history are the functions `Explains` names of its match history since birth. */
  lemma {:induction false} CountersFollowHistory(c: Config, inputs: seq<Input>)
    requires IsSolver(c.solve)
    ensures Inv(Run(c, inputs), Logs(c, inputs))
  {
    hide Explains, Frame, LogOf;
    if inputs != [] {
      var front, i := inputs[..|inputs| - 1], inputs[|inputs| - 1];
      CountersFollowHistory(c, front);
      FrameKeepsInv(c, Enter(Run(c, front), i), Logs(c, front), i.dets);
    }
  }

  // ----- consequences -----

  /** A tracker outlives a call exactly when its prediction is a number and, unless the solver raises, its misses,
      this call included, do not exceed `maxAge`: a call that raises prunes nobody. */
  lemma SurvivesIff(c: Config, s: State, logs: seq<Log>, dets: seq<Box>, o: Track)
    requires IsSolver(c.solve) && Inv(s, logs) && o in s.tracks
    ensures (exists t :: t in Frame(c, s, dets).0.tracks && t.id == o.id) <==>
            && !LastBox(PredictTrack(c, o)).Nan?
            && (FrameMatch(c, s, dets).Some? ==>
                  TrailingMisses(MatchHistory(logs, o.id) + [o.id in LogOf(c, s, dets).matched]) <= c.maxAge)
  {
    hide XToBbox, Advance, Associate, Predictions, PredictTrack, MatchHistory, LogOf;
    if FrameMatch(c, s, dets).Some? {
      SurvivesAnswer(c, s, logs, dets, o);
    } else {
      SurvivesRaise(c, s, o);
    }
  }

  lemma SurvivesRaise(c: Config, s: State, o: Track)
    requires IdsAscend(s.tracks, s.nextId) && o in s.tracks
    ensures (exists t :: t in Alive(Predictions(c, s.tracks)) && t.id == o.id) <==> !LastBox(PredictTrack(c, o)).Nan?
  {
    hide XToBbox, Advance;
    var kept := Alive(Predictions(c, s.tracks));
    if !LastBox(PredictTrack(c, o)).Nan? {
      var j := PositionOf(c, s, o);
      assert kept[j] in kept && kept[j].id == o.id;
    }
    if t :| t in kept && t.id == o.id {
      var j :| 0 <= j < |kept| && kept[j] == t;
      var p := KeptComesFrom(c, s, j);
      assert p.id == o.id;
      assert p == o;
    }
  }

  lemma SurvivesAnswer(c: Config, s: State, logs: seq<Log>, dets: seq<Box>, o: Track)
    requires IsSolver(c.solve) && Inv(s, logs) && FrameMatch(c, s, dets).Some? && o in s.tracks
    ensures (exists t :: t in Frame(c, s, dets).0.tracks && t.id == o.id) <==>
            && !LastBox(PredictTrack(c, o)).Nan?
            && TrailingMisses(MatchHistory(logs, o.id) + [o.id in LogOf(c, s, dets).matched]) <= c.maxAge
  {
    hide XToBbox, Advance, Associate, Predictions, HitTrack, PredictTrack, MatchHistory, Born, Updated;
    var log, all := LogOf(c, s, dets), Updated(c, s, dets);
    UpdatedExplained(c, s, logs, dets);
    SurvivorMembers(c, all, s.nextId + |FrameMatch(c, s, dets).value.newDets|);
    LogStep(logs, log, o.id);
    if !LastBox(PredictTrack(c, o)).Nan? {
      var u := StillListed(c, s, logs, dets, o);
      assert forall t :: t in all && t.id == o.id ==> t == u;
    } else {
      forall t | t in all
        ensures t.id != o.id
      {
        var j :| 0 <= j < |all| && all[j] == t;
        NotRevived(c, s, logs, dets, o, j);
      }
    }
  }

  lemma StillListed(c: Config, s: State, logs: seq<Log>, dets: seq<Box>, o: Track) returns (t: Track)
    requires IsSolver(c.solve) && Inv(s, logs) && FrameMatch(c, s, dets).Some?
    requires o in s.tracks && !LastBox(PredictTrack(c, o)).Nan?
    ensures t in Updated(c, s, dets) && t.id == o.id
  {
    hide XToBbox, Advance, Associate, Predictions, HitTrack, Alive, ApplyMatches, MatchHistory, Born, Explains;
    FrameMatchFits(c, s, dets);
    var j := PositionOf(c, s, o);
    var p, det := KeptOutcome(c, s, dets, j);
    t := Updated(c, s, dets)[j];
    OutcomeExplained(c, s, logs, p, t, det, LogOf(c, s, dets));
    assert p.id == PredictTrack(c, p).id;
  }

  lemma PositionOf(c: Config, s: State, o: Track) returns (j: nat)
    requires IdsAscend(s.tracks, s.nextId) && o in s.tracks && !LastBox(PredictTrack(c, o)).Nan?
    ensures j < |Alive(Predictions(c, s.tracks))| && Alive(Predictions(c, s.tracks))[j] == PredictTrack(c, o)
  {
    hide XToBbox, Advance;
    PredictedIds(c, s.tracks, s.nextId);
    AliveMembers(Predictions(c, s.tracks), s.nextId);
    var i :| 0 <= i < |s.tracks| && s.tracks[i] == o;
    assert Predictions(c, s.tracks)[i] in Predictions(c, s.tracks);
    j :| 0 <= j < |Alive(Predictions(c, s.tracks))| && Alive(Predictions(c, s.tracks))[j] == PredictTrack(c, o);
  }

  lemma NotRevived(c: Config, s: State, logs: seq<Log>, dets: seq<Box>, o: Track, j: nat)
    requires IsSolver(c.solve) && Inv(s, logs) && FrameMatch(c, s, dets).Some? && o in s.tracks
    requires j < |Updated(c, s, dets)| && LastBox(PredictTrack(c, o)).Nan?
    ensures Updated(c, s, dets)[j].id != o.id
  {
    hide XToBbox, Advance, Associate, Predictions, HitTrack, PredictTrack, Alive, ApplyMatches;
    hide MatchHistory, Born, Explains;
    FrameMatchFits(c, s, dets);
    if j < |Alive(Predictions(c, s.tracks))| {
      var p, det := KeptOutcome(c, s, dets, j);
      OutcomeExplained(c, s, logs, p, Updated(c, s, dets)[j], det, LogOf(c, s, dets));
    }
  }

  lemma AnswerBoundsMisses(c: Config, s: State, logs: seq<Log>, dets: seq<Box>)
    requires IsSolver(c.solve) && Inv(s, logs) && FrameMatch(c, s, dets).Some?
    ensures forall t :: t in Frame(c, s, dets).0.tracks ==> t.missed <= c.maxAge
  {
    hide Associate;
    UpdatedExplained(c, s, logs, dets);
    SurvivorMembers(c, Updated(c, s, dets), s.nextId + |FrameMatch(c, s, dets).value.newDets|);
  }

  lemma RaiseAddsMiss(c: Config, s: State, bound: int)
    requires IdsAscend(s.tracks, s.nextId) && forall t :: t in s.tracks ==> t.missed <= bound
    ensures forall t :: t in Alive(Predictions(c, s.tracks)) ==> t.missed <= bound + 1
  {
    hide XToBbox, Advance, Predictions, Alive;
    var kept := Alive(Predictions(c, s.tracks));
    forall t | t in kept
      ensures t.missed <= bound + 1
    {
      var j :| 0 <= j < |kept| && kept[j] == t;
      var o := KeptComesFrom(c, s, j);
    }
  }

  /** How many of the last calls raised in a row. */
  function Raises(c: Config, inputs: seq<Input>): nat
    requires IsSolver(c.solve)
  {
    if inputs == [] then 0
    else
      var front, i := inputs[..|inputs| - 1], inputs[|inputs| - 1];
      if FrameMatch(c, Enter(Run(c, front), i), i.dets).None? then Raises(c, front) + 1 else 0
  }

  /** In every reachable state nobody has missed more than `maxAge` calls, and one for each call that raised since. */
  lemma {:induction false} MissesBounded(c: Config, inputs: seq<Input>)
    requires IsSolver(c.solve)
    ensures forall t :: t in Run(c, inputs).tracks ==> t.missed <= c.maxAge + Raises(c, inputs)
  {
    if inputs != [] {
      hide Associate, Updated, Predictions, Alive, LogOf, FrameMatch, Explained;
      var front, i := inputs[..|inputs| - 1], inputs[|inputs| - 1];
      var s := Enter(Run(c, front), i);
      CountersFollowHistory(c, front);
      if FrameMatch(c, s, i.dets).Some? {
        AnswerBoundsMisses(c, s, Logs(c, front), i.dets);
      } else {
        MissesBounded(c, front);
        RaiseAddsMiss(c, s, c.maxAge + Raises(c, front));
      }
    }
  }

  /** A track with a valid prediction is removed exactly on a call that does not raise, on a miss after at least
      `maxAge` misses in a row. */
  lemma RemovedOnLastMiss(c: Config, inputs: seq<Input>, i: Input, o: Track)
    requires IsSolver(c.solve) && c.maxAge >= 0
    requires o in Run(c, inputs).tracks && !LastBox(PredictTrack(c, o)).Nan?
    ensures var s, h := Enter(Run(c, inputs), i), MatchHistory(Logs(c, inputs), o.id);
            (forall t :: t in Run(c, inputs + [i]).tracks ==> t.id != o.id) <==>
            FrameMatch(c, s, i.dets).Some? && o.id !in LogOf(c, s, i.dets).matched && TrailingMisses(h) >= c.maxAge
  {
    hide XToBbox, Advance, Associate, Frame, FrameMatch, MatchHistory, Born, LogOf, PredictTrack;
    var s, logs := Enter(Run(c, inputs), i), Logs(c, inputs);
    assert (inputs + [i])[..|inputs|] == inputs;
    CountersFollowHistory(c, inputs);
    SurvivesIff(c, s, logs, i.dets, o);
    RunAfter(MatchHistory(logs, o.id), o.id in LogOf(c, s, i.dets).matched);
  }

  ghost predicate ShownRow(c: Config, frameCount: int, ts: seq<Track>, row: Row) {
    exists t :: t in ts && Shown(c, frameCount, t) && row == Row(XToBbox(c.sqrt, t.x), t.id + 1)
  }

  /** A reported row stems from a tracker, and rows list trackers by descending id. */
  lemma {:induction false} ReportRows(c: Config, frameCount: int, ts: seq<Track>, bound: nat)
    requires IdsAscend(ts, bound)
    ensures forall a, b :: 0 <= a < b < |Report(c, frameCount, ts)| ==>
              Report(c, frameCount, ts)[a].tag > Report(c, frameCount, ts)[b].tag
    ensures forall a :: 0 <= a < |Report(c, frameCount, ts)| ==>
              Report(c, frameCount, ts)[a].tag <= bound && ShownRow(c, frameCount, ts, Report(c, frameCount, ts)[a])
  {
    hide XToBbox;
    if ts != [] {
      var front, t := ts[..|ts| - 1], ts[|ts| - 1];
      ReportRows(c, frameCount, front, t.id);
      assert t in ts;
      forall row | ShownRow(c, frameCount, front, row)
        ensures ShownRow(c, frameCount, ts, row)
      {
        var u :| u in front && Shown(c, frameCount, u) && row == Row(XToBbox(c.sqrt, u.x), u.id + 1);
        assert u in ts;
      }
    }
  }

  lemma {:induction false} ShownAreReported(c: Config, frameCount: int, ts: seq<Track>, t: Track)
    requires t in ts && Shown(c, frameCount, t)
    ensures Row(XToBbox(c.sqrt, t.x), t.id + 1) in Report(c, frameCount, ts)
  {
    hide XToBbox, Shown;
    var front, last := ts[..|ts| - 1], ts[|ts| - 1];
    assert ts == front + [last];
    if t in front {
      ShownAreReported(c, frameCount, front, t);
    }
  }

  /** Matched or born in the call that the log describes. */
  predicate Touched(log: Log, id: nat) { id in log.matched || log.firstNew <= id < log.endNew }

  /** A negative minimum asks for nothing. */
  function HitsNeeded(c: Config): nat { if c.minHits < 0 then 0 else c.minHits }

  /** Some row carries the id; reported ids are counted from one. */
  predicate HasId(rows: seq<Row>, id: nat) { exists a :: 0 <= a < |rows| && rows[a].tag == id + 1 }

  /** The frame count is the number of calls, those that raised among them. */
  lemma {:induction false} CallsAreCounted(c: Config, inputs: seq<Input>)
    requires IsSolver(c.solve)
    ensures Run(c, inputs).frameCount == |inputs|
  {
    hide FrameMatch, Updated, Survivors, Alive, Predictions, Report, IsSolver;
    if inputs != [] {
      CallsAreCounted(c, inputs[..|inputs| - 1]);
    }
  }

  /** Reported rows have distinct, descending ids. An id is reported exactly when its tracker was matched or born in
      this very call and, past the first `minHits` calls, those that raised counted, its history ends with `minHits`
      matches. */
  lemma ReportedIff(c: Config, inputs: seq<Input>, i: Input, id: nat)
    requires IsSolver(c.solve) && Frame(c, Enter(Run(c, inputs), i), i.dets).1.Reported?
    ensures var rows, log :=
              Frame(c, Enter(Run(c, inputs), i), i.dets).1.rows, LogOf(c, Enter(Run(c, inputs), i), i.dets);
            && (forall a, b :: 0 <= a < b < |rows| ==> rows[a].tag > rows[b].tag)
            && (forall a :: 0 <= a < |rows| ==> rows[a].tag >= 1)
            && (HasId(rows, id) <==>
                  Touched(log, id)
                  && (|inputs| + 1 <= c.minHits
                      || EndsWithHits(MatchHistory(Logs(c, inputs + [i]), id), HitsNeeded(c))))
  {
    hide XToBbox, Advance, Associate, MatchHistory, Born, LogOf, Updated, Report, ShownRow, Explains, EndsWithHits;
    hide Explained, FrameMatch, Survivors, Touched, HasId;
    var s, logs := Enter(Run(c, inputs), i), Logs(c, inputs);
    assert (inputs + [i])[..|inputs|] == inputs;
    CallsAreCounted(c, inputs);
    CountersFollowHistory(c, inputs);
    assert Inv(s, logs);
    UpdatedExplained(c, s, logs, i.dets);
    var all, log := Updated(c, s, i.dets), LogOf(c, s, i.dets);
    ReportRows(c, s.frameCount + 1, all, s.nextId + |FrameMatch(c, s, i.dets).value.newDets|);
    PositiveTags(c, s.frameCount + 1, all, Report(c, s.frameCount + 1, all));
    if HasId(Report(c, s.frameCount + 1, all), id) {
      RowIsEarned(c, s.frameCount + 1, all, logs, log, id);
    }
    if Touched(log, id)
       && (s.frameCount + 1 <= c.minHits || EndsWithHits(MatchHistory(logs + [log], id), HitsNeeded(c))) {
      TouchedAreListed(c, s, i.dets, id);
      EarnedIsRow(c, s.frameCount + 1, all, logs, log, id);
    }
  }

  lemma PositiveTags(c: Config, frameCount: int, ts: seq<Track>, rows: seq<Row>)
    requires forall a :: 0 <= a < |rows| ==> ShownRow(c, frameCount, ts, rows[a])
    ensures forall a :: 0 <= a < |rows| ==> rows[a].tag >= 1
  {
    hide XToBbox, Shown;
  }

  lemma RowIsEarned(c: Config, frameCount: int, ts: seq<Track>, logs: seq<Log>, log: Log, id: nat)
    requires Explained(ts, logs + [log]) && HasId(Report(c, frameCount, ts), id)
    requires forall a :: 0 <= a < |Report(c, frameCount, ts)| ==>
               ShownRow(c, frameCount, ts, Report(c, frameCount, ts)[a])
    ensures Touched(log, id)
    ensures frameCount <= c.minHits || EndsWithHits(MatchHistory(logs + [log], id), HitsNeeded(c))
  {
    hide XToBbox, MatchHistory, EndsWithHits, Report, Born;
    var a :| 0 <= a < |Report(c, frameCount, ts)| && Report(c, frameCount, ts)[a].tag == id + 1;
    assert ShownRow(c, frameCount, ts, Report(c, frameCount, ts)[a]);
    var t :| t in ts && Shown(c, frameCount, t) && t.id == id;
    LogStep(logs, log, id);
    if frameCount > c.minHits {
      StreakIsHits(t, MatchHistory(logs + [log], id), HitsNeeded(c));
    }
  }

  lemma EarnedIsRow(c: Config, frameCount: int, ts: seq<Track>, logs: seq<Log>, log: Log, id: nat)
    requires Explained(ts, logs + [log]) && Touched(log, id)
    requires exists t :: t in ts && t.id == id
    requires frameCount <= c.minHits || EndsWithHits(MatchHistory(logs + [log], id), HitsNeeded(c))
    ensures HasId(Report(c, frameCount, ts), id)
  {
    hide XToBbox, MatchHistory, EndsWithHits, Report, Born;
    var t :| t in ts && t.id == id;
    var h := MatchHistory(logs + [log], id);
    LogStep(logs, log, id);
    assert TrailingMisses(h) == 0;
    assert LatestRun(h) == TrailingHits(h);
    if EndsWithHits(h, HitsNeeded(c)) {
      EndIsTrailingHits(h, HitsNeeded(c));
    }
    ShownAreReported(c, frameCount, ts, t);
    var rows, row := Report(c, frameCount, ts), Row(XToBbox(c.sqrt, t.x), id + 1);
    var a :| 0 <= a < |rows| && rows[a] == row;
  }

  lemma TouchedAreListed(c: Config, s: State, dets: seq<Box>, id: nat)
    requires IsSolver(c.solve) && IdsAscend(s.tracks, s.nextId) && FrameMatch(c, s, dets).Some?
    requires Touched(LogOf(c, s, dets), id)
    ensures exists t :: t in Updated(c, s, dets) && t.id == id
  {
    hide XToBbox, Advance, Associate, Predictions, Alive, ApplyMatches, HitTrack, InitialState;
    FrameMatchFits(c, s, dets);
    var m, kept := FrameMatch(c, s, dets).value, Alive(Predictions(c, s.tracks));
    if s.nextId <= id < s.nextId + |m.newDets| {
      assert Updated(c, s, dets)[|kept| + id - s.nextId] == NewTrack(id, dets[m.newDets[id - s.nextId]]);
    } else {
      var k :| 0 <= k < |m.matches| && kept[m.matches[k].col].id == id;
      var o, det := KeptOutcome(c, s, dets, m.matches[k].col);
      SameIds(c, o, det);
      assert Updated(c, s, dets)[m.matches[k].col].id == id;
    }
  }

  lemma SameIds(c: Config, o: Track, det: Box)
    ensures PredictTrack(c, o).id == o.id && HitTrack(c, PredictTrack(c, o), det).id == o.id
  {
  }

  predicate EndsWithHits(h: seq<bool>, n: nat) {
    n <= |h| && forall k :: |h| - n <= k < |h| ==> h[k]
  }

  lemma StreakIsHits(t: Track, h: seq<bool>, n: nat)
    requires Explains(t, h) && t.missed < 1 && t.streak >= n
    ensures EndsWithHits(h, n)
  {
    TrailingHitsEnd(h);
    assert TrailingMisses(h) == 0 ==> LatestRun(h) == TrailingHits(h);
  }

  lemma {:induction false} EndIsTrailingHits(h: seq<bool>, n: nat)
    requires EndsWithHits(h, n)
    ensures TrailingHits(h) >= n
  {
    if n > 0 {
      EndIsTrailingHits(h[..|h| - 1], n - 1);
    }
  }

  lemma {:induction false} TrailingHitsEnd(h: seq<bool>)
    ensures EndsWithHits(h, TrailingHits(h))
  {
    if h != [] && h[|h| - 1] {
      TrailingHitsEnd(h[..|h| - 1]);
    }
  }

  // ----- counting -----

  /** Trackers updated or created in this very call. */
  function FreshCount(ts: seq<Track>): nat {
    if ts == [] then 0 else FreshCount(ts[..|ts| - 1]) + if ts[|ts| - 1].missed == 0 then 1 else 0
  }

  lemma {:induction false} FreshReplace(ts: seq<Track>, j: nat, t: Track)
    requires j < |ts| && ts[j].missed != 0 && t.missed == 0
    ensures FreshCount(ts[j := t]) == FreshCount(ts) + 1
  {
    var n := |ts| - 1;
    if j < n {
      assert ts[j := t][..n] == ts[..n][j := t];
      FreshReplace(ts[..n], j, t);
    } else {
      assert ts[j := t][..n] == ts[..n];
    }
  }

  lemma {:induction false} FreshAppend(ts: seq<Track>, us: seq<Track>)
    requires forall k :: 0 <= k < |us| ==> us[k].missed == 0
    ensures FreshCount(ts + us) == FreshCount(ts) + |us|
  {
    if us == [] {
      assert ts + us == ts;
    } else {
      assert (ts + us)[..|ts + us| - 1] == ts + us[..|us| - 1];
      FreshAppend(ts, us[..|us| - 1]);
    }
  }

  lemma {:induction false} FreshMatches(c: Config, ts: seq<Track>, dets: seq<Box>, ps: seq<Pair>)
    requires MatchesFit(ps, dets, ts) && IsMatching(ps)
    requires forall k :: 0 <= k < |ts| ==> ts[k].missed > 0
    ensures FreshCount(ApplyMatches(c, ts, dets, ps)) == |ps|
  {
    if ps == [] {
      NoneFresh(ts);
    } else {
      var front, p := ps[..|ps| - 1], ps[|ps| - 1];
      FreshMatches(c, ts, dets, front);
      ApplyMatchesAt(c, ts, dets, front, p.col);
      var was := ApplyMatches(c, ts, dets, front);
      FreshReplace(was, p.col, HitTrack(c, was[p.col], dets[p.row]));
    }
  }

  lemma {:induction false} NoneFresh(ts: seq<Track>)
    requires forall k :: 0 <= k < |ts| ==> ts[k].missed > 0
    ensures FreshCount(ts) == 0
  {
    if ts != [] {
      NoneFresh(ts[..|ts| - 1]);
    }
  }

  lemma FreshSnoc(ts: seq<Track>, t: Track)
    ensures FreshCount(ts + [t]) == FreshCount(ts) + if t.missed == 0 then 1 else 0
  {
    assert (ts + [t])[..|ts|] == ts;
  }

  lemma {:induction false} FreshSurvive(c: Config, ts: seq<Track>)
    requires c.maxAge >= 0
    ensures FreshCount(Survivors(c, ts)) == FreshCount(ts)
  {
    if ts != [] {
      hide FreshCount;
      var front, last := ts[..|ts| - 1], ts[|ts| - 1];
      FreshSurvive(c, front);
      assert ts == front + [last];
      FreshSnoc(front, last);
      FreshSnoc(Survivors(c, front), last);
    }
  }

  /** After a call exactly one tracker per detection is up to date, or none when the solver raised. */
  lemma OneFreshPerDetection(c: Config, s: State, logs: seq<Log>, dets: seq<Box>)
    requires IsSolver(c.solve) && Inv(s, logs) && c.maxAge >= 0
    ensures FreshCount(Frame(c, s, dets).0.tracks) == if FrameMatch(c, s, dets).Some? then |dets| else 0
  {
    hide XToBbox, Advance, Associate, FreshCount, ApplyMatches, Survivors, Alive, Predictions;
    var kept := Alive(Predictions(c, s.tracks));
    forall j | 0 <= j < |kept|
      ensures kept[j].missed > 0
    {
      var o := KeptComesFrom(c, s, j);
      assert Explains(o, MatchHistory(logs, o.id));
    }
    if FrameMatch(c, s, dets).Some? {
      FrameMatchFits(c, s, dets);
      var m := FrameMatch(c, s, dets).value;
      FreshMatches(c, kept, dets, m.matches);
      FreshAppend(ApplyMatches(c, kept, dets, m.matches), Newborns(s.nextId, dets, m.newDets));
      FreshSurvive(c, Updated(c, s, dets));
    } else {
      NoneFresh(kept);
    }
  }

  // ----- rows and trackers -----

  /** After masking and popping, row `j` is tracker `j`'s prediction for every `j`, exactly when no
      prediction is infinite: the mask drops those rows while the list keeps their trackers. */
  lemma RowsBelongToTrackers(ts: seq<Track>)
    ensures (|CompressRows(ts)| == |Alive(ts)|
             && forall j :: 0 <= j < |Alive(ts)| ==> LastBox(Alive(ts)[j]) == Finite(CompressRows(ts)[j]))
            <==> forall i :: 0 <= i < |ts| ==> !LastBox(ts[i]).Infinite?
  {
    if i :| 0 <= i < |ts| && LastBox(ts[i]).Infinite? {
      InfiniteShortens(ts, i);
    } else {
      FiniteAligned(ts);
    }
  }

  lemma {:induction false} InfiniteShortens(ts: seq<Track>, i: nat)
    requires i < |ts| && LastBox(ts[i]).Infinite?
    ensures |CompressRows(ts)| < |Alive(ts)|
  {
    if i < |ts| - 1 {
      InfiniteShortens(ts[..|ts| - 1], i);
    } else {
      RowsFitTrackers(ts[..|ts| - 1]);
    }
  }

  lemma {:induction false} FiniteAligned(ts: seq<Track>)
    requires forall i :: 0 <= i < |ts| ==> !LastBox(ts[i]).Infinite?
    ensures |CompressRows(ts)| == |Alive(ts)|
    ensures forall j :: 0 <= j < |Alive(ts)| ==> LastBox(Alive(ts)[j]) == Finite(CompressRows(ts)[j])
  {
    if ts != [] {
      FiniteAligned(ts[..|ts| - 1]);
    }
  }
}
