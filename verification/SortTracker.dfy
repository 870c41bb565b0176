/** The tracker objects of `v1/sort.py`, whose methods change fields, lists and the shared counter. */
module SortTracker {
  import opened Common
  import opened BoxGeometry
  import opened Assignment
  import opened Association
  import opened SortSpec

  /** The class-wide counter `KalmanBoxTracker.count`. */
  class IdSource {
    var count: nat

    constructor ()
      ensures count == 0
    {
      count := 0;
    }
  }

  class KalmanBoxTracker {
    var timeSinceUpdate: int
    var id: nat
    var history: seq<Pred>
    var hits: int
    var hitStreak: int
    var age: nat
    var x: KState

    ghost function View(): Track
      reads this
    {
      Track(id, timeSinceUpdate, hits, hitStreak, age, history, x)
    }

    constructor (ids: IdSource, bbox: Box)
      modifies ids
      ensures View() == NewTrack(old(ids.count), bbox)
      ensures ids.count == old(ids.count) + 1
    {
      x := InitialState(bbox);
      timeSinceUpdate := 0;
      id := ids.count;
      history := [];
      hits := 0;
      hitStreak := 0;
      age := 0;
      new;
      ids.count := ids.count + 1;
    }

    method Update(c: Config, bbox: Box)
      modifies this
      ensures View() == HitTrack(c, old(View()), bbox)
    {
      timeSinceUpdate := 0;
      history := [];
      hits := hits + 1;
      hitStreak := hitStreak + 1;
      x := c.measure(id, age, x, bbox);
    }

    method Predict(c: Config) returns (pos: Pred)
      modifies this
      ensures View() == PredictTrack(c, old(View())) && pos == LastBox(View())
    {
      x := Advance(x);
      age := age + 1;
      if timeSinceUpdate > 0 {
        hitStreak := 0;
      }
      timeSinceUpdate := timeSinceUpdate + 1;
      history := history + [XToBbox(c.sqrt, x)];
      pos := history[|history| - 1];
    }

    method GetState(c: Config) returns (pos: Pred)
      ensures pos == XToBbox(c.sqrt, View().x)
    {
      pos := XToBbox(c.sqrt, x);
    }
  }

  // ----- popping while walking backwards -----

  predicate AscendingIndices(del: seq<nat>, n: nat) {
    && (forall j, k :: 0 <= j < k < |del| ==> del[j] < del[k])
    && forall k :: 0 <= k < |del| ==> del[k] < n
  }

  /** Popping the given positions, highest first. */
  function PopBackwards(s: seq<Track>, del: seq<nat>): seq<Track>
    requires AscendingIndices(del, |s|)
  {
    if del == [] then s else PopBackwards(Without(s, del[|del| - 1]), del[..|del| - 1])
  }

  lemma PopStep(s: seq<Track>, del: seq<nat>)
    requires AscendingIndices(del, |s|) && del != []
    ensures del[|del| - 1] < |s| && AscendingIndices(del[..|del| - 1], |s| - 1)
    ensures PopBackwards(s, del) == PopBackwards(Without(s, del[|del| - 1]), del[..|del| - 1])
  {
  }

  lemma PopNothing(s: seq<Track>)
    ensures AscendingIndices([], |s|) && PopBackwards(s, []) == s
  {
  }

  /** Positions of the predictions that are not a number. */
  function NanIndices(ts: seq<Track>): (r: seq<nat>)
    ensures AscendingIndices(r, |ts|)
  {
    if ts == [] then []
    else
      var rest := NanIndices(ts[..|ts| - 1]);
      if LastBox(ts[|ts| - 1]).Nan? then rest + [|ts| - 1] else rest
  }

  /** Backward popping shifts no position that is still to be popped. */
  lemma {:induction false} PopsExactlyNan(ts: seq<Track>, tail: seq<Track>)
    ensures PopBackwards(ts + tail, NanIndices(ts)) == Alive(ts) + tail
  {
    if ts != [] {
      var n := |ts| - 1;
      var del, front := NanIndices(ts), Alive(ts[..n]);
      if LastBox(ts[n]).Nan? {
        assert del[..|del| - 1] == NanIndices(ts[..n]);
        assert Without(ts + tail, n) == ts[..n] + tail;
        PopsExactlyNan(ts[..n], tail);
      } else {
        assert ts + tail == ts[..n] + ([ts[n]] + tail);
        PopsExactlyNan(ts[..n], [ts[n]] + tail);
        assert front + ([ts[n]] + tail) == front + [ts[n]] + tail;
      }
    } else {
      assert ts + tail == tail && Alive(ts) + tail == tail;
    }
  }

  /** The first `t` trackers have been predicted; the loop has collected their rows and positions. */
  ghost predicate Midway(c: Config, was: seq<Track>, tracks: seq<Track>, t: nat, rows: seq<Box>, toDel: seq<nat>)
    requires t <= |tracks|
  {
    && |was| == |tracks|
    && (forall k :: 0 <= k < t ==> tracks[k] == PredictTrack(c, was[k]))
    && (forall k :: t <= k < |tracks| ==> tracks[k] == was[k])
    && rows == CompressRows(tracks[..t])
    && toDel == NanIndices(tracks[..t])
  }

  lemma MidwayStart(c: Config, was: seq<Track>)
    ensures Midway(c, was, was, 0, [], [])
  {
  }

  lemma MidwayStep(c: Config, was: seq<Track>, tracks: seq<Track>, t: nat, rows: seq<Box>, toDel: seq<nat>)
    requires t < |tracks| && Midway(c, was, tracks, t, rows, toDel)
    ensures var now := PredictTrack(c, tracks[t]);
            Midway(c, was, tracks[t := now], t + 1,
              if LastBox(now).Finite? then rows + [LastBox(now).box] else rows,
              if LastBox(now).Nan? then toDel + [t] else toDel)
  {
    hide XToBbox, Advance;
    assert tracks[t := PredictTrack(c, tracks[t])][..t + 1][..t] == tracks[..t];
  }

  lemma MidwayEnd(c: Config, was: seq<Track>, tracks: seq<Track>, rows: seq<Box>, toDel: seq<nat>)
    requires Midway(c, was, tracks, |tracks|, rows, toDel)
    ensures tracks == Predictions(c, was) && rows == CompressRows(tracks) && toDel == NanIndices(tracks)
  {
    assert tracks[..|tracks|] == tracks;
  }

  /** One step of the last loop, at the end of what is left of the list. */
  lemma PruneStep(c: Config, frameCount: int, left: seq<Track>, tail: seq<Track>)
    requires left != []
    ensures var rest, t := left[..|left| - 1], left[|left| - 1];
            && Report(c, frameCount, left) ==
                 (if Shown(c, frameCount, t) then [Row(XToBbox(c.sqrt, t.x), t.id + 1)] else [])
                 + Report(c, frameCount, rest)
            && Survivors(c, left) + tail == Survivors(c, rest) + (if t.missed > c.maxAge then tail else [t] + tail)
            && Without(left + tail, |left| - 1) == rest + tail
            && left + tail == rest + ([t] + tail)
  {
    var rest, t := left[..|left| - 1], left[|left| - 1];
    assert Survivors(c, rest) + [t] + tail == Survivors(c, rest) + ([t] + tail);
  }

  lemma NothingLeft(c: Config, frameCount: int)
    ensures Report(c, frameCount, []) == [] && Survivors(c, []) == []
  {
  }

  lemma NoNewborns(id: nat, dets: seq<Box>)
    ensures Newborns(id, dets, []) == []
  {
  }

  lemma NewbornStep(id: nat, dets: seq<Box>, unmatched: seq<nat>, k: nat)
    requires k < |unmatched| && forall i :: 0 <= i < |unmatched| ==> unmatched[i] < |dets|
    ensures Newborns(id, dets, unmatched[..k + 1])
         == Newborns(id, dets, unmatched[..k]) + [NewTrack(id + k, dets[unmatched[k]])]
  {
    assert unmatched[..k + 1][..k] == unmatched[..k];
  }

  /** `tracks` is the value of the tracker list, kept beside it. */
  class Sort {
    const config: Config
    const ids: IdSource
    var trackers: seq<KalmanBoxTracker>
    var frameCount: int
    ghost var tracks: seq<Track>

    ghost predicate Valid()
      reads this, trackers
    {
      && |tracks| == |trackers|
      && (forall i, j :: 0 <= i < j < |trackers| ==> trackers[i] != trackers[j])
      && forall i :: 0 <= i < |trackers| ==> trackers[i].View() == tracks[i]
    }

    ghost function View(): State
      reads this, ids
    {
      State(tracks, frameCount, ids.count)
    }

    constructor (config: Config, ids: IdSource)
      ensures Valid() && View() == State([], 0, ids.count) && this.config == config && this.ids == ids
    {
      this.config := config;
      this.ids := ids;
      trackers := [];
      tracks := [];
      frameCount := 0;
    }

    /** One call of `update`: the objects end up as the specification says, and so does the result. */
    method Update(dets: seq<Box>, lapInstalled: bool) returns (ret: Outcome)
      requires Valid() && IsSolver(config.solve)
      modifies this, trackers, ids
      ensures Valid()
      ensures forall o :: o in trackers ==> o in old(trackers) || fresh(o)
      ensures View() == Frame(config, old(View()), dets).0
      ensures ret == Frame(config, old(View()), dets).1
    {
      hide FrameMatch, Predictions, Alive, CompressRows, ApplyMatches, Newborns, Report, Survivors, Frame, Associate;
      hide IsSolver, MatchesFit, NanIndices, KalmanBoxTracker.View;
      FrameParts(config, View(), dets);
      frameCount := frameCount + 1;
      var rows, toDel := PredictAll();
      PopAll(toDel);
      assert forall k :: 0 <= k < |trackers| ==> trackers[k] in old(trackers);
      var m := AssociateDetectionsToTrackers(dets, rows, config.iouThreshold, config.solve, lapInstalled);
      if m.None? {
        return Raised;
      }
      var shown := Settle(dets, m.value);
      ret := Reported(shown);
    }

    /** What follows the association. */
    method Settle(dets: seq<Box>, m: Match) returns (ret: seq<Row>)
      requires Valid() && MatchesFit(m.matches, dets, tracks)
      requires forall i :: 0 <= i < |m.newDets| ==> m.newDets[i] < |dets|
      modifies this`trackers, this`tracks, trackers, ids
      ensures Valid() && ids.count == old(ids.count) + |m.newDets|
      ensures forall o :: o in trackers ==> o in old(trackers) || fresh(o)
      ensures var all := ApplyMatches(config, old(tracks), dets, m.matches) + Newborns(old(ids.count), dets, m.newDets);
              tracks == Survivors(config, all) && ret == Report(config, frameCount, all)
    {
      hide ApplyMatches, Newborns, Report, Survivors;
      UpdateMatched(dets, m.matches);
      CreateTrackers(dets, m.newDets);
      ret := ReportAndPrune();
    }

    /** Predict every tracker, noting the rows to keep and the positions to delete. */
    method PredictAll() returns (rows: seq<Box>, toDel: seq<nat>)
      requires Valid()
      modifies this`tracks, trackers
      ensures Valid() && tracks == Predictions(config, old(tracks))
      ensures rows == CompressRows(tracks) && toDel == NanIndices(tracks)
    {
      hide XToBbox, Advance, Midway, PredictTrack;
      ghost var was := tracks;
      rows := [];
      toDel := [];
      MidwayStart(config, was);
      for t := 0 to |trackers|
        invariant Valid() && Midway(config, was, tracks, t, rows, toDel)
      {
        MidwayStep(config, was, tracks, t, rows, toDel);
        var pos := trackers[t].Predict(config);
        tracks := tracks[t := PredictTrack(config, tracks[t])];
        if pos.Finite? {
          rows := rows + [pos.box];
        }
        if pos.Nan? {
          toDel := toDel + [t];
        }
      }
      MidwayEnd(config, was, tracks, rows, toDel);
    }

    method PopAt(i: nat)
      requires Valid() && i < |trackers|
      modifies this`trackers, this`tracks
      ensures Valid() && forall o :: o in trackers ==> o in old(trackers)
      ensures tracks == Without(old(tracks), i)
    {
      ghost var was := trackers;
      trackers := Without(trackers, i);
      tracks := Without(tracks, i);
      assert forall k :: 0 <= k < |trackers| ==> trackers[k] == was[if k < i then k else k + 1];
    }

    method PopAll(toDel: seq<nat>)
      requires Valid() && toDel == NanIndices(tracks)
      modifies this`trackers, this`tracks
      ensures Valid() && forall o :: o in trackers ==> o in old(trackers)
      ensures tracks == Alive(old(tracks))
    {
      hide PopBackwards, NanIndices, Alive, AscendingIndices;
      PopsExactlyNan(tracks, []);
      assert tracks + [] == tracks && Alive(tracks) + [] == Alive(tracks);
      ghost var goal := PopBackwards(tracks, toDel);
      var j := |toDel|;
      assert toDel[..j] == toDel;
      while j > 0
        invariant 0 <= j <= |toDel| && Valid() && AscendingIndices(toDel[..j], |tracks|)
        invariant forall o :: o in trackers ==> o in old(trackers)
        invariant PopBackwards(tracks, toDel[..j]) == goal
      {
        PopStep(tracks, toDel[..j]);
        j := j - 1;
        assert toDel[..j + 1][..j] == toDel[..j];
        PopAt(toDel[j]);
      }
      assert toDel[..0] == [];
      PopNothing(tracks);
    }

    method UpdateMatched(dets: seq<Box>, matched: seq<Pair>)
      requires Valid() && MatchesFit(matched, dets, tracks)
      modifies this`tracks, trackers
      ensures Valid() && tracks == ApplyMatches(config, old(tracks), dets, matched)
    {
      ghost var was := tracks;
      for k := 0 to |matched|
        invariant Valid() && tracks == ApplyMatches(config, was, dets, matched[..k])
      {
        var m := matched[k];
        assert matched[..k + 1][..k] == matched[..k];
        trackers[m.col].Update(config, dets[m.row]);
        tracks := tracks[m.col := HitTrack(config, tracks[m.col], dets[m.row])];
      }
      assert matched[..|matched|] == matched;
    }

    method CreateTrackers(dets: seq<Box>, unmatched: seq<nat>)
      requires Valid() && forall i :: 0 <= i < |unmatched| ==> unmatched[i] < |dets|
      modifies this`trackers, this`tracks, ids
      ensures Valid() && ids.count == old(ids.count) + |unmatched|
      ensures forall o :: o in trackers ==> o in old(trackers) || fresh(o)
      ensures tracks == old(tracks) + Newborns(old(ids.count), dets, unmatched)
    {
      hide Newborns, NewTrack;
      ghost var was, first := tracks, ids.count;
      NoNewborns(first, dets);
      assert unmatched[..0] == [] && tracks + [] == tracks;
      for k := 0 to |unmatched|
        invariant Valid() && ids.count == first + k
        invariant forall o :: o in trackers ==> o in old(trackers) || fresh(o)
        invariant tracks == was + Newborns(first, dets, unmatched[..k])
      {
        var trk := new KalmanBoxTracker(ids, dets[unmatched[k]]);
        NewbornStep(first, dets, unmatched, k);
        assert was + (Newborns(first, dets, unmatched[..k]) + [NewTrack(first + k, dets[unmatched[k]])])
            == was + Newborns(first, dets, unmatched[..k]) + [NewTrack(first + k, dets[unmatched[k]])];
        trackers := trackers + [trk];
        tracks := tracks + [NewTrack(first + k, dets[unmatched[k]])];
      }
      assert unmatched[..|unmatched|] == unmatched;
    }

    /** The last loop: it walks the list backwards with its own position `next` while `i` is decremented
        beside it, and pops position `i` of the list it is walking. */
    method ReportAndPrune() returns (ret: seq<Row>)
      requires Valid()
      modifies this`trackers, this`tracks
      ensures Valid() && forall o :: o in trackers ==> o in old(trackers)
      ensures tracks == Survivors(config, old(tracks))
      ensures ret == Report(config, frameCount, old(tracks))
    {
      hide Report, Survivors, XToBbox;
      NothingLeft(config, frameCount);
      ghost var left, tail := tracks, [];
      ret := [];
      var i, next := |trackers|, |trackers| - 1;
      assert left + tail == left;
      while next >= 0
        invariant i == next + 1 == |left| && Valid()
        invariant forall o :: o in trackers ==> o in old(trackers)
        invariant tracks == left + tail
        invariant Survivors(config, left) + tail == Survivors(config, old(tracks))
        invariant ret + Report(config, frameCount, left) == Report(config, frameCount, old(tracks))
      {
        PruneStep(config, frameCount, left, tail);
        var trk := trackers[next];
        ghost var t := left[next];
        next := next - 1;
        var d := trk.GetState(config);
        if trk.timeSinceUpdate < 1 && (trk.hitStreak >= config.minHits || frameCount <= config.minHits) {
          ret := ret + [Row(d, trk.id + 1)];
        }
        i := i - 1;
        if trk.timeSinceUpdate > config.maxAge {
          PopAt(i);
        } else {
          tail := [t] + tail;
        }
        left := left[..i];
      }
    }
  }
}
