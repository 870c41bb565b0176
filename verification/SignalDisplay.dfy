/** What a viewer sees of live signals, in the fields of tracks and signals alone:
    `frontend/src/lib/live-signal-stability.ts`. */
module SignalDisplay {
  import opened Common
  import opened Sorting
  import opened SignalStability
  import opened SignalCounts

  // ----- keys -----

  /** The stable id, where there is one, stands for the track; otherwise its own id does. */
  lemma SameKeyIff(s: Track, t: Track)
    ensures TrackKey(s) == TrackKey(t) <==>
            && s.className == t.className
            && match (s.stableId, t.stableId)
               case (Some(a), Some(b)) => a == b
               case (Some(a), None) => a == t.trackId
               case (None, Some(b)) => s.trackId == b
               case (None, None) => s.trackId == t.trackId
  {
    TrackKeyIsFaithful(s, t);
  }

  /** A new entry joins the end of the Map. */
  lemma NewKeyJoinsTheEnd(s: seq<Signal>, x: Signal)
    requires forall y :: y in s ==> y.key != x.key
    ensures Put(s, x) == s + [x]
  {
    FindIsMember(s, x.key);
  }

  /** A known key keeps its place. */
  lemma {:induction false} KnownKeyKeepsItsPlace(s: seq<Signal>, x: Signal, i: nat)
    requires i < |s| && s[i].key == x.key && forall j :: i < j < |s| ==> s[j].key != x.key
    ensures Put(s, x) == s[..i] + [x] + s[i + 1..]
  {
    hide Find;
    FindIsMember(s, x.key);
    assert s[i] in s;
    if i < |s| - 1 {
      var front, last := s[..|s| - 1], s[|s| - 1];
      KnownKeyKeepsItsPlace(front, x, i);
      assert s[i + 1..] == front[i + 1..] + [last];
    }
  }

  // ----- the class filter -----

  /** Nothing outside the class filter is listed, neither from the frame nor held from before. */
  lemma OnlyAllowedAreListed(o: Options, previous: seq<Signal>, frame: Option<seq<Track>>, now: int, x: Signal)
    requires IsOrder(o.cmp) && UniqueKeys(previous)
    requires x in Update(o, previous, frame, now)
    ensures o.active.Some? && o.active.value != [] ==> x.track.className in o.active.value
  {
    hide Update, IsOrder, UniqueKeys, Ordered, Before, TrackKey, Find;
    UpdateByKey(o, previous, frame, now, x.key);
    UniqueFind(Update(o, previous, frame, now), x);
    if frame.Some? {
      PermittedHasKey(o.active, frame.value, x.key);
    }
  }

  /** The last allowed track of a frame under its key is listed, with what the frame says of it. */
  lemma FrameTrackIsListed(o: Options, previous: seq<Signal>, tracks: seq<Track>, now: int, i: nat)
    requires IsOrder(o.cmp) && UniqueKeys(previous) && i < |tracks|
    requires o.active.None? || o.active.value == [] || tracks[i].className in o.active.value
    requires forall j :: i < j < |tracks|
                         && (o.active.None? || o.active.value == [] || tracks[j].className in o.active.value)
                         ==> TrackKey(tracks[j]) != TrackKey(tracks[i])
    ensures exists x :: x in Update(o, previous, Some(tracks), now) && ShowsTrack(o, previous, now, tracks[i], x)
  {
    hide Update, IsOrder, UniqueKeys, Ordered, Before, TrackKey, Find, ShowsTrack;
    var k := TrackKey(tracks[i]);
    UpdateByKey(o, previous, Some(tracks), now, k);
    LastAllowed(o.active, tracks, i);
    var x := MakeSignal(o, previous, now, tracks[i]);
    FindIsMember(Update(o, previous, Some(tracks), now), k);
    MadeShows(o, previous, now, tracks[i]);
    assert x in Update(o, previous, Some(tracks), now);
  }

  /** How a track of the frame is shown: live unless coasting, seen now and, when its key was listed before, first seen
      when that entry was; a coasting track is as old as it says, but never younger than nothing. */
  ghost predicate ShowsTrack(o: Options, previous: seq<Signal>, now: int, t: Track, x: Signal) {
    && x.track == t && x.key == TrackKey(t) && x.color == o.colorFor(t.className)
    && x.state == (if t.state == Coasting then Held else Live)
    && x.lastSeen == now
    && (forall p :: p in previous && p.key == x.key ==> x.firstSeen == p.firstSeen)
    && ((forall p :: p in previous ==> p.key != x.key) ==> x.firstSeen == now)
    && (t.state != Coasting || t.lastSeenAge.None? ==> x.age == 0)
    && (t.state == Coasting && t.lastSeenAge.Some? ==>
          x.age == if t.lastSeenAge.value < 0 then 0 else t.lastSeenAge.value)
  }

  lemma MadeShows(o: Options, previous: seq<Signal>, now: int, t: Track)
    requires UniqueKeys(previous)
    ensures ShowsTrack(o, previous, now, t, MakeSignal(o, previous, now, t))
  {
    hide TrackKey, Find;
    var k := TrackKey(t);
    FindIsMember(previous, k);
    forall p | p in previous && p.key == k
      ensures Find(previous, k) == Some(p)
    {
      UniqueFind(previous, p);
    }
  }

  lemma {:induction false} LastAllowed(active: Option<seq<string>>, tracks: seq<Track>, i: nat)
    requires i < |tracks| && Permits(active, tracks[i].className)
    requires forall j :: i < j < |tracks| && Permits(active, tracks[j].className) ==>
                           TrackKey(tracks[j]) != TrackKey(tracks[i])
    ensures LastPermitted(active, tracks, TrackKey(tracks[i])) == Some(tracks[i])
  {
    hide TrackKey, Permits;
    if i < |tracks| - 1 {
      LastAllowed(active, tracks[..|tracks| - 1], i);
    }
  }

  // ----- what is kept without being seen -----

  /** An entry the frame does not mention stays exactly when its class is allowed and its last sighting is no older than
      the hold or, for a live one while no frame came, than the grace; only its age and state change. */
  lemma UnseenIsKeptIff(o: Options, previous: seq<Signal>, frame: Option<seq<Track>>, now: int, p: Signal)
    requires IsOrder(o.cmp) && UniqueKeys(previous) && p in previous
    requires frame.Some? ==> forall t :: t in frame.value ==> TrackKey(t) != p.key
    ensures var age, graced := now - p.lastSeen, frame.None? && p.state == Live && now - p.lastSeen <= o.grace;
            var allowed := o.active.None? || o.active.value == [] || p.track.className in o.active.value;
            var list := Update(o, previous, frame, now);
            if allowed && (age <= o.hold || graced)
            then p.(age := age, state := if graced then Live else Held) in list
            else forall x :: x in list ==> x.key != p.key
  {
    hide Update, IsOrder, UniqueKeys, Ordered, Before, TrackKey, Find;
    UpdateByKey(o, previous, frame, now, p.key);
    UniqueFind(previous, p);
    FindIsMember(Update(o, previous, frame, now), p.key);
    if frame.Some? {
      NoneAllowed(o.active, frame.value, p.key);
    }
  }

  lemma {:induction false} NoneAllowed(active: Option<seq<string>>, tracks: seq<Track>, k: string)
    requires forall t :: t in tracks ==> TrackKey(t) != k
    ensures LastPermitted(active, tracks, k) == None
  {
    hide TrackKey, Permits;
    if tracks != [] {
      NoneAllowed(active, tracks[..|tracks| - 1], k);
    }
  }

  /** Whatever is listed is a track of the frame or a key listed before. */
  lemma NothingElseIsListed(o: Options, previous: seq<Signal>, frame: Option<seq<Track>>, now: int, x: Signal)
    requires IsOrder(o.cmp) && UniqueKeys(previous)
    requires x in Update(o, previous, frame, now)
    ensures || (frame.Some? && x.track in frame.value && x.lastSeen == now)
            || exists p :: p in previous && p.key == x.key && p.track == x.track && p.lastSeen == x.lastSeen
  {
    hide Update, IsOrder, UniqueKeys, Ordered, Before, TrackKey, Find, Permits;
    UpdateByKey(o, previous, frame, now, x.key);
    UniqueFind(Update(o, previous, frame, now), x);
    FindIsMember(previous, x.key);
    if frame.Some? {
      PermittedIsOfTheFrame(o.active, frame.value, x.key);
    }
  }

  lemma {:induction false} PermittedIsOfTheFrame(active: Option<seq<string>>, tracks: seq<Track>, k: string)
    ensures LastPermitted(active, tracks, k).Some? ==> LastPermitted(active, tracks, k).value in tracks
  {
    hide TrackKey, Permits;
    if tracks != [] {
      PermittedIsOfTheFrame(active, tracks[..|tracks| - 1], k);
    }
  }

  // ----- over whole runs -----

  lemma {:induction false} RunsHaveUniqueKeys(o: Options, ticks: seq<Tick>)
    requires IsOrder(o.cmp)
    ensures UniqueKeys(Fold(o, ticks))
  {
    hide Update, IsOrder, UniqueKeys, Ordered;
    if ticks != [] {
      var front, last := ticks[..|ticks| - 1], ticks[|ticks| - 1];
      RunsHaveUniqueKeys(o, front);
      UpdateByKey(o, Fold(o, front), last.frame, last.now, "");
    } else {
      NoKeys();
    }
  }

  lemma NoKeys()
    ensures UniqueKeys([])
  {
  }

  lemma FoldOneMore(o: Options, ticks: seq<Tick>, tick: Tick)
    ensures Fold(o, ticks + [tick]) == Update(o, Fold(o, ticks), tick.frame, tick.now)
  {
    assert (ticks + [tick])[..|ticks|] == ticks;
  }

  /** After any ticks only classes of the filter are listed. */
  lemma RunsListOnlyAllowed(o: Options, ticks: seq<Tick>, x: Signal)
    requires IsOrder(o.cmp) && x in Fold(o, ticks)
    ensures o.active.Some? && o.active.value != [] ==> x.track.className in o.active.value
  {
    hide Update, IsOrder, UniqueKeys;
    var front, last := ticks[..|ticks| - 1], ticks[|ticks| - 1];
    RunsHaveUniqueKeys(o, front);
    OnlyAllowedAreListed(o, Fold(o, front), last.frame, last.now, x);
  }

  /** After any ticks the tracks of the last frame are listed, each under its key the last allowed one. */
  lemma RunsListTheFrame(o: Options, ticks: seq<Tick>, tracks: seq<Track>, now: int, i: nat)
    requires IsOrder(o.cmp) && i < |tracks|
    requires o.active.None? || o.active.value == [] || tracks[i].className in o.active.value
    requires forall j :: i < j < |tracks|
                         && (o.active.None? || o.active.value == [] || tracks[j].className in o.active.value)
                         ==> TrackKey(tracks[j]) != TrackKey(tracks[i])
    ensures exists x :: x in Fold(o, ticks + [Tick(Some(tracks), now)])
                        && ShowsTrack(o, Fold(o, ticks), now, tracks[i], x)
  {
    hide Update, Fold, IsOrder, UniqueKeys, TrackKey, ShowsTrack;
    FoldOneMore(o, ticks, Tick(Some(tracks), now));
    RunsHaveUniqueKeys(o, ticks);
    FrameTrackIsListed(o, Fold(o, ticks), tracks, now, i);
  }

  // ----- display order -----

  /** Live signals come before held ones, then class names ascend, then track ids. */
  lemma SignalsAreDisplayed(o: Options, previous: seq<Signal>, frame: Option<seq<Track>>, now: int, i: nat, j: nat)
    requires IsOrder(o.cmp) && UniqueKeys(previous) && i < j < |Update(o, previous, frame, now)|
    ensures var x, y := Update(o, previous, frame, now)[i], Update(o, previous, frame, now)[j];
            && (x.state == Held ==> y.state == Held)
            && (x.state == y.state ==> o.cmp(x.track.className, y.track.className) <= 0)
            && (x.state == y.state && o.cmp(x.track.className, y.track.className) == 0 ==>
                  x.track.trackId <= y.track.trackId)
  {
    hide Update, UniqueKeys, Find, Next;
    UpdateByKey(o, previous, frame, now, "");
    var x, y := Update(o, previous, frame, now)[i], Update(o, previous, frame, now)[j];
    assert !Before(o.cmp)(y, x);
    var a, b := x.track.className, y.track.className;
    assert o.cmp(a, b) < 0 <==> o.cmp(b, a) > 0;
    assert o.cmp(b, a) < 0 <==> o.cmp(a, b) > 0;
  }

  /** Rows with more live signals come first, then rows with more signals, then class names ascend. */
  lemma RowsAreDisplayed(cmp: (string, string) -> int, rows: seq<Row>, i: nat, j: nat)
    requires IsOrder(cmp) && i < j < |Merge(cmp, rows)|
    ensures var x, y := Merge(cmp, rows)[i], Merge(cmp, rows)[j];
            && x.count.live >= y.count.live
            && (x.count.live == y.count.live ==> x.count.total >= y.count.total)
            && (x.count.live == y.count.live && x.count.total == y.count.total ==> cmp(x.className, y.className) <= 0)
  {
    hide Merge, MergedRow, Classes;
    MergeMembers(cmp, rows);
    var x, y := Merge(cmp, rows)[i], Merge(cmp, rows)[j];
    assert !RowBefore(cmp)(y, x);
    assert cmp(y.className, x.className) < 0 <==> cmp(x.className, y.className) > 0;
  }

  lemma {:induction false} ClassesAppear(rows: seq<Row>, a: nat, b: nat, j: nat)
    requires a < b < |Classes(rows)| && j < |rows| && rows[j].className == Classes(rows)[b]
    ensures exists i :: 0 <= i < j && rows[i].className == Classes(rows)[a]
  {
    var front := rows[..|rows| - 1];
    ClassesAreThose(front);
    if b == |Classes(front)| || j == |front| {
      assert Classes(front)[a] in Classes(front);
      var i :| 0 <= i < |front| && front[i].className == Classes(front)[a];
      assert rows[i].className == Classes(rows)[a];
    } else {
      ClassesAppear(front, a, b, j);
      var i :| 0 <= i < j && front[i].className == Classes(front)[a];
      assert rows[i].className == Classes(rows)[a];
    }
  }

  /** Rows that compare equal come in the order in which their classes first appear. */
  lemma TiedRowsKeepAppearance(cmp: (string, string) -> int, rows: seq<Row>, p: nat, q: nat, j: nat)
    requires IsOrder(cmp) && p < q < |Merge(cmp, rows)| && j < |rows|
    requires var x, y := Merge(cmp, rows)[p], Merge(cmp, rows)[q];
             x.count.live == y.count.live && x.count.total == y.count.total && cmp(x.className, y.className) == 0
    requires rows[j].className == Merge(cmp, rows)[q].className
    ensures exists i :: 0 <= i < j && rows[i].className == Merge(cmp, rows)[p].className
  {
    var x, y := Merge(cmp, rows)[p], Merge(cmp, rows)[q];
    assert !RowBefore(cmp)(x, y) && !RowBefore(cmp)(y, x) by {
      assert cmp(x.className, y.className) < 0 <==> cmp(y.className, x.className) > 0;
      assert cmp(y.className, x.className) < 0 <==> cmp(x.className, y.className) > 0;
    }
    hide IsOrder, SortBy, Classes, StrictWeakOrder, RowBefore, FirstColor, Sum;
    RowBeforeIsAnOrder(cmp);
    var list := Unsorted(rows, Classes(rows));
    TiedKeepOrder(RowBefore(cmp), list, x, y);
    assert InOrder(SortBy(RowBefore(cmp), list), x, y);
    var a, b :| 0 <= a < b < |list| && list[a] == x && list[b] == y;
    ClassesAppear(rows, a, b, j);
  }

  /** A row has the colour of the first row of its class. */
  lemma RowHasFirstColor(cmp: (string, string) -> int, rows: seq<Row>, x: Row, i: nat)
    requires IsOrder(cmp) && x in Merge(cmp, rows)
    requires i < |rows| && rows[i].className == x.className
    requires forall j :: 0 <= j < i ==> rows[j].className != x.className
    ensures x.color == rows[i].color
  {
    hide Merge, Classes, FirstColor, Sum;
    MergeMembers(cmp, rows);
    FirstColorIs(rows, x.className, i);
  }

  lemma {:induction false} FirstColorIs(rows: seq<Row>, c: string, i: nat)
    requires i < |rows| && rows[i].className == c && forall j :: 0 <= j < i ==> rows[j].className != c
    ensures FirstColor(rows, c) == rows[i].color
  {
    hide Classes;
    var front := rows[..|rows| - 1];
    ClassesAreThose(front);
    if i < |front| {
      assert front[i].className == c;
      FirstColorIs(front, c, i);
    }
  }

  /** Where signals of a class and state stand in the list. */
  function Places(tracks: seq<Signal>, c: string, s: Shown): set<nat> {
    set i: nat | i < |tracks| && tracks[i].track.className == c && tracks[i].state == s
  }

  /** A row counts the places in the list that hold live and held signals of its class. */
  lemma RowsCountPlaces(cmp: (string, string) -> int, tracks: seq<Signal>, x: Row)
    requires IsOrder(cmp) && x in Merge(cmp, Units(tracks))
    ensures x.count.live == |Places(tracks, x.className, Live)|
    ensures x.count.held == |Places(tracks, x.className, Held)|
    ensures x.count.total == x.count.live + x.count.held
  {
    hide Merge, Units, Places, CountOf, Ordered, RowBefore;
    DerivedCounts(cmp, tracks);
    CountIsPlaces(tracks, x.className, Live);
    CountIsPlaces(tracks, x.className, Held);
  }

  lemma {:induction false} CountIsPlaces(tracks: seq<Signal>, c: string, s: Shown)
    ensures CountOf(tracks, Some(c), s) == |Places(tracks, c, s)|
  {
    if tracks != [] {
      var n := |tracks| - 1;
      CountIsPlaces(tracks[..n], c, s);
      PlacesOneMore(tracks, c, s);
    }
  }

  lemma PlacesOneMore(tracks: seq<Signal>, c: string, s: Shown)
    requires tracks != []
    ensures var n := |tracks| - 1;
            && n !in Places(tracks[..n], c, s)
            && Places(tracks, c, s) == Places(tracks[..n], c, s)
                                       + if tracks[n].track.className == c && tracks[n].state == s then {n} else {}
  {
  }

  /** Aggregation takes exactly the cameras' rows that count something, in order. */
  lemma {:induction false} CountedIsASubsequence(rows: seq<Row>) returns (at: seq<nat>)
    ensures Increasing(at) && forall i: nat :: i in at <==> i < |rows| && rows[i].count.total > 0
    ensures Picks(Counted(rows), rows, at)
  {
    at := [];
    if rows != [] {
      var n := |rows| - 1;
      var before := CountedIsASubsequence(rows[..n]);
      at := ChooseNext(before, n, rows[n].count.total > 0);
      hide Counted, Increasing, Picks;
      CountedOneMore(rows[..n], rows[n]);
      assert rows == rows[..n] + [rows[n]];
      PickNext(Counted(rows[..n]), rows, before);
    }
  }

  /** The elements of `s` stand in `rows` at these positions. */
  predicate Picks(s: seq<Row>, rows: seq<Row>, at: seq<nat>) {
    |s| == |at| && forall k :: 0 <= k < |at| ==> at[k] < |rows| && s[k] == rows[at[k]]
  }

  lemma PickNext(s: seq<Row>, rows: seq<Row>, before: seq<nat>)
    requires rows != [] && Picks(s, rows[..|rows| - 1], before)
    ensures Picks(s, rows, before) && Picks(s + [rows[|rows| - 1]], rows, before + [|rows| - 1])
  {
  }
}
