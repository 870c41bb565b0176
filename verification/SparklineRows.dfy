/** Which classes the sparkline has a row for, and what stands in it, in plain minutes:
    `frontend/src/hooks/use-live-sparkline.ts`. */
module SparklineRows {
  import opened Common
  import opened Sparkline

  /** A row of the seed that lands in the window ending at `end`; one without a readable date lands nowhere, but its
      classes are not skipped. */
  predicate Filed(start: Option<int>, end: int) {
    start.Some? ==> end - 1_800_000 < start.value <= end
  }

  lemma FiledIff(t: int, end: int)
    ensures InWindow(BucketIndex(t, end)) <==> Filed(Some(t), end)
  {
  }

  lemma {:induction false} SeededClasses(classes: seq<string>, rows: seq<Row>, end: int, c: string)
    ensures c in SeedRows(classes, rows, end) <==>
            c in classes || exists k :: 0 <= k < |rows| && c in rows[k].values && Filed(rows[k].start, end)
  {
    hide Filed, BucketIndex, InWindow, Raised, SeriesOf;
    if rows != [] {
      var n := |rows| - 1;
      var front, r := rows[..n], rows[n];
      SeededClasses(classes, front, end, c);
      if r.start.Some? {
        FiledIff(r.start.value, end);
      } else {
        UndatedIsFiled(end);
      }
      if k :| 0 <= k < |front| && c in front[k].values && Filed(front[k].start, end) {
        assert rows[k] == front[k];
      }
    }
  }

  lemma UndatedIsFiled(end: int)
    ensures Filed(None, end)
  {
  }

  /** Seeding gives a row to every class the answer names, and to those of its rows inside the window or undated; no
      other class has one. */
  lemma SeedNamesItsClasses(r: Run, classes: seq<string>, rows: seq<Row>, c: string)
    requires Proper(r.window.buckets)
    ensures c in Step(r, Seeded(classes, rows)).window.buckets <==>
            c in classes
            || exists k :: 0 <= k < |rows| && c in rows[k].values && Filed(rows[k].start, r.window.end)
  {
    hide SeedRows, Filed;
    SeededClasses(classes, rows, r.window.end, c);
  }

  /** A frame adds rows for the classes it counts, unless it is older than the window. */
  lemma FrameNamesItsClasses(r: Run, ts: Option<int>, counts: map<string, int>, c: string)
    requires Agrees(r)
    ensures var after := Step(r, Frame(ts, counts)).window;
            && c in after.buckets <==>
               c in r.window.buckets
               || (c in counts && (ts.Some? ==> FloorMinute(ts.value) >= after.end - 1_740_000))
  {
    hide Peak, Raised, SeriesOf, FloorMinute, Slid, Shows;
    if ts.Some? {
      FloorMinuteAligned(ts.value);
    }
  }

  lemma TickNamesNothing(r: Run, now: int)
    requires Proper(r.window.buckets)
    ensures Step(r, Tick(now)).window.buckets.Keys == r.window.buckets.Keys
  {
    hide FloorMinute, Slid;
  }

  /** A class keeps its row until the next seeding. */
  lemma {:induction false} RowsStay(r: Run, events: seq<Event>, c: string)
    requires Agrees(r) && Unseeded(events) && c in r.window.buckets
    ensures c in Continue(r, events).window.buckets
  {
    if events != [] {
      hide Agrees, ApplyFrame, MoveTo;
      var front, e := events[..|events| - 1], events[|events| - 1];
      assert Unseeded(front) && Unseeded(events) && !e.Seeded?;
      RowsStay(r, front, c);
      ContinueAgrees(r, front);
      if e.Frame? {
        FrameNamesItsClasses(Continue(r, front), e.ts, e.counts, c);
      } else {
        TickNamesNothing(Continue(r, front), e.now);
      }
    }
  }

  /** After any events every row holds 30 numbers, the last one for the window's minute and each before it for a minute
      earlier: the peak of what was received for that minute. */
  lemma RowsInMinutes(now: int, events: seq<Event>, c: string, i: nat)
    requires i < 30
    ensures var w, h := Steps(now, events).window, Steps(now, events).history;
            && w.end % 60_000 == 0
            && (c in w.buckets ==> |w.buckets[c]| == 30
                                   && w.buckets[c][i] == Peak(h, c, w.end - (29 - i) * 60_000))
            && (c !in w.buckets ==> Peak(h, c, w.end - (29 - i) * 60_000) == 0)
  {
    hide Steps, Peak;
    BucketsArePeaks(now, events);
    var w := Steps(now, events).window;
    assert InWindow(i);
    assert At(w.buckets, c, i) == Peak(Steps(now, events).history, c, MinuteOf(w.end, i));
  }

  /** The peak is the largest count received for the class in the minute, or 0. */
  lemma {:induction false} PeakIsLargest(h: seq<Obs>, c: string, minute: int)
    ensures forall k :: 0 <= k < |h| && h[k].minute == minute && c in h[k].counts ==>
              h[k].counts[c] <= Peak(h, c, minute)
    ensures Peak(h, c, minute) > 0 ==>
              exists k :: 0 <= k < |h| && h[k].minute == minute && c in h[k].counts
                          && h[k].counts[c] == Peak(h, c, minute)
  {
    if h != [] {
      var front := h[..|h| - 1];
      PeakIsLargest(front, c, minute);
      if k :| 0 <= k < |front| && front[k].minute == minute && c in front[k].counts
              && front[k].counts[c] == Peak(front, c, minute) {
        assert h[k] == front[k];
      }
    }
  }

  /** Frames are filed under the last whole minute, before the epoch under the next one. */
  lemma FrameMinutes(t: int)
    ensures FloorMinute(t) % 60_000 == 0
    ensures if t >= 0 then FloorMinute(t) <= t < FloorMinute(t) + 60_000
            else FloorMinute(t) - 60_000 < t <= FloorMinute(t)
  {
    hide FloorMinute;
    FloorMinuteAligned(t);
  }

  /** Seed rows are filed under the next whole minute. */
  lemma RowMinutes(t: int)
    ensures RowMinute(t) % 60_000 == 0 && RowMinute(t) - 60_000 < t <= RowMinute(t)
  {
    var down := (-t) / MINUTE;
    assert -t == down * MINUTE + (-t) % MINUTE;
    assert RowMinute(t) == -down * MINUTE;
  }

  /** The window's last minute after a step: never earlier than before, and not before the minute of the frame or of
      the clock. */
  lemma WindowEnds(r: Run, e: Event)
    requires Agrees(r)
    ensures Step(r, e).window.end ==
            match e
            case Seeded(_, _) => r.window.end
            case Frame(None, _) => r.window.end
            case Frame(Some(t), _) => if FloorMinute(t) > r.window.end then FloorMinute(t) else r.window.end
            case Tick(now) => if FloorMinute(now) > r.window.end then FloorMinute(now) else r.window.end
  {
    hide Agrees, Peaks, SeedRows, Received, FloorMinute, Shift;
    match e
    case Seeded(_, _) =>
    case Frame(ts, _) =>
      if ts.Some? {
        FloorMinuteAligned(ts.value);
        MoveAgrees(r, FloorMinute(ts.value));
      }
    case Tick(now) =>
      FloorMinuteAligned(now);
      MoveAgrees(r, FloorMinute(now));
  }
}
