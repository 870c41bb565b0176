/** The sliding 30-minute sparkline of `frontend/src/hooks/use-live-sparkline.ts`.

    Times are integral milliseconds; `None` is an unparsable date, whose arithmetic is NaN. React applies state
    updaters in queue order, so each updater is a step. */
module Sparkline {
  import opened Common

  const COUNT: nat := 30
  const MINUTE: int := 60_000

  type Buckets = map<string, seq<int>>

  /** The remainder keeps the sign of the dividend. */
  function Remainder(a: int, b: int): int
    requires b > 0
  {
    if a >= 0 then a % b else -((-a) % b)
  }

  function FloorMinute(t: int): int { t - Remainder(t, MINUTE) }

  predicate Aligned(t: int) { t % MINUTE == 0 }

  lemma FloorMinuteAligned(t: int)
    ensures Aligned(FloorMinute(t))
    ensures t >= 0 ==> FloorMinute(t) <= t < FloorMinute(t) + MINUTE
    ensures t < 0 ==> FloorMinute(t) - MINUTE < t <= FloorMinute(t)
  {
  }

  /** Euclidean division by a positive number rounds down, as `Math.floor` of the quotient does. */
  function BucketIndex(t: int, end: int): int {
    COUNT - 1 - (end - t) / MINUTE
  }

  predicate InWindow(index: int) { 0 <= index < COUNT }

  function Zeros(n: nat): (z: seq<int>)
    ensures |z| == n && forall i :: 0 <= i < n ==> z[i] == 0
  {
    seq(n, _ => 0)
  }

  predicate Proper(b: Buckets) {
    forall c :: c in b ==> |b[c]| == COUNT
  }

  function SeriesOf(b: Buckets, c: string): (s: seq<int>)
    requires Proper(b)
    ensures |s| == COUNT
  {
    if c in b then b[c] else Zeros(COUNT)
  }

  function At(b: Buckets, c: string, i: int): int
    requires Proper(b) && InWindow(i)
  {
    SeriesOf(b, c)[i]
  }

  /** Raising one entry; an index that is NaN lands on no entry. */
  function Raised(s: seq<int>, index: Option<int>, count: int): (r: seq<int>)
    requires |s| == COUNT && (index.Some? ==> InWindow(index.value))
    ensures |r| == COUNT
  {
    if index.None? then s else s[index.value := Max(s[index.value], count)]
  }

  function Peaks(b: Buckets, counts: map<string, int>, index: Option<int>): (r: Buckets)
    requires Proper(b) && (index.Some? ==> InWindow(index.value))
    ensures Proper(r)
  {
    map c | c in b.Keys + counts.Keys :: if c in counts then Raised(SeriesOf(b, c), index, counts[c]) else b[c]
  }

  /** Dropping the oldest `n` entries and filling up with zeros. */
  function Slid(s: seq<int>, n: nat): (r: seq<int>)
    requires |s| == COUNT && n <= COUNT
    ensures |r| == COUNT
  {
    s[n..] + Zeros(n)
  }

  function Shift(b: Buckets, steps: int): (r: Buckets)
    requires Proper(b)
    ensures Proper(r)
  {
    if steps <= 0 then b
    else
      var capped: nat := if steps < COUNT then steps else COUNT;
      map c | c in b :: Slid(b[c], capped)
  }

  function Merge(b: Buckets, start: int, counts: map<string, int>, end: int): Buckets
    requires Proper(b)
  {
    var index := BucketIndex(start, end);
    if InWindow(index) then Peaks(b, counts, Some(index)) else b
  }

  function Empty(classes: seq<string>): (r: Buckets)
    ensures Proper(r)
  {
    map c | c in classes :: Zeros(COUNT)
  }

  // ----- the loops -----

  /** One more class is an update of what the classes before it gave. */
  lemma PeaksStep(b: Buckets, done: map<string, int>, index: Option<int>, c: string, count: int)
    requires Proper(b) && (index.Some? ==> InWindow(index.value)) && c !in done
    ensures var now := Peaks(b, done, index);
            Peaks(b, done[c := count], index) == now[c := Raised(SeriesOf(now, c), index, count)]
  {
    hide Raised;
  }

  method SetBucketPeaks(b: Buckets, counts: map<string, int>, index: Option<int>) returns (next: Buckets)
    requires Proper(b) && (index.Some? ==> InWindow(index.value))
    ensures next == Peaks(b, counts, index)
  {
    next := b;
    var todo := counts.Keys;
    ghost var done: map<string, int> := map[];
    NoPeaks(b, index);
    hide Raised, SeriesOf, Peaks;
    while |todo| > 0
      invariant todo <= counts.Keys && done.Keys == counts.Keys - todo
      invariant forall c :: c in done ==> done[c] == counts[c]
      invariant next == Peaks(b, done, index)
      decreases |todo|
    {
      ghost var some := Pick(todo);
      var c :| c in todo;
      PeaksStep(b, done, index, c, counts[c]);
      next := next[c := Raised(SeriesOf(next, c), index, counts[c])];
      todo := todo - {c};
      done := done[c := counts[c]];
    }
    assert done == counts;
  }

  lemma NoPeaks(b: Buckets, index: Option<int>)
    requires Proper(b) && (index.Some? ==> InWindow(index.value))
    ensures Peaks(b, map[], index) == b
  {
  }

  /** The classes slid so far. */
  predicate PartlySlid(b: Buckets, next: Buckets, todo: set<string>, capped: nat)
    requires Proper(b) && capped <= COUNT
  {
    && todo <= b.Keys && next.Keys == b.Keys - todo
    && forall c :: c in next ==> next[c] == Slid(b[c], capped)
  }

  lemma SlideOne(b: Buckets, next: Buckets, todo: set<string>, capped: nat, c: string)
    requires Proper(b) && capped <= COUNT && PartlySlid(b, next, todo, capped) && c in todo
    ensures c in b && PartlySlid(b, next[c := Slid(b[c], capped)], todo - {c}, capped)
  {
    hide Slid;
  }

  lemma AllSlid(b: Buckets, next: Buckets, steps: int)
    requires Proper(b) && steps > 0 && PartlySlid(b, next, {}, if steps < COUNT then steps else COUNT)
    ensures next == Shift(b, steps)
  {
    hide Slid;
  }

  method ShiftBuckets(b: Buckets, steps: int) returns (next: Buckets)
    requires Proper(b)
    ensures next == Shift(b, steps)
  {
    hide Slid, PartlySlid;
    if steps <= 0 {
      return b;
    }
    var capped: nat := if steps < COUNT then steps else COUNT;
    next := map[];
    var todo := b.Keys;
    NoneSlid(b, capped);
    while |todo| > 0
      invariant PartlySlid(b, next, todo, capped)
      decreases |todo|
    {
      ghost var some := Pick(todo);
      var c :| c in todo;
      SlideOne(b, next, todo, capped, c);
      next := next[c := Slid(b[c], capped)];
      todo := todo - {c};
    }
    AllSlid(b, next, steps);
  }

  lemma NoneSlid(b: Buckets, capped: nat)
    requires Proper(b) && capped <= COUNT
    ensures PartlySlid(b, map[], b.Keys, capped)
  {
  }

  method MergeOccupancySnapshot(b: Buckets, start: int, counts: map<string, int>, end: int) returns (next: Buckets)
    requires Proper(b)
    ensures next == Merge(b, start, counts, end)
  {
    var index := BucketIndex(start, end);
    if index < 0 || index >= COUNT {
      return b;
    }
    next := SetBucketPeaks(b, counts, Some(index));
  }

  // ----- the steps of the hook -----

  datatype Window = Window(end: int, buckets: Buckets)

  datatype Row = Row(start: Option<int>, values: map<string, int>)

  function MoveTo(w: Window, minute: int): (r: Window)
    requires Proper(w.buckets)
    ensures Proper(r.buckets)
  {
    var steps := (minute - w.end) / MINUTE;
    if steps > 0 then Window(w.end + steps * MINUTE, Shift(w.buckets, steps)) else w
  }

  function ApplyFrame(w: Window, ts: Option<int>, counts: map<string, int>): (r: Window)
    requires Proper(w.buckets)
    ensures Proper(r.buckets)
  {
    match ts
    case None => w.(buckets := Peaks(w.buckets, counts, None))
    case Some(t) =>
      var minute := FloorMinute(t);
      var moved := MoveTo(w, minute);
      if minute < moved.end - (COUNT - 1) * MINUTE || !InWindow(BucketIndex(minute, moved.end)) then moved
      else moved.(buckets := Peaks(moved.buckets, counts, Some(BucketIndex(minute, moved.end))))
  }

  function SeedRow(b: Buckets, r: Row, end: int): (s: Buckets)
    requires Proper(b)
    ensures Proper(s)
  {
    match r.start
    case None => Peaks(b, r.values, None)
    case Some(t) => if InWindow(BucketIndex(t, end)) then Peaks(b, r.values, Some(BucketIndex(t, end))) else b
  }

  function SeedRows(classes: seq<string>, rows: seq<Row>, end: int): (s: Buckets)
    ensures Proper(s)
  {
    if rows == [] then Empty(classes) else SeedRow(SeedRows(classes, rows[..|rows| - 1], end), rows[|rows| - 1], end)
  }

  class LiveSparkline {
    var windowEnd: int
    var buckets: Buckets

    ghost predicate Valid()
      reads this
    {
      Proper(buckets) && Aligned(windowEnd)
    }

    ghost function View(): Window
      reads this
    {
      Window(windowEnd, buckets)
    }

    constructor (now: int)
      ensures Valid() && View() == Window(FloorMinute(now), map[])
    {
      FloorMinuteAligned(now);
      windowEnd, buckets := FloorMinute(now), map[];
    }

    method RollWindowForward(now: int)
      requires Valid()
      modifies this
      ensures Valid() && View() == MoveTo(old(View()), FloorMinute(now))
    {
      var nowBucket := FloorMinute(now);
      var steps := (nowBucket - windowEnd) / MINUTE;
      if steps <= 0 {
        return;
      }
      windowEnd := windowEnd + steps * MINUTE;
      buckets := ShiftBuckets(buckets, steps);
    }

    method Apply(ts: Option<int>, counts: map<string, int>)
      requires Valid()
      modifies this
      ensures Valid() && View() == ApplyFrame(old(View()), ts, counts)
    {
      hide Peaks, Shift, FloorMinute;
      if ts.None? {
        buckets := SetBucketPeaks(buckets, counts, None);
        return;
      }
      var minute := FloorMinute(ts.value);
      FloorMinuteAligned(ts.value);
      var steps := (minute - windowEnd) / MINUTE;
      if steps > 0 {
        windowEnd := windowEnd + steps * MINUTE;
        buckets := ShiftBuckets(buckets, steps);
      }
      if minute < windowEnd - (COUNT - 1) * MINUTE {
        return;
      }
      var index := BucketIndex(minute, windowEnd);
      if index < 0 || index >= COUNT {
        return;
      }
      buckets := SetBucketPeaks(buckets, counts, Some(index));
    }

    method Seed(classes: seq<string>, rows: seq<Row>)
      requires Valid()
      modifies this`buckets
      ensures Valid() && View() == old(View()).(buckets := SeedRows(classes, rows, old(windowEnd)))
    {
      var seed := Empty(classes);
      for i := 0 to |rows|
        invariant seed == SeedRows(classes, rows[..i], windowEnd)
      {
        assert rows[..i + 1][..i] == rows[..i];
        var r := rows[i];
        if r.start.None? {
          seed := SetBucketPeaks(seed, r.values, None);
        } else {
          var index := BucketIndex(r.start.value, windowEnd);
          if 0 <= index < COUNT {
            seed := SetBucketPeaks(seed, r.values, Some(index));
          }
        }
      }
      assert rows[..|rows|] == rows;
      buckets := seed;
    }
  }

  // ----- agreement with history -----

  /** What was received for a minute. */
  datatype Obs = Obs(minute: int, counts: map<string, int>)

  /** The largest count of a class in a minute, 0 if none. */
  function Peak(h: seq<Obs>, c: string, minute: int): (p: int)
    ensures p >= 0
  {
    if h == [] then 0
    else
      var rest, o := Peak(h[..|h| - 1], c, minute), h[|h| - 1];
      if o.minute == minute && c in o.counts then Max(rest, o.counts[c]) else rest
  }

  /** The minute a seed row is filed under: rows are rounded up. */
  function RowMinute(t: int): int {
    t + (-t) % MINUTE
  }

  datatype Event =
    | Seeded(classes: seq<string>, rows: seq<Row>)
    | Frame(ts: Option<int>, counts: map<string, int>)
    | Tick(now: int)

  /** A window beside everything it has received. Seeding replaces both; rows later than the window are not
      part of the history. */
  datatype Run = Run(window: Window, history: seq<Obs>)

  function Received(rows: seq<Row>, end: int): seq<Obs> {
    if rows == [] then []
    else
      var rest, r := Received(rows[..|rows| - 1], end), rows[|rows| - 1];
      if r.start.Some? && RowMinute(r.start.value) <= end then rest + [Obs(RowMinute(r.start.value), r.values)]
      else rest
  }

  function Step(r: Run, e: Event): (s: Run)
    requires Proper(r.window.buckets)
    ensures Proper(s.window.buckets)
  {
    match e
    case Seeded(classes, rows) =>
      Run(r.window.(buckets := SeedRows(classes, rows, r.window.end)), Received(rows, r.window.end))
    case Frame(ts, counts) =>
      Run(ApplyFrame(r.window, ts, counts),
          if ts.Some? then r.history + [Obs(FloorMinute(ts.value), counts)] else r.history)
    case Tick(now) => r.(window := MoveTo(r.window, FloorMinute(now)))
  }

  function Steps(now: int, events: seq<Event>): (r: Run)
    ensures Proper(r.window.buckets)
  {
    if events == [] then Run(Window(FloorMinute(now), map[]), [])
    else Step(Steps(now, events[..|events| - 1]), events[|events| - 1])
  }

  /** The minute that bucket `i` stands for. */
  function MinuteOf(end: int, i: int): int { end - (COUNT - 1 - i) * MINUTE }

  /** Every bucket is the peak of its minute in the history. */
  ghost predicate Shows(w: Window, h: seq<Obs>)
    requires Proper(w.buckets)
  {
    forall c, i {:trigger At(w.buckets, c, i)} :: InWindow(i) ==> At(w.buckets, c, i) == Peak(h, c, MinuteOf(w.end, i))
  }

  ghost predicate Agrees(r: Run) {
    && Proper(r.window.buckets) && Aligned(r.window.end)
    && (forall k :: 0 <= k < |r.history| ==> r.history[k].minute <= r.window.end)
    && Shows(r.window, r.history)
  }

  lemma ShiftAt(b: Buckets, k: int, c: string, i: int)
    requires Proper(b) && k >= 0 && InWindow(i)
    ensures At(Shift(b, k), c, i) == if i + k < COUNT then At(b, c, i + k) else 0
  {
  }

  lemma PeaksAt(b: Buckets, counts: map<string, int>, index: Option<int>, c: string, i: int)
    requires Proper(b) && (index.Some? ==> InWindow(index.value)) && InWindow(i)
    ensures At(Peaks(b, counts, index), c, i) ==
            if index == Some(i) && c in counts then Max(At(b, c, i), counts[c]) else At(b, c, i)
  {
  }

  lemma PeakSnoc(h: seq<Obs>, o: Obs, c: string, minute: int)
    ensures Peak(h + [o], c, minute) ==
            if o.minute == minute && c in o.counts then Max(Peak(h, c, minute), o.counts[c]) else Peak(h, c, minute)
  {
    assert (h + [o])[..|h|] == h;
  }

  /** Nothing was received for a minute later than everything received. */
  lemma {:induction false} NoPeakAfter(h: seq<Obs>, c: string, minute: int)
    requires forall k :: 0 <= k < |h| ==> h[k].minute < minute
    ensures Peak(h, c, minute) == 0
  {
    if h != [] {
      NoPeakAfter(h[..|h| - 1], c, minute);
    }
  }

  /** Shifts add up, up to the point where everything has left the window. */
  lemma ShiftsCompose(b: Buckets, k: int, n: int)
    requires Proper(b) && k >= 0 && n >= 0
    ensures Shift(Shift(b, k), n) == Shift(b, k + n)
  {
    hide Slid;
    var x, y := Shift(Shift(b, k), n), Shift(b, k + n);
    assert x.Keys == y.Keys == b.Keys;
    forall c | c in b
      ensures x[c] == y[c]
    {
      forall i | 0 <= i < COUNT
        ensures x[c][i] == y[c][i]
      {
        ShiftAt(b, k + n, c, i);
        ShiftAt(Shift(b, k), n, c, i);
        if i + n < COUNT {
          ShiftAt(b, k, c, i + n);
        }
      }
    }
  }

  lemma LaterIndex(start: int, end: int, k: nat)
    requires Aligned(end) && RowMinute(start) <= end
    ensures BucketIndex(start, end + k * MINUTE) == BucketIndex(start, end) - k && BucketIndex(start, end) < COUNT
  {
  }

  /** For a snapshot no later than the window, whole minute or not, merging and then shifting reads the same
      everywhere as shifting and then merging into the later window. */
  lemma MergeCommutesWithShift(b: Buckets, start: int, counts: map<string, int>, end: int, k: nat, c: string, i: int)
    requires Proper(b) && Aligned(end) && RowMinute(start) <= end && InWindow(i)
    ensures At(Shift(Merge(b, start, counts, end), k), c, i) ==
            Max(At(Merge(Shift(b, k), start, counts, end + k * MINUTE), c, i),
                At(Shift(b, k), c, i))
    ensures (forall d :: d in counts ==> counts[d] >= 0) ==>
            At(Shift(Merge(b, start, counts, end), k), c, i) ==
            At(Merge(Shift(b, k), start, counts, end + k * MINUTE), c, i)
  {
    hide Peaks, Shift, At;
    var index := BucketIndex(start, end);
    LaterIndex(start, end, k);
    ShiftAt(Merge(b, start, counts, end), k, c, i);
    ShiftAt(b, k, c, i);
    if InWindow(index) && i + k < COUNT {
      PeaksAt(b, counts, Some(index), c, i + k);
    }
    if InWindow(index - k) {
      PeaksAt(Shift(b, k), counts, Some(index - k), c, i);
    }
  }

  lemma MoveAgrees(r: Run, minute: int)
    requires Agrees(r) && Aligned(minute)
    ensures Agrees(Run(MoveTo(r.window, minute), r.history))
    ensures MoveTo(r.window, minute).end == Max(r.window.end, minute)
  {
    hide At, Shift, Peak;
    var b, end, h := r.window.buckets, r.window.end, r.history;
    var steps := (minute - end) / MINUTE;
    var next := MoveTo(r.window, minute);
    if steps > 0 {
      assert steps * MINUTE == minute - end;
      forall c, i {:trigger At(next.buckets, c, i)} | InWindow(i)
        ensures At(next.buckets, c, i) == Peak(h, c, MinuteOf(next.end, i))
      {
        ShiftAt(b, steps, c, i);
        if i + steps < COUNT {
          assert MinuteOf(next.end, i) == MinuteOf(end, i + steps);
          assert At(b, c, i + steps) == Peak(h, c, MinuteOf(end, i + steps));
        } else {
          NoPeakAfter(h, c, MinuteOf(next.end, i));
        }
      }
    }
  }

  /** Filing an observation no later than the window keeps the agreement; an old one changes nothing visible. */
  lemma FileAgrees(w: Window, h: seq<Obs>, o: Obs)
    requires Agrees(Run(w, h)) && Aligned(o.minute) && o.minute <= w.end
    ensures var index := BucketIndex(o.minute, w.end);
            Agrees(Run(if InWindow(index) then w.(buckets := Peaks(w.buckets, o.counts, Some(index))) else w, h + [o]))
  {
    hide At, Peaks, Peak;
    var index := BucketIndex(o.minute, w.end);
    var next := if InWindow(index) then w.(buckets := Peaks(w.buckets, o.counts, Some(index))) else w;
    forall c, i {:trigger At(next.buckets, c, i)} | InWindow(i)
      ensures At(next.buckets, c, i) == Peak(h + [o], c, MinuteOf(w.end, i))
    {
      PeakSnoc(h, o, c, MinuteOf(w.end, i));
      assert At(w.buckets, c, i) == Peak(h, c, MinuteOf(w.end, i));
      assert o.minute == MinuteOf(w.end, i) <==> index == i;
      if InWindow(index) {
        PeaksAt(w.buckets, o.counts, Some(index), c, i);
      }
    }
  }

  /** An undated observation adds rows of zeros at most. */
  lemma UndatedAgrees(w: Window, h: seq<Obs>, counts: map<string, int>)
    requires Agrees(Run(w, h))
    ensures Agrees(Run(w.(buckets := Peaks(w.buckets, counts, None)), h))
  {
    hide At, Peaks, Peak;
    var next := Peaks(w.buckets, counts, None);
    forall c, i {:trigger At(next, c, i)} | InWindow(i)
      ensures At(next, c, i) == Peak(h, c, MinuteOf(w.end, i))
    {
      PeaksAt(w.buckets, counts, None, c, i);
      assert At(w.buckets, c, i) == Peak(h, c, MinuteOf(w.end, i));
    }
  }

  lemma RowFiled(t: int, end: int)
    requires Aligned(end)
    ensures Aligned(RowMinute(t)) && BucketIndex(t, end) == BucketIndex(RowMinute(t), end)
    ensures RowMinute(t) > end ==> !InWindow(BucketIndex(t, end))
    ensures Aligned(t) ==> RowMinute(t) == t == FloorMinute(t)
  {
  }

  lemma {:induction false} SeedAgrees(classes: seq<string>, rows: seq<Row>, end: int)
    requires Aligned(end)
    ensures Agrees(Run(Window(end, SeedRows(classes, rows, end)), Received(rows, end)))
  {
    if rows != [] {
      hide Agrees, Peaks, BucketIndex, RowMinute;
      var front, r := rows[..|rows| - 1], rows[|rows| - 1];
      SeedAgrees(classes, front, end);
      var w := Window(end, SeedRows(classes, front, end));
      match r.start
      case None => UndatedAgrees(w, Received(front, end), r.values);
      case Some(t) =>
        RowFiled(t, end);
        if RowMinute(t) <= end {
          FileAgrees(w, Received(front, end), Obs(RowMinute(t), r.values));
        }
    } else {
      forall c, i {:trigger At(Empty(classes), c, i)} | InWindow(i)
        ensures At(Empty(classes), c, i) == 0
      {
      }
    }
  }

  lemma StepAgrees(r: Run, e: Event)
    requires Agrees(r)
    ensures Agrees(Step(r, e)) && Step(r, e).window.end >= r.window.end
  {
    hide Agrees, Peaks, FloorMinute, SeedRows, Received;
    match e
    case Seeded(classes, rows) =>
      AgreesAligned(r);
      SeedAgrees(classes, rows, r.window.end);
    case Frame(ts, counts) =>
      if ts.Some? {
        FloorMinuteAligned(ts.value);
        AgreesAligned(r);
        MoveAgrees(r, FloorMinute(ts.value));
        AgreesAligned(Run(MoveTo(r.window, FloorMinute(ts.value)), r.history));
        FrameIndex(MoveTo(r.window, FloorMinute(ts.value)), FloorMinute(ts.value));
        FileAgrees(MoveTo(r.window, FloorMinute(ts.value)), r.history, Obs(FloorMinute(ts.value), counts));
      } else {
        UndatedAgrees(r.window, r.history, counts);
      }
    case Tick(now) =>
      FloorMinuteAligned(now);
      MoveAgrees(r, FloorMinute(now));
  }

  lemma AgreesAligned(r: Run)
    requires Agrees(r)
    ensures Aligned(r.window.end) && Proper(r.window.buckets)
  {
  }

  lemma FrameIndex(w: Window, minute: int)
    requires Aligned(w.end) && Aligned(minute)
    ensures minute < w.end - (COUNT - 1) * MINUTE ==> !InWindow(BucketIndex(minute, w.end))
  {
  }

  /** After any seeding, frames in any order and minute ticks, bucket `i` of every class is the largest count
      received for its minute, 0 if none; the window stays aligned to minutes. */
  lemma {:induction false} BucketsArePeaks(now: int, events: seq<Event>)
    ensures Agrees(Steps(now, events))
  {
    if events == [] {
      FloorMinuteAligned(now);
    } else {
      hide Agrees, Step;
      BucketsArePeaks(now, events[..|events| - 1]);
      StepAgrees(Steps(now, events[..|events| - 1]), events[|events| - 1]);
    }
  }

  /** The window never moves back. */
  lemma {:induction false} WindowNeverMovesBack(now: int, events: seq<Event>, k: nat)
    requires k <= |events|
    ensures Steps(now, events[..k]).window.end <= Steps(now, events).window.end
    decreases |events|
  {
    if k < |events| {
      hide Agrees, Step;
      var front := events[..|events| - 1];
      assert front[..k] == events[..k];
      WindowNeverMovesBack(now, front, k);
      BucketsArePeaks(now, front);
      StepAgrees(Steps(now, front), events[|events| - 1]);
    } else {
      assert events[..k] == events;
    }
  }

  // ----- seed rows later than the window -----

  /** A seed row later than the window is dropped for good: when the window reaches its minute the bucket
      reads 0, whatever the row counted. */
  lemma LateRowIsForgotten(r: Run, classes: seq<string>, rows: seq<Row>, k: nat, c: string)
    requires Agrees(r) && k < |rows| && rows[k].start.Some? && RowMinute(rows[k].start.value) > r.window.end
    ensures var minute := RowMinute(rows[k].start.value);
            var late := Step(Step(r, Seeded(classes, rows)), Tick(minute));
            late.window.end == minute && At(late.window.buckets, c, COUNT - 1) == 0
  {
    hide Peaks, SeedRows, Received, At;
    var minute := RowMinute(rows[k].start.value);
    var seeded := Step(r, Seeded(classes, rows));
    StepAgrees(r, Seeded(classes, rows));
    RowFiled(rows[k].start.value, r.window.end);
    assert FloorMinute(minute) == minute by {
      RowFiled(minute, r.window.end);
    }
    MoveAgrees(seeded, minute);
    NoPeakAfter(seeded.history, c, minute);
    assert MinuteOf(minute, COUNT - 1) == minute;
  }

  /** All dated rows of a seed, late or not. */
  function Dated(rows: seq<Row>): seq<Obs> {
    if rows == [] then []
    else
      var rest, r := Dated(rows[..|rows| - 1]), rows[|rows| - 1];
      if r.start.Some? then rest + [Obs(RowMinute(r.start.value), r.values)] else rest
  }

  function FramesOf(events: seq<Event>): seq<Obs> {
    if events == [] then []
    else
      var rest, e := FramesOf(events[..|events| - 1]), events[|events| - 1];
      if e.Frame? && e.ts.Some? then rest + [Obs(FloorMinute(e.ts.value), e.counts)] else rest
  }

  function Continue(r: Run, events: seq<Event>): (s: Run)
    requires Proper(r.window.buckets)
    ensures Proper(s.window.buckets)
  {
    if events == [] then r else Step(Continue(r, events[..|events| - 1]), events[|events| - 1])
  }

  /** Frames and minute ticks, without another seeding. */
  predicate Unseeded(events: seq<Event>) {
    forall k :: 0 <= k < |events| ==> !events[k].Seeded?
  }

  /** A row beyond the window counts something. */
  predicate LateCount(rows: seq<Row>, end: int, k: int, c: string) {
    && 0 <= k < |rows| && rows[k].start.Some? && RowMinute(rows[k].start.value) > end
    && c in rows[k].values && rows[k].values[c] > 0
  }

  lemma {:induction false} ContinueAgrees(r: Run, events: seq<Event>)
    requires Agrees(r) && Unseeded(events)
    ensures Agrees(Continue(r, events)) && Continue(r, events).history == r.history + FramesOf(events)
  {
    if events == [] {
      assert r.history + [] == r.history;
    } else {
      hide Agrees, ApplyFrame, MoveTo;
      var front, e := events[..|events| - 1], events[|events| - 1];
      assert Unseeded(front);
      ContinueAgrees(r, front);
      StepAgrees(Continue(r, front), e);
      assert forall o :: r.history + (FramesOf(front) + [o]) == r.history + FramesOf(front) + [o];
    }
  }

  lemma {:induction false} PeakJoin(g: seq<Obs>, h: seq<Obs>, c: string, minute: int)
    ensures Peak(g + h, c, minute) == Max(Peak(g, c, minute), Peak(h, c, minute))
  {
    if h == [] {
      assert g + h == g;
    } else {
      var front, o := h[..|h| - 1], h[|h| - 1];
      PeakJoin(g, front, c, minute);
      assert g + h == (g + front) + [o] && h == front + [o];
      PeakSnoc(g + front, o, c, minute);
      PeakSnoc(front, o, c, minute);
    }
  }

  /** Rows beyond the window that count nothing do not show. */
  lemma {:induction false} LateRowsCountNothing(rows: seq<Row>, end: int, c: string, minute: int)
    requires forall k :: !LateCount(rows, end, k, c)
    ensures Peak(Dated(rows), c, minute) == Peak(Received(rows, end), c, minute)
  {
    if rows != [] {
      hide RowMinute;
      var front, r := rows[..|rows| - 1], rows[|rows| - 1];
      assert forall k :: LateCount(front, end, k, c) ==> LateCount(rows, end, k, c);
      assert !LateCount(rows, end, |rows| - 1, c);
      LateRowsCountNothing(front, end, c, minute);
      if r.start.Some? {
        PeakSnoc(Dated(front), Obs(RowMinute(r.start.value), r.values), c, minute);
        PeakSnoc(Received(front, end), Obs(RowMinute(r.start.value), r.values), c, minute);
      }
    }
  }

  lemma {:induction false} RowIsCounted(rows: seq<Row>, k: nat, c: string)
    requires k < |rows| && rows[k].start.Some? && c in rows[k].values
    ensures Peak(Dated(rows), c, RowMinute(rows[k].start.value)) >= rows[k].values[c]
  {
    hide RowMinute;
    var front, r := rows[..|rows| - 1], rows[|rows| - 1];
    if r.start.Some? {
      PeakSnoc(Dated(front), Obs(RowMinute(r.start.value), r.values), c, RowMinute(rows[k].start.value));
    }
    if k < |front| {
      RowIsCounted(front, k, c);
    }
  }

  /** After seeding, every continuation by frames and ticks shows the peaks of all dated rows and frames exactly when
      no row beyond the window at seeding counts anything. */
  lemma SeedShowsAllRowsIff(r: Run, classes: seq<string>, rows: seq<Row>)
    requires Agrees(r)
    ensures (forall events :: Unseeded(events) ==>
               Shows(Continue(Step(r, Seeded(classes, rows)), events).window, Dated(rows) + FramesOf(events)))
       <==> forall k, c :: !LateCount(rows, r.window.end, k, c)
  {
    hide Agrees, Step, Continue, Shows, FramesOf, LateCount, Dated, Received;
    AgreesAligned(r);
    var seeded := Step(r, Seeded(classes, rows));
    StepAgrees(r, Seeded(classes, rows));
    if k, c :| LateCount(rows, r.window.end, k, c) {
      var events := LateRowShows(r, classes, rows, k, c);
    } else {
      forall events | Unseeded(events)
        ensures Shows(Continue(seeded, events).window, Dated(rows) + FramesOf(events))
      {
        AllRowsShow(r, classes, rows, events);
      }
    }
  }

  lemma OneTick(r: Run, minute: int)
    requires Proper(r.window.buckets)
    ensures Continue(r, [Tick(minute)]) == Step(r, Tick(minute))
  {
    hide Step;
    assert [Tick(minute)][..|[Tick(minute)]| - 1] == [];
    assert Continue(r, []) == r;
  }

  /** The tick to a late row's minute shows that the row is missing. */
  lemma LateRowShows(r: Run, classes: seq<string>, rows: seq<Row>, k: int, c: string) returns (events: seq<Event>)
    requires Agrees(r) && LateCount(rows, r.window.end, k, c)
    ensures Unseeded(events)
    ensures !Shows(Continue(Step(r, Seeded(classes, rows)), events).window, Dated(rows) + FramesOf(events))
  {
    hide Agrees, Step, At, Peak, Dated, RowMinute;
    AgreesAligned(r);
    var minute := RowMinute(rows[k].start.value);
    events := [Tick(minute)];
    LateRowIsForgotten(r, classes, rows, k, c);
    RowIsCounted(rows, k, c);
    var after := Continue(Step(r, Seeded(classes, rows)), events).window;
    OneTick(Step(r, Seeded(classes, rows)), minute);
    assert Dated(rows) + FramesOf(events) == Dated(rows);
    assert MinuteOf(after.end, COUNT - 1) == minute;
    assert At(after.buckets, c, COUNT - 1) == 0;
  }

  lemma AllRowsShow(r: Run, classes: seq<string>, rows: seq<Row>, events: seq<Event>)
    requires Agrees(r) && Unseeded(events) && forall k, c :: !LateCount(rows, r.window.end, k, c)
    ensures Shows(Continue(Step(r, Seeded(classes, rows)), events).window, Dated(rows) + FramesOf(events))
  {
    hide Continue, FramesOf, Dated, Received, Peak, At, LateCount, SeedRows;
    var seeded, end := Step(r, Seeded(classes, rows)), r.window.end;
    StepAgrees(r, Seeded(classes, rows));
    ContinueAgrees(seeded, events);
    var after := Continue(seeded, events);
    assert after.history == Received(rows, end) + FramesOf(events);
    forall c, i {:trigger At(after.window.buckets, c, i)} | InWindow(i)
      ensures At(after.window.buckets, c, i) == Peak(Dated(rows) + FramesOf(events), c, MinuteOf(after.window.end, i))
    {
      var minute := MinuteOf(after.window.end, i);
      LateRowsCountNothing(rows, end, c, minute);
      PeakJoin(Received(rows, end), FramesOf(events), c, minute);
      PeakJoin(Dated(rows), FramesOf(events), c, minute);
    }
  }
}
