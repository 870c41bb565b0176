/** Holding, expiring and counting live signals: `frontend/src/lib/live-signal-stability.ts`.

    `cmp` stands for `localeCompare`, `colorFor` for the class colours. Times are integral milliseconds. */
module SignalStability {
  import opened Common
  import opened Sorting

  type Color = nat

  datatype TrackState = Active | Coasting | Unstated

  datatype Track = Track(
    className: string, trackId: int, stableId: Option<int>, state: TrackState, lastSeenAge: Option<int>)

  datatype Shown = Live | Held

  datatype Signal = Signal(
    key: string, track: Track, color: Color, state: Shown, firstSeen: int, lastSeen: int, age: int)

  // ----- keys -----

  function Digits(n: nat): (s: string)
    ensures s != [] && forall i :: 0 <= i < |s| ==> '0' <= s[i] <= '9'
  {
    (if n < 10 then [] else Digits(n / 10)) + [(n % 10) as char + '0']
  }

  function Show(n: int): string {
    if n >= 0 then Digits(n) else "-" + Digits(-n)
  }

  function Value(s: string): int {
    if s == [] then 0 else Value(s[..|s| - 1]) * 10 + (s[|s| - 1] as int - '0' as int)
  }

  lemma {:induction false} DigitsValue(n: nat)
    ensures Value(Digits(n)) == n
  {
    var front := if n < 10 then [] else Digits(n / 10);
    assert Digits(n)[..|front|] == front;
    if n >= 10 {
      DigitsValue(n / 10);
    }
  }

  lemma ShowInjective(m: int, n: int)
    requires Show(m) == Show(n)
    ensures m == n
  {
    DigitsValue(if m >= 0 then m else -m);
    DigitsValue(if n >= 0 then n else -n);
    assert (Show(m)[0] == '-' <==> m < 0) && (Show(n)[0] == '-' <==> n < 0);
    assert m < 0 ==> Show(m)[1..] == Digits(-m);
    assert n < 0 ==> Show(n)[1..] == Digits(-n);
  }

  lemma ShowHasNoColon(n: int)
    ensures ':' !in Show(n)
  {
  }

  function Identity(t: Track): int { if t.stableId.Some? then t.stableId.value else t.trackId }

  function TrackKey(t: Track): string { t.className + ":" + Show(Identity(t)) }

  lemma LastColon(a: string, x: string, b: string, y: string)
    requires a + ":" + x == b + ":" + y && ':' !in x && ':' !in y
    ensures a == b && x == y
  {
    var s := a + ":" + x;
    assert s[|a|] == ':' && (b + ":" + y)[|b|] == ':';
    assert forall i :: |a| < i < |s| ==> s[i] == x[i - |a| - 1];
    assert forall i :: |b| < i < |s| ==> s[i] == y[i - |b| - 1];
    assert |a| == |b|;
    assert a == s[..|a|] && b == s[..|a|] && x == s[|a| + 1..] && y == s[|a| + 1..];
  }

  /** Keys tell tracks apart by class and identity, also when class names contain colons. */
  lemma TrackKeyIsFaithful(s: Track, t: Track)
    ensures TrackKey(s) == TrackKey(t) <==> s.className == t.className && Identity(s) == Identity(t)
  {
    if TrackKey(s) == TrackKey(t) {
      ShowHasNoColon(Identity(s));
      ShowHasNoColon(Identity(t));
      LastColon(s.className, Show(Identity(s)), t.className, Show(Identity(t)));
      ShowInjective(Identity(s), Identity(t));
    }
  }

  // ----- one update -----

  /** `hold` and `grace` are the two windows; `active` is the class filter, which an empty list switches off. */
  datatype Options = Options(
    cmp: (string, string) -> int, colorFor: string -> Color, active: Option<seq<string>>, hold: int, grace: int)

  predicate Permits(active: Option<seq<string>>, className: string) {
    active.None? || active.value == [] || className in active.value
  }

  function StateOf(t: Track): Shown { if t.state.Coasting? then Held else Live }

  function AgeOf(t: Track): int {
    if !t.state.Coasting? then 0 else Max(0, if t.lastSeenAge.Some? then t.lastSeenAge.value else 0)
  }

  /** The entry that a Map built from the list holds under a key: the last one. */
  function Find(s: seq<Signal>, k: string): Option<Signal> {
    if s == [] then None
    else if s[|s| - 1].key == k then Some(s[|s| - 1])
    else Find(s[..|s| - 1], k)
  }

  /** Map.set: a new key joins the end, a known one keeps its position. */
  function Put(s: seq<Signal>, x: Signal): seq<Signal> {
    if Find(s, x.key).None? then s + [x]
    else if s[|s| - 1].key == x.key then s[..|s| - 1] + [x]
    else Put(s[..|s| - 1], x) + [s[|s| - 1]]
  }

  function MakeSignal(o: Options, previous: seq<Signal>, now: int, t: Track): Signal {
    var existing := Find(previous, TrackKey(t));
    Signal(TrackKey(t), t, o.colorFor(t.className), StateOf(t),
           if existing.Some? then existing.value.firstSeen else now, now, AgeOf(t))
  }

  function FromFrame(o: Options, previous: seq<Signal>, now: int, tracks: seq<Track>): seq<Signal> {
    if tracks == [] then []
    else
      var rest, t := FromFrame(o, previous, now, tracks[..|tracks| - 1]), tracks[|tracks| - 1];
      if Permits(o.active, t.className) then Put(rest, MakeSignal(o, previous, now, t)) else rest
  }

  /** What becomes of an entry that the frame does not mention. */
  function Carried(o: Options, hasFrame: bool, now: int, item: Signal): Option<Signal> {
    var age := now - item.lastSeen;
    if !Permits(o.active, item.track.className) then None
    else if !hasFrame && item.state.Live? && age <= o.grace then Some(item.(state := Live, age := age))
    else if age <= o.hold then Some(item.(state := Held, age := age))
    else None
  }

  function CarryOver(o: Options, hasFrame: bool, now: int, entries: seq<Signal>, previous: seq<Signal>): seq<Signal> {
    if previous == [] then entries
    else
      var rest, item := CarryOver(o, hasFrame, now, entries, previous[..|previous| - 1]), previous[|previous| - 1];
      if Find(rest, item.key).Some? then rest
      else match Carried(o, hasFrame, now, item)
        case None => rest
        case Some(x) => Put(rest, x)
  }

  function CompareSignals(cmp: (string, string) -> int, a: Signal, b: Signal): int {
    if a.state != b.state then if a.state.Live? then -1 else 1
    else
      var names := cmp(a.track.className, b.track.className);
      if names != 0 then names else a.track.trackId - b.track.trackId
  }

  function Before(cmp: (string, string) -> int): (Signal, Signal) -> bool {
    (a, b) => CompareSignals(cmp, a, b) < 0
  }

  function SortSignals(cmp: (string, string) -> int, s: seq<Signal>): seq<Signal> {
    SortBy(Before(cmp), s)
  }

  function Update(o: Options, previous: seq<Signal>, frame: Option<seq<Track>>, now: int): seq<Signal> {
    var tracks := if frame.Some? then frame.value else [];
    SortSignals(o.cmp, CarryOver(o, frame.Some?, now, FromFrame(o, previous, now, tracks), previous))
  }

  method UpdateSignalTracks(o: Options, previous: seq<Signal>, frame: Option<seq<Track>>, now: int)
    returns (result: seq<Signal>)
    ensures result == Update(o, previous, frame, now)
  {
    hide Put, Find, MakeSignal, SortSignals;
    var tracks := if frame.Some? then frame.value else [];
    var nextByKey: seq<Signal> := [];
    for i := 0 to |tracks|
      invariant nextByKey == FromFrame(o, previous, now, tracks[..i])
    {
      assert tracks[..i + 1][..i] == tracks[..i];
      if Permits(o.active, tracks[i].className) {
        nextByKey := Put(nextByKey, MakeSignal(o, previous, now, tracks[i]));
      }
    }
    assert tracks[..|tracks|] == tracks;
    ghost var entries := nextByKey;
    for i := 0 to |previous|
      invariant nextByKey == CarryOver(o, frame.Some?, now, entries, previous[..i])
    {
      assert previous[..i + 1][..i] == previous[..i];
      var item := previous[i];
      if Find(nextByKey, item.key).None? && Permits(o.active, item.track.className) {
        var age := now - item.lastSeen;
        if frame.None? && item.state.Live? && age <= o.grace {
          nextByKey := Put(nextByKey, item.(state := Live, age := age));
        } else if age <= o.hold {
          nextByKey := Put(nextByKey, item.(state := Held, age := age));
        }
      }
    }
    assert previous[..|previous|] == previous;
    result := SortSignals(o.cmp, nextByKey);
  }

  // ----- lists as maps -----

  predicate UniqueKeys(s: seq<Signal>) {
    forall i, j :: 0 <= i < j < |s| ==> s[i].key != s[j].key
  }

  lemma {:induction false} FindIsMember(s: seq<Signal>, k: string)
    ensures Find(s, k).Some? ==> Find(s, k).value in s && Find(s, k).value.key == k
    ensures Find(s, k).None? ==> forall x :: x in s ==> x.key != k
  {
    if s != [] {
      FindIsMember(s[..|s| - 1], k);
      assert s == s[..|s| - 1] + [s[|s| - 1]];
    }
  }

  lemma {:induction false} FindPut(s: seq<Signal>, x: Signal, k: string)
    ensures Find(Put(s, x), k) == if k == x.key then Some(x) else Find(s, k)
  {
    assert (s + [x])[..|s|] == s;
    if Find(s, x.key).Some? {
      var front := s[..|s| - 1];
      FindPut(front, x, k);
      assert (front + [x])[..|front|] == front;
      assert (Put(front, x) + [s[|s| - 1]])[..|Put(front, x)|] == Put(front, x);
    }
  }

  lemma {:induction false} PutUnique(s: seq<Signal>, x: Signal)
    requires UniqueKeys(s)
    ensures UniqueKeys(Put(s, x))
    ensures forall i :: 0 <= i < |Put(s, x)| ==> Put(s, x)[i] == x || Put(s, x)[i] in s
  {
    if Find(s, x.key).Some? {
      PutUnique(s[..|s| - 1], x);
    } else {
      FindIsMember(s, x.key);
    }
  }

  lemma UniqueFind(s: seq<Signal>, x: Signal)
    requires UniqueKeys(s) && x in s
    ensures Find(s, x.key) == Some(x)
  {
    FindIsMember(s, x.key);
  }

  /** Reordering a list with unique keys changes no look-up. */
  lemma FindPermuted(s: seq<Signal>, t: seq<Signal>, k: string)
    requires UniqueKeys(s) && multiset(s) == multiset(t)
    ensures UniqueKeys(t) && Find(t, k) == Find(s, k)
  {
    assert forall x :: x in s <==> x in multiset(s);
    assert forall x :: x in t <==> x in multiset(t);
    UniquePermuted(s, t);
    FindIsMember(s, k);
    FindIsMember(t, k);
    if Find(t, k).Some? {
      UniqueFind(s, Find(t, k).value);
    } else if Find(s, k).Some? {
      UniqueFind(t, Find(s, k).value);
    }
  }

  lemma UniquePermuted(s: seq<Signal>, t: seq<Signal>)
    requires UniqueKeys(s) && multiset(s) == multiset(t)
    ensures UniqueKeys(t)
  {
    DistinctMultiset(s);
    forall i, j | 0 <= i < j < |t|
      ensures t[i].key != t[j].key
    {
      assert t[i] in multiset(t) && t[j] in multiset(t);
      assert t[i] in s && t[j] in s;
      if t[i].key == t[j].key {
        UniqueFind(s, t[i]);
        UniqueFind(s, t[j]);
        OccursTwice(t, i, j);
      }
    }
  }

  // ----- one update, key by key -----

  /** The comparison sorts: `localeCompare` is a total preorder. */
  ghost predicate IsOrder(cmp: (string, string) -> int) {
    && (forall a, b :: cmp(a, b) < 0 <==> cmp(b, a) > 0)
    && (forall a, b, c :: cmp(a, b) <= 0 && cmp(b, c) <= 0 ==> cmp(a, c) <= 0)
  }

  lemma BeforeIsAnOrder(cmp: (string, string) -> int)
    requires IsOrder(cmp)
    ensures StrictWeakOrder(Before(cmp))
  {
  }

  /** The track a frame shows under a key: the last permitted one that has it. */
  function LastPermitted(active: Option<seq<string>>, tracks: seq<Track>, k: string): Option<Track> {
    if tracks == [] then None
    else
      var t := tracks[|tracks| - 1];
      if Permits(active, t.className) && TrackKey(t) == k then Some(t)
      else LastPermitted(active, tracks[..|tracks| - 1], k)
  }

  lemma {:induction false} FindFrame(o: Options, previous: seq<Signal>, now: int, tracks: seq<Track>, k: string)
    ensures UniqueKeys(FromFrame(o, previous, now, tracks))
    ensures Find(FromFrame(o, previous, now, tracks), k) ==
            match LastPermitted(o.active, tracks, k)
            case None => None
            case Some(t) => Some(MakeSignal(o, previous, now, t))
  {
    hide Find, Put, Permits, TrackKey;
    if tracks != [] {
      var front, t := tracks[..|tracks| - 1], tracks[|tracks| - 1];
      FindFrame(o, previous, now, front, k);
      PutUnique(FromFrame(o, previous, now, front), MakeSignal(o, previous, now, t));
      FindPut(FromFrame(o, previous, now, front), MakeSignal(o, previous, now, t), k);
    } else {
      assert Find([], k) == None by {
        FindIsMember([], k);
      }
    }
  }

  lemma {:induction false} FindCarry(
    o: Options, hasFrame: bool, now: int, entries: seq<Signal>, previous: seq<Signal>, k: string)
    requires UniqueKeys(previous) && UniqueKeys(entries)
    ensures UniqueKeys(CarryOver(o, hasFrame, now, entries, previous))
    ensures Find(CarryOver(o, hasFrame, now, entries, previous), k) ==
            if Find(entries, k).Some? then Find(entries, k)
            else if Find(previous, k).None? then None
            else Carried(o, hasFrame, now, Find(previous, k).value)
  {
    hide Put, Permits;
    if previous != [] {
      var front, item := previous[..|previous| - 1], previous[|previous| - 1];
      FindCarry(o, hasFrame, now, entries, front, k);
      FindCarry(o, hasFrame, now, entries, front, item.key);
      FindIsMember(front, item.key);
      var rest := CarryOver(o, hasFrame, now, entries, front);
      if Carried(o, hasFrame, now, item).Some? {
        PutUnique(rest, Carried(o, hasFrame, now, item).value);
        FindPut(rest, Carried(o, hasFrame, now, item).value, k);
      }
    }
  }

  /** What one update shows under a key. */
  function Next(o: Options, previous: seq<Signal>, frame: Option<seq<Track>>, now: int, k: string): Option<Signal> {
    var seen := if frame.Some? then LastPermitted(o.active, frame.value, k) else None;
    if seen.Some? then Some(MakeSignal(o, previous, now, seen.value))
    else
      var held := Find(previous, k);
      if held.None? then None else Carried(o, frame.Some?, now, held.value)
  }

  lemma UpdateByKey(o: Options, previous: seq<Signal>, frame: Option<seq<Track>>, now: int, k: string)
    requires IsOrder(o.cmp) && UniqueKeys(previous)
    ensures UniqueKeys(Update(o, previous, frame, now))
    ensures Ordered(Before(o.cmp), Update(o, previous, frame, now))
    ensures Find(Update(o, previous, frame, now), k) == Next(o, previous, frame, now, k)
  {
    hide Find, UniqueKeys, Ordered, StrictWeakOrder, IsOrder, Carried, MakeSignal, Before, SortBy, CarryOver, FromFrame;
    var tracks := if frame.Some? then frame.value else [];
    var entries := FromFrame(o, previous, now, tracks);
    var unsorted := CarryOver(o, frame.Some?, now, entries, previous);
    FindFrame(o, previous, now, tracks, k);
    FindCarry(o, frame.Some?, now, entries, previous, k);
    BeforeIsAnOrder(o.cmp);
    SortByCorrect(Before(o.cmp), unsorted);
    FindPermuted(unsorted, SortSignals(o.cmp, unsorted), k);
  }

  // ----- runs -----

  datatype Tick = Tick(frame: Option<seq<Track>>, now: int)

  function Fold(o: Options, ticks: seq<Tick>): seq<Signal> {
    if ticks == [] then []
    else
      var last := ticks[|ticks| - 1];
      Update(o, Fold(o, ticks[..|ticks| - 1]), last.frame, last.now)
  }

  predicate Forward(ticks: seq<Tick>) {
    forall i, j :: 0 <= i < j < |ticks| ==> ticks[i].now <= ticks[j].now
  }

  /** The last observation of a key: when, of which track, whether by the last tick, whether a frame came since. */
  datatype Sighting = Never | Seen(at: int, track: Track, current: bool, frameSince: bool)

  function ShownBy(active: Option<seq<string>>, tick: Tick, k: string): Option<Track> {
    if tick.frame.Some? then LastPermitted(active, tick.frame.value, k) else None
  }

  function LastSeen(active: Option<seq<string>>, ticks: seq<Tick>, k: string): Sighting {
    if ticks == [] then Never
    else
      var last, before := ticks[|ticks| - 1], LastSeen(active, ticks[..|ticks| - 1], k);
      match ShownBy(active, last, k)
      case Some(t) => Seen(last.now, t, true, false)
      case None =>
        if before.Never? then Never
        else Seen(before.at, before.track, false, before.frameSince || last.frame.Some?)
  }

  predicate IsLive(o: Options, now: int, s: Sighting) {
    s.Seen? && !s.track.state.Coasting? && (s.current || (!s.frameSince && now - s.at <= o.grace))
  }

  predicate IsShown(o: Options, now: int, s: Sighting) {
    s.Seen? && (s.current || now - s.at <= o.hold || IsLive(o, now, s))
  }

  predicate ShownAfter(o: Options, ticks: seq<Tick>, k: string) {
    ticks != [] && IsShown(o, ticks[|ticks| - 1].now, LastSeen(o.active, ticks, k))
  }

  /** When the present uninterrupted showing of the key began. */
  function ShownSince(o: Options, ticks: seq<Tick>, k: string): int {
    if ticks == [] then 0
    else
      var last, front := ticks[|ticks| - 1], ticks[..|ticks| - 1];
      if ShownBy(o.active, last, k).Some? && !ShownAfter(o, front, k) then last.now
      else ShownSince(o, front, k)
  }

  /** What a viewer should see under a key, told from the history alone. */
  function FromHistory(o: Options, ticks: seq<Tick>, k: string): Option<Signal> {
    if !ShownAfter(o, ticks, k) then None
    else
      var s, now := LastSeen(o.active, ticks, k), ticks[|ticks| - 1].now;
      Some(Signal(k, s.track, o.colorFor(s.track.className), if IsLive(o, now, s) then Live else Held,
                  ShownSince(o, ticks, k), s.at, if s.current then AgeOf(s.track) else now - s.at))
  }

  lemma {:induction false} SeenIsPast(active: Option<seq<string>>, ticks: seq<Tick>, k: string)
    requires Forward(ticks)
    ensures LastSeen(active, ticks, k).Seen? ==>
              ticks != [] && LastSeen(active, ticks, k).at <= ticks[|ticks| - 1].now
    ensures LastSeen(active, ticks, k).Seen? && LastSeen(active, ticks, k).current ==>
              LastSeen(active, ticks, k).at == ticks[|ticks| - 1].now
    ensures LastSeen(active, ticks, k).Seen? ==> TrackKey(LastSeen(active, ticks, k).track) == k
    ensures LastSeen(active, ticks, k).Seen? ==> Permits(active, LastSeen(active, ticks, k).track.className)
  {
    hide TrackKey, Permits;
    if ticks != [] {
      SeenIsPast(active, ticks[..|ticks| - 1], k);
      if ticks[|ticks| - 1].frame.Some? {
        PermittedHasKey(active, ticks[|ticks| - 1].frame.value, k);
      }
    }
  }

  lemma {:induction false} PermittedHasKey(active: Option<seq<string>>, tracks: seq<Track>, k: string)
    ensures LastPermitted(active, tracks, k).Some? ==>
              TrackKey(LastPermitted(active, tracks, k).value) == k
              && Permits(active, LastPermitted(active, tracks, k).value.className)
  {
    hide TrackKey, Permits;
    if tracks != [] {
      PermittedHasKey(active, tracks[..|tracks| - 1], k);
    }
  }

  /** One step of the history view: it moves exactly as one update does. */
  lemma HistoryStep(o: Options, ticks: seq<Tick>, k: string, previous: seq<Signal>)
    requires Forward(ticks) && ticks != []
    requires Find(previous, k) == FromHistory(o, ticks[..|ticks| - 1], k)
    ensures Next(o, previous, ticks[|ticks| - 1].frame, ticks[|ticks| - 1].now, k) == FromHistory(o, ticks, k)
  {
    hide TrackKey, Permits, Find, LastPermitted, Forward;
    var front, last := ticks[..|ticks| - 1], ticks[|ticks| - 1];
    SeenIsPast(o.active, ticks, k);
    ForwardFront(ticks);
    SeenIsPast(o.active, front, k);
  }

  lemma ForwardFront(ticks: seq<Tick>)
    requires Forward(ticks) && ticks != []
    ensures Forward(ticks[..|ticks| - 1])
    ensures |ticks| > 1 ==> ticks[..|ticks| - 1][|ticks| - 2].now <= ticks[|ticks| - 1].now
  {
  }

  /** After any ticks whose clock never goes back, the incremental list shows under every key
      exactly what the history says, with unique keys and in display order. */
  lemma {:induction false} FoldIsHistory(o: Options, ticks: seq<Tick>, k: string)
    requires IsOrder(o.cmp) && Forward(ticks)
    ensures UniqueKeys(Fold(o, ticks)) && Ordered(Before(o.cmp), Fold(o, ticks))
    ensures Find(Fold(o, ticks), k) == FromHistory(o, ticks, k)
  {
    if ticks != [] {
      hide IsOrder, Forward, Update, Next, FromHistory, Find, UniqueKeys, Ordered, Before;
      var front, last := ticks[..|ticks| - 1], ticks[|ticks| - 1];
      ForwardFront(ticks);
      FoldIsHistory(o, front, k);
      UpdateByKey(o, Fold(o, front), last.frame, last.now, k);
      HistoryStep(o, ticks, k, Fold(o, front));
    }
  }

  /** No two different signals of the list compare equal. */
  predicate Distinguished(cmp: (string, string) -> int, s: seq<Signal>) {
    forall i, j :: 0 <= i < j < |s| ==> CompareSignals(cmp, s[i], s[j]) != 0
  }

  /** The list that shows, in order and under unique keys, what the history says is the incremental one, when no two of
      its signals compare equal. */
  lemma HistoryDeterminesTheList(o: Options, ticks: seq<Tick>, t: seq<Signal>)
    requires IsOrder(o.cmp) && Forward(ticks)
    requires UniqueKeys(t) && Ordered(Before(o.cmp), t) && Distinguished(o.cmp, t)
    requires forall k :: Find(t, k) == FromHistory(o, ticks, k)
    ensures Fold(o, ticks) == t
  {
    hide FromHistory, Fold, Find, Forward;
    var s := Fold(o, ticks);
    FoldIsHistory(o, ticks, "");
    forall x
      ensures x in s <==> x in t
    {
      FoldIsHistory(o, ticks, x.key);
      SameFinds(s, t, x);
    }
    SameOrder(o.cmp, s, t);
  }

  lemma SameFinds(s: seq<Signal>, t: seq<Signal>, x: Signal)
    requires UniqueKeys(s) && UniqueKeys(t) && Find(s, x.key) == Find(t, x.key)
    ensures x in s <==> x in t
  {
    hide Find;
    FindIsMember(s, x.key);
    FindIsMember(t, x.key);
    if x in s {
      UniqueFind(s, x);
    }
    if x in t {
      UniqueFind(t, x);
    }
  }

  lemma SameOrder(cmp: (string, string) -> int, s: seq<Signal>, t: seq<Signal>)
    requires IsOrder(cmp) && UniqueKeys(s) && Ordered(Before(cmp), s) && Ordered(Before(cmp), t)
    requires Distinguished(cmp, t) && forall x :: x in s <==> x in t
    ensures s == t
  {
    hide IsOrder, CompareSignals;
    BeforeIsAnOrder(cmp);
    forall i, j | 0 <= i < j < |t|
      ensures Before(cmp)(t[i], t[j])
    {
      NotAfter(cmp, t[i], t[j]);
      assert !Before(cmp)(t[j], t[i]);
    }
    forall i, j | 0 <= i < j < |s|
      ensures Before(cmp)(s[i], s[j])
    {
      assert s[i] in t && s[j] in t;
      var k :| 0 <= k < |t| && t[k] == s[i];
      var l :| 0 <= l < |t| && t[l] == s[j];
      assert k != l;
      NotAfter(cmp, s[i], s[j]);
      assert !Before(cmp)(s[j], s[i]);
      assert CompareSignals(cmp, t[if k < l then k else l], t[if k < l then l else k]) != 0;
    }
    StrictOrderUnique(Before(cmp), s, t);
  }

  lemma NotAfter(cmp: (string, string) -> int, x: Signal, y: Signal)
    requires IsOrder(cmp)
    ensures CompareSignals(cmp, x, y) < 0 <==> CompareSignals(cmp, y, x) > 0
    ensures CompareSignals(cmp, x, y) == 0 <==> CompareSignals(cmp, y, x) == 0
  {
    var a, b := x.track.className, y.track.className;
    assert cmp(a, b) < 0 <==> cmp(b, a) > 0;
    assert cmp(b, a) < 0 <==> cmp(a, b) > 0;
  }

  /** The two windows as the options promise them: with `grace` within `hold`, a key is listed exactly while its
      last sighting is at most `hold` old, and live exactly while the sighting was not coasting and is either
      current or, with no frame since, at most `grace` old. */
  lemma HoldAndGrace(o: Options, ticks: seq<Tick>, k: string)
    requires IsOrder(o.cmp) && Forward(ticks) && ticks != [] && 0 <= o.hold && o.grace <= o.hold
    ensures (exists x :: x in Fold(o, ticks) && x.key == k) <==>
            LastSeen(o.active, ticks, k).Seen?
            && ticks[|ticks| - 1].now - LastSeen(o.active, ticks, k).at <= o.hold
    ensures forall x :: x in Fold(o, ticks) && x.key == k ==>
              && x.lastSeen == LastSeen(o.active, ticks, k).at
              && x.track == LastSeen(o.active, ticks, k).track
              && (x.state.Live? <==> IsLive(o, ticks[|ticks| - 1].now, LastSeen(o.active, ticks, k)))
  {
    hide IsOrder, Forward, Fold, LastSeen, UniqueKeys, Ordered, Before, Find;
    FoldIsHistory(o, ticks, k);
    SeenIsPast(o.active, ticks, k);
    var s := Fold(o, ticks);
    FindIsMember(s, k);
    forall x | x in s && x.key == k
      ensures Find(s, k) == Some(x)
    {
      UniqueFind(s, x);
    }
  }
}
