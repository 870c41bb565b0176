/** The history page's filters as a query string: `frontend/src/lib/history-url-state.ts`.

    A query string is its decoded pairs in order. Instants are milliseconds since the epoch. Parsing and printing
    of dates and numbers are functions of the environment, as is the zone's offset. */
module HistoryUrl {
  import opened Common
  import opened Text

  // ----- parameters -----

  datatype Pair = Pair(key: string, value: string)

  type Params = seq<Pair>

  function Get(p: Params, k: string): Option<string> {
    if p == [] then None else if p[0].key == k then Some(p[0].value) else Get(p[1..], k)
  }

  predicate Has(p: Params, k: string) { Get(p, k).Some? }

  function Without(p: Params, k: string): Params {
    if p == [] then [] else if p[0].key == k then Without(p[1..], k) else [p[0]] + Without(p[1..], k)
  }

  /** `URLSearchParams.set`: replaces the first pair with the key and removes the others, or appends. */
  function Set(p: Params, k: string, v: string): Params {
    if p == [] then [Pair(k, v)]
    else if p[0].key == k then [Pair(k, v)] + Without(p[1..], k)
    else [p[0]] + Set(p[1..], k, v)
  }

  // ----- values -----

  datatype Granularity = OneMinute | FiveMinutes | OneHour | OneDay

  datatype Metric = Occupancy | CountEvents | Observations

  datatype Window = Last15m | Last1h | Last24h | Last7d

  datatype Mode = Relative | Absolute

  datatype Filters = Filters(
    from: int, to: int, mode: Mode, window: Window, followNow: bool, granularity: Granularity,
    metric: Option<Metric>, cameraIds: seq<string>, classNames: seq<string>, speed: bool, threshold: Option<real>)

  datatype Env = Env(
    parseDate: string -> Option<int>, printDate: int -> string,
    parseNumber: string -> Option<real>, printNumber: real -> string, offset: int)

  const MAX_INSTANT := 8_640_000_000_000_000
  const MINUTE := 60_000
  const HOUR := 60 * MINUTE
  const DAY := 24 * HOUR

  predicate ValidInstant(t: int) { -MAX_INSTANT <= t <= MAX_INSTANT }

  /** Clocks whose windows the Date type can hold. */
  predicate ValidClock(now: int) { 8 * DAY - MAX_INSTANT <= now <= MAX_INSTANT }

  /** Printing a valid date, or a number that was once parsed, and parsing it again gives it back. */
  ghost predicate Faithful(e: Env) {
    && (forall s :: e.parseDate(s).Some? ==> ValidInstant(e.parseDate(s).value))
    && (forall t :: ValidInstant(t) ==> e.printDate(t) != "" && e.parseDate(e.printDate(t)) == Some(t))
    && (forall s :: e.parseNumber(s).Some? ==> Printable(e, e.parseNumber(s).value))
  }

  predicate Printable(e: Env, x: real) { e.printNumber(x) != "" && e.parseNumber(e.printNumber(x)) == Some(x) }

  function GranularityName(g: Granularity): string {
    match g case OneMinute => "1m" case FiveMinutes => "5m" case OneHour => "1h" case OneDay => "1d"
  }

  function MetricName(m: Metric): string {
    match m case Occupancy => "occupancy" case CountEvents => "count_events" case Observations => "observations"
  }

  function WindowName(w: Window): string {
    match w case Last15m => "last_15m" case Last1h => "last_1h" case Last24h => "last_24h" case Last7d => "last_7d"
  }

  function Duration(w: Window): int {
    match w case Last15m => 15 * MINUTE case Last1h => HOUR case Last24h => DAY case Last7d => 7 * DAY
  }

  // ----- reading -----

  function ToDate(e: Env, value: Option<string>, fallback: int): int {
    if value.None? || value.value == "" then fallback
    else
      var parsed := e.parseDate(value.value);
      if parsed.None? then fallback else parsed.value
  }

  function ToGranularity(value: Option<string>): Granularity {
    if value == Some("1m") then OneMinute
    else if value == Some("5m") then FiveMinutes
    else if value == Some("1d") then OneDay
    else OneHour
  }

  function ToMetric(value: Option<string>): Option<Metric> {
    if value == Some("occupancy") then Some(Occupancy)
    else if value == Some("count_events") then Some(CountEvents)
    else if value == Some("observations") then Some(Observations)
    else None
  }

  function ToWindow(value: Option<string>): Window {
    if value == Some("last_15m") then Last15m
    else if value == Some("last_1h") then Last1h
    else if value == Some("last_7d") then Last7d
    else Last24h
  }

  /** What `trim` removes: white space and line terminators of ECMAScript. */
  predicate IsSpace(c: char) {
    || '\U{0009}' <= c <= '\U{000D}' || c == ' ' || c == '\U{00A0}' || c == '\U{1680}'
    || '\U{2000}' <= c <= '\U{200A}' || c == '\U{2028}' || c == '\U{2029}' || c == '\U{202F}'
    || c == '\U{205F}' || c == '\U{3000}' || c == '\U{FEFF}'
  }

  function Trim(s: string): string { Strip(IsSpace, s) }

  function Cleaned(parts: seq<string>): seq<string> {
    if parts == [] then []
    else
      var item := Trim(parts[0]);
      if |item| > 0 then [item] + Cleaned(parts[1..]) else Cleaned(parts[1..])
  }

  function ToList(value: Option<string>): seq<string> {
    if value.None? || value.value == "" then [] else Cleaned(Split(value.value))
  }

  function ToThreshold(e: Env, value: Option<string>): Option<real> {
    if value.None? || value.value == "" then None
    else
      var parsed := e.parseNumber(value.value);
      if parsed.Some? && parsed.value >= 0.0 then parsed else None
  }

  datatype Bounds = Bounds(from: int, to: int)

  /** `setSeconds(0, 0)` on the local date: down to the start of the local minute. */
  function MinuteStart(e: Env, now: int): int { now - (now + e.offset) % MINUTE }

  function ResolveWindow(e: Env, w: Window, now: int): Bounds {
    var to := MinuteStart(e, now);
    Bounds(to - Duration(w), to)
  }

  function Read(e: Env, p: Params, now: int): Filters {
    var defaults := ResolveWindow(e, Last24h, now);
    var window := ToWindow(Get(p, "window"));
    var hasBound := Has(p, "from") || Has(p, "to");
    var relative := ResolveWindow(e, window, now);
    Filters(
      if hasBound then ToDate(e, Get(p, "from"), defaults.from) else relative.from,
      if hasBound then ToDate(e, Get(p, "to"), defaults.to) else relative.to,
      if hasBound then Absolute else Relative,
      window,
      !hasBound && Get(p, "follow") != Some("0"),
      ToGranularity(Get(p, "granularity")),
      ToMetric(Get(p, "metric")),
      ToList(Get(p, "cameras")),
      ToList(Get(p, "classes")),
      Get(p, "speed") == Some("1"),
      ToThreshold(e, Get(p, "speedThreshold")))
  }

  // ----- writing -----

  datatype Field = Field(key: string, value: Option<string>)

  /** The fields that are present, in order. */
  function Present(fields: seq<Field>): Params {
    if fields == [] then []
    else
      var rest, last := Present(fields[..|fields| - 1]), fields[|fields| - 1];
      if last.value.Some? then rest + [Pair(last.key, last.value.value)] else rest
  }

  function When(c: bool, v: string): Option<string> { if c then Some(v) else None }

  function Fields(e: Env, s: Filters): seq<Field> {
    [ Field("window", When(s.mode.Relative?, WindowName(s.window))),
      Field("follow", When(s.mode.Relative?, if s.followNow then "1" else "0")),
      Field("from", When(s.mode.Absolute?, e.printDate(s.from))),
      Field("to", When(s.mode.Absolute?, e.printDate(s.to))),
      Field("granularity", When(s.granularity != OneHour, GranularityName(s.granularity))),
      Field("metric", if s.metric.Some? then Some(MetricName(s.metric.value)) else None),
      Field("cameras", When(|s.cameraIds| > 0, Join(s.cameraIds))),
      Field("classes", When(|s.classNames| > 0, Join(s.classNames))),
      Field("speed", When(s.speed, "1")),
      Field("speedThreshold", if s.speed && s.threshold.Some? then Some(e.printNumber(s.threshold.value)) else None) ]
  }

  function Written(e: Env, s: Filters): Params { Present(Fields(e, s)) }

  predicate DistinctKeys(fields: seq<Field>) {
    forall i, j :: 0 <= i < j < |fields| ==> fields[i].key != fields[j].key
  }

  lemma FieldKeys(e: Env, s: Filters)
    ensures DistinctKeys(Fields(e, s))
  {
    assert "window"[0] == 'w' && "follow"[0] == 'f' && "metric"[0] == 'm';
    assert "cameras"[1] == 'a' && "classes"[1] == 'l';
  }

  lemma {:induction false} GetAppend(a: Params, b: Params, k: string)
    ensures Get(a + b, k) == if Get(a, k).Some? then Get(a, k) else Get(b, k)
  {
    if a == [] {
      assert a + b == b;
    } else {
      assert (a + b)[1..] == a[1..] + b;
      GetAppend(a[1..], b, k);
    }
  }

  lemma {:induction false} GetPresent(fields: seq<Field>, k: string)
    requires DistinctKeys(fields)
    ensures forall i :: 0 <= i < |fields| && fields[i].key == k ==> Get(Present(fields), k) == fields[i].value
    ensures (forall i :: 0 <= i < |fields| ==> fields[i].key != k) ==> Get(Present(fields), k) == None
  {
    if fields != [] {
      var front, last := fields[..|fields| - 1], fields[|fields| - 1];
      GetPresent(front, k);
      if last.value.Some? {
        GetAppend(Present(front), [Pair(last.key, last.value.value)], k);
      }
    }
  }

  lemma {:induction false} SetNew(p: Params, k: string, v: string)
    requires Get(p, k) == None
    ensures Set(p, k, v) == p + [Pair(k, v)]
  {
    if p != [] {
      SetNew(p[1..], k, v);
    }
  }

  lemma SetField(fields: seq<Field>, i: nat)
    requires DistinctKeys(fields) && i < |fields|
    ensures fields[i].value.Some? ==>
              Set(Present(fields[..i]), fields[i].key, fields[i].value.value) == Present(fields[..i + 1])
    ensures fields[i].value.None? ==> Present(fields[..i]) == Present(fields[..i + 1])
  {
    assert fields[..i + 1][..i] == fields[..i];
    GetPresent(fields[..i], fields[i].key);
    if fields[i].value.Some? {
      SetNew(Present(fields[..i]), fields[i].key, fields[i].value.value);
    }
  }

  predicate Sets(fields: seq<Field>, i: nat)
    requires i < |fields|
  {
    Present(fields[..i + 1]) ==
    if fields[i].value.Some? then Set(Present(fields[..i]), fields[i].key, fields[i].value.value)
    else Present(fields[..i])
  }

  lemma SetFields(fields: seq<Field>)
    requires DistinctKeys(fields) && |fields| == 10
    ensures Sets(fields, 0) && Sets(fields, 1) && Sets(fields, 2) && Sets(fields, 3) && Sets(fields, 4)
    ensures Sets(fields, 5) && Sets(fields, 6) && Sets(fields, 7) && Sets(fields, 8) && Sets(fields, 9)
  {
    hide Present, Set, DistinctKeys;
    forall i: nat | i < |fields|
      ensures Sets(fields, i)
    {
      SetField(fields, i);
    }
  }

  /** The writer sets one parameter after the other. */
  method Write(e: Env, s: Filters) returns (params: Params)
    ensures params == Written(e, s)
  {
    hide Present, Set, DistinctKeys, Join;
    ghost var fields := Fields(e, s);
    FieldKeys(e, s);
    SetFields(fields);
    NothingPresent();
    params := [];
    assert fields[..0] == [];
    if s.mode.Relative? {
      params := Set(params, "window", WindowName(s.window));
      params := Set(params, "follow", if s.followNow then "1" else "0");
    } else {
      params := Set(params, "from", e.printDate(s.from));
      params := Set(params, "to", e.printDate(s.to));
    }
    if s.granularity != OneHour {
      params := Set(params, "granularity", GranularityName(s.granularity));
    }
    if s.metric.Some? {
      params := Set(params, "metric", MetricName(s.metric.value));
    }
    if |s.cameraIds| > 0 {
      params := Set(params, "cameras", Join(s.cameraIds));
    }
    if |s.classNames| > 0 {
      params := Set(params, "classes", Join(s.classNames));
    }
    if s.speed {
      params := Set(params, "speed", "1");
      if s.threshold.Some? {
        params := Set(params, "speedThreshold", e.printNumber(s.threshold.value));
      }
    }
    assert fields[..10] == fields;
  }

  lemma NothingPresent()
    ensures Present([]) == []
  {
  }

  // ----- lists -----

  /** What a list of items reads back as: commas split items, spaces around them go, empty ones vanish. */
  function Expanded(items: seq<string>): seq<string> {
    if items == [] then [] else Cleaned(Split(items[0])) + Expanded(items[1..])
  }

  predicate Clean(item: string) { item != "" && Stripped(IsSpace, item) && ',' !in item }

  lemma {:induction false} CleanedAppend(a: seq<string>, b: seq<string>)
    ensures Cleaned(a + b) == Cleaned(a) + Cleaned(b)
  {
    if a == [] {
      assert a + b == b;
    } else {
      assert (a + b)[1..] == a[1..] + b;
      CleanedAppend(a[1..], b);
    }
  }

  lemma {:induction false} JoinedReadsExpanded(items: seq<string>)
    ensures Cleaned(Split(Join(items))) == Expanded(items)
  {
    hide Cleaned, Split;
    if items == [] {
      NothingCleaned();
    } else if |items| == 1 {
      assert Expanded(items[1..]) == [];
    } else {
      JoinedReadsExpanded(items[1..]);
      SplitAtComma(items[0], Join(items[1..]));
      CleanedAppend(Split(items[0]), Split(Join(items[1..])));
    }
  }

  lemma NothingCleaned()
    ensures Cleaned(Split("")) == [] && Expanded([]) == []
  {
    assert Split("") == [""];
    assert Trim("") == "";
  }

  lemma {:induction false} CleanedIsClean(parts: seq<string>)
    requires forall part :: part in parts ==> ',' !in part
    ensures forall item :: item in Cleaned(parts) ==> Clean(item)
  {
    if parts != [] {
      CleanedIsClean(parts[1..]);
      StripFacts(IsSpace, parts[0]);
    }
  }

  lemma {:induction false} ExpandedClean(items: seq<string>)
    ensures forall item :: item in Expanded(items) ==> Clean(item)
    ensures (forall item :: item in items ==> Clean(item)) ==> Expanded(items) == items
  {
    if items != [] {
      ExpandedClean(items[1..]);
      PartsHaveNoComma(items[0]);
      CleanedIsClean(Split(items[0]));
      assert items[0] in items && forall item :: item in items[1..] ==> item in items;
      if Clean(items[0]) {
        SplitWithoutComma(items[0]);
        StripFacts(IsSpace, items[0]);
        assert Cleaned([items[0]]) == [items[0]];
      }
    }
  }

  /** Reading back a joined list: it splits every item again, and gives the list itself exactly when every item is
      nonempty, trimmed and free of commas. */
  lemma ListRoundTrip(items: seq<string>)
    ensures ToList(Some(Join(items))) == Expanded(items)
    ensures ToList(Some(Join(items))) == items <==> forall item :: item in items ==> Clean(item)
  {
    JoinedReadsExpanded(items);
    NothingCleaned();
    ExpandedClean(items);
  }

  // ----- reading what was written -----

  lemma NamesReadBack()
    ensures forall g :: ToGranularity(Some(GranularityName(g))) == g
    ensures forall m :: ToMetric(Some(MetricName(m))) == Some(m)
    ensures forall w :: ToWindow(Some(WindowName(w))) == w
  {
    assert "1m"[1] == 'm' && "1h"[1] == 'h' && "1d"[1] == 'd' && "5m"[0] == '5' && "1d"[0] == '1' && "1h"[0] == '1';
    assert "count_events"[0] == 'c' && "observations"[0] == 'o';
    assert "last_1h"[5] == '1' && "last_7d"[5] == '7' && "last_15m"[5] == '1' && "last_24h"[5] == '2';
    assert |"last_24h"| == 8;
  }

  /** A state as a link carries it: a relative window is resolved when it is read, an absolute one forgets the
      relative choice, lists are expanded, and the threshold goes with the speed switch. */
  function Normal(e: Env, s: Filters, now: int): Filters {
    var relative := ResolveWindow(e, s.window, now);
    s.(from := if s.mode.Relative? then relative.from else s.from,
       to := if s.mode.Relative? then relative.to else s.to,
       window := if s.mode.Relative? then s.window else Last24h,
       followNow := s.mode.Relative? && s.followNow,
       cameraIds := Expanded(s.cameraIds),
       classNames := Expanded(s.classNames),
       threshold := if s.speed && s.threshold.Some? && s.threshold.value >= 0.0 then s.threshold else None)
  }

  /** What the Date and number printers need of a state. */
  predicate Writable(e: Env, s: Filters) {
    && (s.mode.Absolute? ==> ValidInstant(s.from) && ValidInstant(s.to))
    && (s.speed && s.threshold.Some? ==> Printable(e, s.threshold.value))
  }

  lemma WrittenFields(e: Env, s: Filters)
    ensures forall i :: 0 <= i < 10 ==> Get(Written(e, s), Fields(e, s)[i].key) == Fields(e, s)[i].value
  {
    hide Present, DistinctKeys, Get;
    FieldKeys(e, s);
    forall i | 0 <= i < 10
      ensures Get(Written(e, s), Fields(e, s)[i].key) == Fields(e, s)[i].value
    {
      GetPresent(Fields(e, s), Fields(e, s)[i].key);
    }
  }

  /** What the reader finds under each key. */
  lemma WrittenBounds(e: Env, s: Filters)
    ensures Get(Written(e, s), "window") == When(s.mode.Relative?, WindowName(s.window))
    ensures Get(Written(e, s), "follow") == When(s.mode.Relative?, if s.followNow then "1" else "0")
    ensures Get(Written(e, s), "from") == When(s.mode.Absolute?, e.printDate(s.from))
    ensures Get(Written(e, s), "to") == When(s.mode.Absolute?, e.printDate(s.to))
    ensures Get(Written(e, s), "speed") == When(s.speed, "1")
  {
    hide Written, Get, WindowName, Join, GranularityName, MetricName;
    var p, fields := Written(e, s), Fields(e, s);
    WrittenFields(e, s);
    assert Get(p, fields[0].key) == fields[0].value && Get(p, fields[1].key) == fields[1].value;
    assert Get(p, fields[2].key) == fields[2].value && Get(p, fields[3].key) == fields[3].value;
    assert Get(p, fields[8].key) == fields[8].value;
  }

  lemma WrittenValues(e: Env, s: Filters)
    requires Writable(e, s)
    ensures ToGranularity(Get(Written(e, s), "granularity")) == s.granularity
    ensures ToMetric(Get(Written(e, s), "metric")) == s.metric
    ensures ToList(Get(Written(e, s), "cameras")) == Expanded(s.cameraIds)
    ensures ToList(Get(Written(e, s), "classes")) == Expanded(s.classNames)
    ensures ToThreshold(e, Get(Written(e, s), "speedThreshold"))
         == if s.speed && s.threshold.Some? && s.threshold.value >= 0.0 then s.threshold else None
  {
    hide Written, Get, Cleaned, Split, Join, Expanded, ToList;
    hide GranularityName, MetricName, WindowName, ToGranularity, ToMetric, ToWindow;
    var p, fields := Written(e, s), Fields(e, s);
    WrittenFields(e, s);
    assert Get(p, fields[4].key) == fields[4].value && Get(p, fields[5].key) == fields[5].value;
    assert Get(p, fields[6].key) == fields[6].value && Get(p, fields[7].key) == fields[7].value;
    assert Get(p, fields[9].key) == fields[9].value;
    NamesReadBack();
    AbsentNames();
    ListReads(s.cameraIds);
    ListReads(s.classNames);
  }

  /** Reading what was written gives the normal form of the state. */
  lemma ReadWritten(e: Env, s: Filters, now: int)
    requires Faithful(e) && Writable(e, s)
    ensures Read(e, Written(e, s), now) == Normal(e, s, now)
  {
    hide Written, Get, Expanded, ToList, ToThreshold, ToGranularity, ToMetric, ToWindow, WindowName, ResolveWindow;
    WrittenBounds(e, s);
    WrittenValues(e, s);
    NamesReadBack();
    AbsentNames();
    assert "1" != "0";
  }

  lemma AbsentNames()
    ensures ToGranularity(None) == OneHour && ToMetric(None) == None && ToWindow(None) == Last24h
  {
  }

  lemma ListReads(items: seq<string>)
    ensures ToList(When(|items| > 0, Join(items))) == Expanded(items)
  {
    ListRoundTrip(items);
    NothingCleaned();
  }

  /** A state survives the round trip exactly when it is as a link carries it. */
  lemma RoundTripIff(e: Env, s: Filters, now: int)
    requires Faithful(e) && Writable(e, s)
    ensures Read(e, Written(e, s), now) == s <==>
            && (s.mode.Relative? ==> Bounds(s.from, s.to) == ResolveWindow(e, s.window, now))
            && (s.mode.Absolute? ==> s.window == Last24h && !s.followNow)
            && (forall item :: item in s.cameraIds ==> Clean(item))
            && (forall item :: item in s.classNames ==> Clean(item))
            && (s.threshold.Some? ==> s.speed && s.threshold.value >= 0.0)
  {
    hide Read, Written, Clean, Expanded, ResolveWindow, Writable, Faithful;
    ReadWritten(e, s, now);
    ExpandedClean(s.cameraIds);
    ExpandedClean(s.classNames);
  }

  /** What the reader returns can be written, with clean lists and a threshold that is not negative. */
  lemma ReadIsWritable(e: Env, p: Params, now: int)
    requires Faithful(e) && ValidClock(now)
    ensures Writable(e, Read(e, p, now))
    ensures forall item :: item in Read(e, p, now).cameraIds + Read(e, p, now).classNames ==> Clean(item)
    ensures Read(e, p, now).threshold.Some? ==> Read(e, p, now).threshold.value >= 0.0
  {
    hide Get, Cleaned, Split, Clean;
    ListIsClean(Get(p, "cameras"));
    ListIsClean(Get(p, "classes"));
  }

  lemma ListIsClean(value: Option<string>)
    ensures forall item :: item in ToList(value) ==> Clean(item)
  {
    if value.Some? {
      PartsHaveNoComma(value.value);
      CleanedIsClean(Split(value.value));
    }
  }

  /** A link rewritten by the page stays as it is, whatever query it came from and however the clock moves on. */
  lemma RewritingIsStable(e: Env, p: Params, first: int, second: int)
    requires Faithful(e) && ValidClock(first)
    ensures Written(e, Read(e, Written(e, Read(e, p, first)), second)) == Written(e, Read(e, p, first))
  {
    hide Read, Written, Clean, Expanded, Writable, Faithful;
    var s := Read(e, p, first);
    ReadIsWritable(e, p, first);
    assert forall item :: item in s.cameraIds ==> item in s.cameraIds + s.classNames;
    assert forall item :: item in s.classNames ==> item in s.cameraIds + s.classNames;
    ReadWritten(e, s, second);
    ExpandedClean(s.cameraIds);
    ExpandedClean(s.classNames);
    SameFields(e, s, Normal(e, s, second));
  }

  /** What the writer does not look at. */
  lemma SameFields(e: Env, s: Filters, t: Filters)
    requires s.mode == t.mode && s.granularity == t.granularity && s.metric == t.metric
    requires s.cameraIds == t.cameraIds && s.classNames == t.classNames && s.speed == t.speed
    requires s.mode.Relative? ==> s.window == t.window && s.followNow == t.followNow
    requires s.mode.Absolute? ==> s.from == t.from && s.to == t.to
    requires s.speed ==> s.threshold == t.threshold
    ensures Written(e, s) == Written(e, t)
  {
    hide Present;
    assert Fields(e, s) == Fields(e, t);
  }

  // ----- the relative window -----

  /** The window ends at the last start of a local minute that is not after the clock; two clocks resolve it to the
      same bounds exactly when they show the same local minute. */
  lemma WindowEndsAtTheMinute(e: Env, w: Window, first: int, second: int)
    ensures ResolveWindow(e, w, first).to <= first < ResolveWindow(e, w, first).to + MINUTE
    ensures (ResolveWindow(e, w, first).to + e.offset) % MINUTE == 0
    ensures ResolveWindow(e, w, first).to - ResolveWindow(e, w, first).from == Duration(w)
    ensures ResolveWindow(e, w, first) == ResolveWindow(e, w, second)
       <==> (first + e.offset) / MINUTE == (second + e.offset) / MINUTE
  {
    DownToMultiple(first + e.offset);
    DownToMultiple(second + e.offset);
  }

  lemma DownToMultiple(x: int)
    ensures x - x % MINUTE == x / MINUTE * MINUTE && (x - x % MINUTE) % MINUTE == 0
  {
  }
}
