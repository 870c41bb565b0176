/** What a link to the history page says, in the names and numbers that stand in it:
    `frontend/src/lib/history-url-state.ts`. */
module HistoryLinks {
  import opened Common
  import opened Text
  import opened HistoryUrl

  // ----- parameters -----

  /** The first pair with the key is the one found. */
  lemma {:induction false} GetIsFirst(p: Params, k: string, v: string)
    ensures Get(p, k) == Some(v) <==>
            exists i :: 0 <= i < |p| && p[i] == Pair(k, v) && forall j :: 0 <= j < i ==> p[j].key != k
    ensures Get(p, k) == None <==> forall i :: 0 <= i < |p| ==> p[i].key != k
  {
    if p != [] {
      var tail := p[1..];
      assert forall i :: 0 <= i < |tail| ==> tail[i] == p[i + 1];
      GetIsFirst(tail, k, v);
      if p[0].key != k && Get(tail, k) == Some(v) {
        var i :| 0 <= i < |tail| && tail[i] == Pair(k, v) && forall j :: 0 <= j < i ==> tail[j].key != k;
        assert p[i + 1] == Pair(k, v);
      }
      if i :| 0 < i < |p| && p[i] == Pair(k, v) && forall j :: 0 <= j < i ==> p[j].key != k {
        assert tail[i - 1] == Pair(k, v);
      }
    }
  }

  /** Setting a key makes its value the only one and touches no other key. */
  lemma {:induction false} SetThenGet(p: Params, k: string, v: string, l: string)
    ensures Get(Set(p, k, v), l) == if l == k then Some(v) else Get(p, l)
    ensures forall i, j :: 0 <= i < j < |Set(p, k, v)| ==> Set(p, k, v)[i].key != k || Set(p, k, v)[j].key != k
  {
    if p != [] {
      if p[0].key == k {
        WithoutKey(p[1..], k, l);
      } else {
        SetThenGet(p[1..], k, v, l);
      }
    }
  }

  lemma {:induction false} WithoutKey(p: Params, k: string, l: string)
    ensures l != k ==> Get(HistoryUrl.Without(p, k), l) == Get(p, l)
    ensures forall i :: 0 <= i < |HistoryUrl.Without(p, k)| ==> HistoryUrl.Without(p, k)[i].key != k
  {
    if p != [] {
      WithoutKey(p[1..], k, l);
    }
  }

  // ----- bounds -----

  /** The start of the local minute that a clock shows. */
  predicate ShowsMinute(e: Env, now: int, m: int) { m <= now < m + 60_000 && (m + e.offset) % 60_000 == 0 }

  lemma MinuteIsShown(e: Env, now: int)
    ensures ShowsMinute(e, now, MinuteStart(e, now))
  {
    DownToMultiple(now + e.offset);
  }

  /** A link that says nothing: the last 24 hours, following on, by the hour, of all scenes and classes. */
  lemma EmptyQuery(e: Env, now: int)
    ensures var s := Read(e, [], now);
            && ShowsMinute(e, now, s.to) && s.from == s.to - 86_400_000
            && s.mode == Relative && s.window == Last24h && s.followNow
            && s.granularity == OneHour && s.metric == None && s.cameraIds == [] && s.classNames == []
            && !s.speed && s.threshold == None
  {
    hide MinuteStart, ShowsMinute;
    MinuteIsShown(e, now);
  }

  /** Without bounds the window counts back from the present minute, and only `follow=0` stops following. */
  lemma UnboundedQuery(e: Env, p: Params, now: int)
    requires Get(p, "from") == None && Get(p, "to") == None
    ensures var s, w := Read(e, p, now), Get(p, "window");
            && ShowsMinute(e, now, s.to) && s.mode == Relative
            && (s.followNow <==> Get(p, "follow") != Some("0"))
            && (w == Some("last_15m") ==> s.from == s.to - 900_000)
            && (w == Some("last_1h") ==> s.from == s.to - 3_600_000)
            && (w == Some("last_7d") ==> s.from == s.to - 604_800_000)
            && (w != Some("last_15m") && w != Some("last_1h") && w != Some("last_7d") ==> s.from == s.to - 86_400_000)
  {
    hide Get, MinuteStart, ShowsMinute, ToList, ToMetric, ToThreshold, ToGranularity;
    MinuteIsShown(e, now);
    Apart();
  }

  lemma Apart()
    ensures "last_15m" != "last_1h" && "last_1h" != "last_7d" && "last_15m" != "last_7d"
    ensures "last_24h" != "last_15m" && "last_24h" != "last_1h" && "last_24h" != "last_7d"
  {
    assert |"last_15m"| == 8 && |"last_1h"| == 7 && "last_1h"[5] == '1' && "last_7d"[5] == '7';
    assert |"last_24h"| == 8 && "last_15m"[5] == '1' && "last_24h"[5] == '2';
  }

  /** A bound that stands in the link and can be read. */
  predicate Reads(e: Env, bound: Option<string>, t: int) {
    bound.Some? && bound.value != "" && e.parseDate(bound.value) == Some(t)
  }

  /** With a bound the window is absolute and never follows; a bound that is missing or cannot be read is the one of the
      last 24 hours. */
  lemma BoundedQuery(e: Env, p: Params, now: int) returns (m: int)
    requires Get(p, "from").Some? || Get(p, "to").Some?
    ensures ShowsMinute(e, now, m)
    ensures var s := Read(e, p, now);
            && s.mode == Absolute && !s.followNow
            && (forall t :: Reads(e, Get(p, "from"), t) ==> s.from == t)
            && ((forall t :: !Reads(e, Get(p, "from"), t)) ==> s.from == m - 86_400_000)
            && (forall t :: Reads(e, Get(p, "to"), t) ==> s.to == t)
            && ((forall t :: !Reads(e, Get(p, "to"), t)) ==> s.to == m)
  {
    m := MinuteStart(e, now);
    hide Get, MinuteStart, ShowsMinute, ToList, ToMetric, ToThreshold, ToGranularity, ToWindow;
    MinuteIsShown(e, now);
    BoundIs(e, Get(p, "from"), m - 86_400_000);
    BoundIs(e, Get(p, "to"), m);
  }

  lemma BoundIs(e: Env, bound: Option<string>, fallback: int)
    ensures forall t :: Reads(e, bound, t) ==> ToDate(e, bound, fallback) == t
    ensures (forall t :: !Reads(e, bound, t)) ==> ToDate(e, bound, fallback) == fallback
  {
    if bound.Some? && bound.value != "" && e.parseDate(bound.value).Some? {
      assert Reads(e, bound, e.parseDate(bound.value).value);
    }
  }

  // ----- the other parameters -----

  /** Each name means one choice, and any other value the default. */
  lemma NamesMean(e: Env, p: Params, now: int)
    ensures var s := Read(e, p, now);
            && (s.granularity == OneMinute <==> Get(p, "granularity") == Some("1m"))
            && (s.granularity == FiveMinutes <==> Get(p, "granularity") == Some("5m"))
            && (s.granularity == OneDay <==> Get(p, "granularity") == Some("1d"))
            && (s.metric == Some(Occupancy) <==> Get(p, "metric") == Some("occupancy"))
            && (s.metric == Some(CountEvents) <==> Get(p, "metric") == Some("count_events"))
            && (s.metric == Some(Observations) <==> Get(p, "metric") == Some("observations"))
            && (s.window == Last15m <==> Get(p, "window") == Some("last_15m"))
            && (s.window == Last1h <==> Get(p, "window") == Some("last_1h"))
            && (s.window == Last7d <==> Get(p, "window") == Some("last_7d"))
  {
    hide Get, MinuteStart, ToList, ToThreshold, ToDate, ResolveWindow;
    Apart();
    NamesReadBack();
    assert "1m"[1] == 'm' && "1d"[1] == 'd' && "5m"[0] == '5';
  }

  /** The speed switch is on for `1` alone; a threshold is a number that is not negative. */
  lemma SpeedMeans(e: Env, p: Params, now: int, x: real)
    ensures Read(e, p, now).speed <==> Get(p, "speed") == Some("1")
    ensures Read(e, p, now).threshold == Some(x) <==>
            && Get(p, "speedThreshold").Some? && Get(p, "speedThreshold").value != ""
            && e.parseNumber(Get(p, "speedThreshold").value) == Some(x) && x >= 0.0
  {
    hide Get, MinuteStart, ToList, ToDate, ResolveWindow, ToWindow, ToMetric, ToGranularity;
  }

  /** Items between commas, with space around them or without; a blank one is no item. */
  lemma ListsMean(e: Env, p: Params, now: int, a: string, b: string)
    requires ',' !in a && ',' !in b
    ensures Get(p, "cameras") == Some(a + "," + b) ==>
              Read(e, p, now).cameraIds
              == (if Trim(a) == "" then [] else [Trim(a)]) + (if Trim(b) == "" then [] else [Trim(b)])
    ensures Get(p, "classes") == Some(a + "," + b) ==>
              Read(e, p, now).classNames
              == (if Trim(a) == "" then [] else [Trim(a)]) + (if Trim(b) == "" then [] else [Trim(b)])
  {
    hide Get, MinuteStart, ToDate, ResolveWindow, ToWindow, ToMetric, ToGranularity, ToThreshold, Split, Trim;
    SplitAtComma(a, b);
    SplitWithoutComma(a);
    SplitWithoutComma(b);
    assert [a] + [b] == [a, b];
    Both(a, b);
  }

  lemma Both(a: string, b: string)
    ensures Cleaned([a, b]) == (if Trim(a) == "" then [] else [Trim(a)]) + (if Trim(b) == "" then [] else [Trim(b)])
  {
    hide Trim;
    assert [a, b][1..] == [b] && [b][1..] == [];
    assert Cleaned([]) == [];
  }

  // ----- writing -----

  /** What is written under each key: nothing for what the reader would assume anyway. */
  lemma LinkSays(e: Env, s: Filters)
    ensures var p := Written(e, s);
            && Get(p, "window") == (match s.mode
                case Absolute => None
                case Relative => Some(match s.window case Last15m => "last_15m" case Last1h => "last_1h"
                                      case Last24h => "last_24h" case Last7d => "last_7d"))
            && Get(p, "follow") == (if s.mode.Absolute? then None else if s.followNow then Some("1") else Some("0"))
            && Get(p, "from") == (if s.mode.Absolute? then Some(e.printDate(s.from)) else None)
            && Get(p, "to") == (if s.mode.Absolute? then Some(e.printDate(s.to)) else None)
            && Get(p, "speed") == (if s.speed then Some("1") else None)
  {
    hide Written, Get;
    WrittenBounds(e, s);
  }

  lemma LinkSaysMore(e: Env, s: Filters)
    ensures var p := Written(e, s);
            && Get(p, "granularity") == (match s.granularity
                case OneMinute => Some("1m") case FiveMinutes => Some("5m") case OneHour => None
                case OneDay => Some("1d"))
            && Get(p, "metric") == (match s.metric
                case None => None case Some(Occupancy) => Some("occupancy")
                case Some(CountEvents) => Some("count_events") case Some(Observations) => Some("observations"))
            && (Get(p, "cameras") == if s.cameraIds == [] then None else Some(Join(s.cameraIds)))
            && (Get(p, "classes") == if s.classNames == [] then None else Some(Join(s.classNames)))
            && (Get(p, "speedThreshold") ==
                if s.speed && s.threshold.Some? then Some(e.printNumber(s.threshold.value)) else None)
  {
    hide Written, Get, Join, WindowName;
    var p, fields := Written(e, s), Fields(e, s);
    WrittenFields(e, s);
    assert Get(p, fields[4].key) == fields[4].value && Get(p, fields[5].key) == fields[5].value;
    assert Get(p, fields[6].key) == fields[6].value && Get(p, fields[7].key) == fields[7].value;
    assert Get(p, fields[9].key) == fields[9].value;
  }

  /** The default state has the shortest link. */
  lemma DefaultLink(e: Env, now: int)
    ensures Written(e, Read(e, [], now)) == [Pair("window", "last_24h"), Pair("follow", "1")]
  {
    hide MinuteStart, ShowsMinute, Present;
    EmptyQuery(e, now);
    var fields := Fields(e, Read(e, [], now));
    assert fields[..2] == [fields[0], fields[1]];
    AbsentFields(fields, 10);
    FirstTwo(fields);
    assert fields[..10] == fields;
  }

  lemma {:induction false} AbsentFields(fields: seq<Field>, n: nat)
    requires 2 <= n <= |fields| && forall i :: 2 <= i < n ==> fields[i].value.None?
    ensures Present(fields[..n]) == Present(fields[..2])
  {
    if n > 2 {
      assert fields[..n][..n - 1] == fields[..n - 1];
      AbsentFields(fields, n - 1);
    }
  }

  lemma FirstTwo(fields: seq<Field>)
    requires |fields| >= 2 && fields[0].value.Some? && fields[1].value.Some?
    ensures Present(fields[..2])
         == [Pair(fields[0].key, fields[0].value.value), Pair(fields[1].key, fields[1].value.value)]
  {
    var one, two := fields[..1], fields[..2];
    assert one[..|one| - 1] == [] && two[..|two| - 1] == one;
    assert Present(one) == Present([]) + [Pair(fields[0].key, fields[0].value.value)];
    assert Present(two) == Present(one) + [Pair(fields[1].key, fields[1].value.value)];
  }
}
