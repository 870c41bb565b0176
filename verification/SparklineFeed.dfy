/** The sparkline fed by the telemetry store: what one camera's buckets show of everything that arrived. */
module SparklineFeed {
  import opened Common
  import Sparkline
  import TelemetryRuns
  import TelemetryStore

  /** What a frame says: its time, if it can be parsed, and its counts. */
  datatype Reading = Reading(ts: Option<int>, counts: map<string, int>)

  /** An event of the store, or a minute tick of the sparkline. */
  datatype Happening = Net(event: TelemetryRuns.Event) | Minute(now: int)

  function Events(hs: seq<Happening>): seq<TelemetryRuns.Event> {
    if hs == [] then []
    else
      var rest, last := Events(hs[..|hs| - 1]), hs[|hs| - 1];
      if last.Net? then rest + [last.event] else rest
  }

  /** The frame that a message makes the camera's listener apply. */
  function Told(before: seq<TelemetryRuns.Event>, e: TelemetryRuns.Event, c: string): Option<TelemetryStore.Frame> {
    if e.Message? && TelemetryRuns.Count(before, c) > 0 then TelemetryRuns.Last(TelemetryRuns.Only(e.frames, c))
    else None
  }

  /** The steps of the sparkline of a camera. */
  function Steps(hs: seq<Happening>, c: string, read: TelemetryStore.Frame -> Reading): seq<Sparkline.Event> {
    if hs == [] then []
    else
      var front, last := hs[..|hs| - 1], hs[|hs| - 1];
      var rest := Steps(front, c, read);
      match last
      case Minute(now) => rest + [Sparkline.Tick(now)]
      case Net(e) =>
        var told := Told(Events(front), e, c);
        if told.None? then rest else rest + [Sparkline.Frame(read(told.value).ts, read(told.value).counts)]
  }

  /** The dated observations of some frames. */
  function Observations(frames: seq<TelemetryStore.Frame>, read: TelemetryStore.Frame -> Reading): seq<Sparkline.Obs> {
    if frames == [] then []
    else
      var rest, r := Observations(frames[..|frames| - 1], read), read(frames[|frames| - 1]);
      if r.ts.Some? then rest + [Sparkline.Obs(Sparkline.FloorMinute(r.ts.value), r.counts)] else rest
  }

  lemma {:induction false} StepsAreUnseeded(hs: seq<Happening>, c: string, read: TelemetryStore.Frame -> Reading)
    ensures Sparkline.Unseeded(Steps(hs, c, read))
  {
    if hs != [] {
      hide Told, Events;
      StepsAreUnseeded(hs[..|hs| - 1], c, read);
    }
  }

  lemma SnocFrame(events: seq<Sparkline.Event>, e: Sparkline.Event)
    ensures Sparkline.FramesOf(events + [e]) ==
            if e.Frame? && e.ts.Some?
            then Sparkline.FramesOf(events) + [Sparkline.Obs(Sparkline.FloorMinute(e.ts.value), e.counts)]
            else Sparkline.FramesOf(events)
  {
    assert (events + [e])[..|events|] == events;
  }

  lemma SnocHeard(events: seq<TelemetryRuns.Event>, e: TelemetryRuns.Event, c: string)
    ensures TelemetryRuns.Heard(events + [e], c) ==
            if Told(events, e, c).Some? then TelemetryRuns.Heard(events, c) + [Told(events, e, c).value]
            else TelemetryRuns.Heard(events, c)
  {
    hide TelemetryRuns.Only, TelemetryRuns.Count;
    assert (events + [e])[..|events|] == events;
  }

  lemma SnocObservation(
    frames: seq<TelemetryStore.Frame>, f: TelemetryStore.Frame, read: TelemetryStore.Frame -> Reading)
    ensures Observations(frames + [f], read) ==
            if read(f).ts.Some?
            then Observations(frames, read) + [Sparkline.Obs(Sparkline.FloorMinute(read(f).ts.value), read(f).counts)]
            else Observations(frames, read)
  {
    assert (frames + [f])[..|frames|] == frames;
  }

  /** The sparkline is given exactly the frames that listeners hear. */
  lemma {:induction false} FedWhatIsHeard(hs: seq<Happening>, c: string, read: TelemetryStore.Frame -> Reading)
    ensures Sparkline.FramesOf(Steps(hs, c, read)) == Observations(TelemetryRuns.Heard(Events(hs), c), read)
  {
    if hs != [] {
      hide Told, TelemetryRuns.Heard, Sparkline.FramesOf, Observations, Sparkline.FloorMinute;
      var front, last := hs[..|hs| - 1], hs[|hs| - 1];
      FedWhatIsHeard(front, c, read);
      var rest := Steps(front, c, read);
      match last
      case Minute(now) => SnocFrame(rest, Sparkline.Tick(now));
      case Net(e) =>
        SnocHeard(Events(front), e, c);
        var told := Told(Events(front), e, c);
        if told.Some? {
          SnocFrame(rest, Sparkline.Frame(read(told.value).ts, read(told.value).counts));
          SnocObservation(TelemetryRuns.Heard(Events(front), c), told.value, read);
        }
    } else {
      assert Events(hs) == [] && TelemetryRuns.Heard([], c) == [];
    }
  }

  /** Over every run of the store and the clock, from any agreeing window, the buckets show the peaks of what the window
      already had and of the frames that were heard; they show all frames that arrived while the camera was subscribed
      when no message carries two of them. */
  lemma BucketsShowWhatIsHeard(
    r: Sparkline.Run, hs: seq<Happening>, c: string, read: TelemetryStore.Frame -> Reading)
    requires Sparkline.Agrees(r)
    ensures Sparkline.Agrees(Sparkline.Continue(r, Steps(hs, c, read)))
    ensures Sparkline.Continue(r, Steps(hs, c, read)).history
         == r.history + Observations(TelemetryRuns.Heard(Events(hs), c), read)
    ensures TelemetryRuns.NoneCrowded(Events(hs), c) ==>
              Sparkline.Continue(r, Steps(hs, c, read)).history
              == r.history + Observations(TelemetryRuns.Arrivals(Events(hs), c), read)
  {
    hide Sparkline.Agrees, Sparkline.Continue, Steps, TelemetryRuns.Heard, TelemetryRuns.Arrivals, Observations;
    hide TelemetryRuns.NoneCrowded, Sparkline.FramesOf;
    StepsAreUnseeded(hs, c, read);
    AgreeingIsProper(r);
    Sparkline.ContinueAgrees(r, Steps(hs, c, read));
    FedWhatIsHeard(hs, c, read);
    TelemetryRuns.HeardIff(Events(hs), c);
  }

  lemma AgreeingIsProper(r: Sparkline.Run)
    requires Sparkline.Agrees(r)
    ensures Sparkline.Proper(r.window.buckets)
  {
  }
}
