/** What the telemetry store keeps over every run of events, however late its sockets answer. */
module TelemetryRuns {
  import opened Common
  import opened TelemetryStore

  const RECONNECT_MS := 1500

  datatype Event =
    | Subscribe(camera: string)
    | Unsubscribe(camera: string)
    | Opened(w: nat)
    | Failed(w: nat)
    | Dropped(w: nat)
    | Message(w: nat, frames: seq<Frame>)
    | IdleTimeout(t: nat)
    | ReconnectTimeout(t: nat)

  function Step(o: Options, s: Store, e: Event): Store {
    match e
    case Subscribe(c) => Subscribed(o, s, c)
    case Unsubscribe(c) => Unsubscribed(s, c)
    case Opened(_) => s.(connection := Connection.Open)
    case Failed(_) => s.(connection := Connection.Error)
    case Dropped(w) => SocketClosed(s, w)
    case Message(_, frames) => ArriveAll(o, s, frames)
    case IdleTimeout(t) => IdleFired(s, t)
    case ReconnectTimeout(t) => ReconnectFired(o, s, t)
  }

  /** Sockets speak until they are reported closed. A pending timer fires only after the timers that were started
      before it with no longer delay, as the HTML standard orders them. */
  predicate Enabled(o: Options, s: Store, e: Event) {
    match e
    case Subscribe(_) => true
    case Unsubscribe(_) => true
    case Opened(w) => w in s.live
    case Failed(w) => w in s.live
    case Dropped(w) => w in s.live
    case Message(w, _) => w in s.live
    case IdleTimeout(t) =>
      t in s.idlePending
      && (forall u :: u in s.idlePending ==> t <= u)
      && (RECONNECT_MS <= o.idleGrace ==> forall u :: u in s.reconnectPending ==> t < u)
    case ReconnectTimeout(t) =>
      t in s.reconnectPending
      && (forall u :: u in s.reconnectPending ==> t <= u)
      && (o.idleGrace <= RECONNECT_MS ==> forall u :: u in s.idlePending ==> t < u)
  }

  function Run(o: Options, events: seq<Event>): Store {
    if events == [] then EMPTY else Step(o, Run(o, events[..|events| - 1]), events[|events| - 1])
  }

  predicate Possible(o: Options, events: seq<Event>) {
    events != [] ==>
      && Possible(o, events[..|events| - 1])
      && Enabled(o, Run(o, events[..|events| - 1]), events[|events| - 1])
  }

  // ----- what every step keeps -----

  predicate Connected(o: Options, s: Store) {
    o.hasToken && s.subscribers != map[] ==> s.socket.Some? || s.reconnectPending != {}
  }

  predicate IdleOnlyWithoutSubscribers(s: Store) {
    s.idlePending != {} ==> s.subscribers == map[]
  }

  predicate Below(s: set<nat>, bound: nat) { forall x :: x in s ==> x < bound }

  predicate SocketIdentified(s: Store) {
    && Below(s.live, s.nextId) && Below(s.closing, s.nextId)
    && (s.socket.Some? ==> s.socket.value in s.live && s.socket.value !in s.closing)
  }

  predicate TimersIdentified(s: Store) {
    && Below(s.idlePending, s.nextId) && Below(s.reconnectPending, s.nextId)
    && s.idlePending == (if s.idleTimer.Some? then {s.idleTimer.value} else {})
  }

  predicate Identified(s: Store) { SocketIdentified(s) && TimersIdentified(s) }

  predicate Inv(o: Options, s: Store) {
    Connected(o, s) && IdleOnlyWithoutSubscribers(s) && Identified(s)
  }

  lemma {:induction false} ArrivalKeeps(o: Options, s: Store, frames: seq<Frame>)
    ensures ArriveAll(o, s, frames)
         == s.(latest := ArriveAll(o, s, frames).latest, buffers := ArriveAll(o, s, frames).buffers)
  {
    if frames != [] {
      ArrivalKeeps(o, s, frames[..|frames| - 1]);
    }
  }

  lemma StepKeeps(o: Options, s: Store, e: Event)
    requires Inv(o, s) && Enabled(o, s, e)
    ensures Inv(o, Step(o, s, e))
  {
    hide Step, Enabled, Identified;
    StepKeepsConnected(o, s, e);
    StepKeepsIdentified(o, s, e);
  }

  lemma StepKeepsConnected(o: Options, s: Store, e: Event)
    requires Inv(o, s) && Enabled(o, s, e)
    ensures Connected(o, Step(o, s, e)) && IdleOnlyWithoutSubscribers(Step(o, s, e))
  {
    if e.Message? {
      ArrivalKeeps(o, s, e.frames);
    }
  }

  lemma StepKeepsIdentified(o: Options, s: Store, e: Event)
    requires Identified(s) && Enabled(o, s, e)
    ensures Identified(Step(o, s, e))
  {
    hide *;
    StepKeepsSocket(o, s, e);
    StepKeepsTimers(o, s, e);
    IdentifiedIsBoth(s);
    IdentifiedIsBoth(Step(o, s, e));
  }

  lemma IdentifiedIsBoth(s: Store)
    ensures Identified(s) <==> SocketIdentified(s) && TimersIdentified(s)
  {
  }

  lemma StepKeepsSocket(o: Options, s: Store, e: Event)
    requires Identified(s)
    ensures SocketIdentified(Step(o, s, e))
  {
    hide TimersIdentified, Release;
    if e.Message? {
      ArrivalKeeps(o, s, e.frames);
    }
  }

  lemma StepKeepsTimers(o: Options, s: Store, e: Event)
    requires Identified(s) && Enabled(o, s, e)
    ensures TimersIdentified(Step(o, s, e))
  {
    hide SocketIdentified, Release;
    if e.Message? {
      ArrivalKeeps(o, s, e.frames);
    }
  }

  /** In every reachable state: a subscribed camera has a socket or a pending reconnect, and a pending idle timer
      means nobody is subscribed. */
  lemma {:induction false} EveryRun(o: Options, events: seq<Event>)
    requires Possible(o, events)
    ensures Inv(o, Run(o, events))
  {
    hide Inv, Step, Enabled;
    if events == [] {
      EmptyInv(o);
    } else {
      EveryRun(o, events[..|events| - 1]);
      StepKeeps(o, Run(o, events[..|events| - 1]), events[|events| - 1]);
    }
  }

  lemma EmptyInv(o: Options)
    ensures Inv(o, EMPTY)
  {
  }

  /** The store itself closes a socket only when nobody is subscribed; and its idle timer, when it fires, always
      finds nobody subscribed and lets go of the socket. */
  lemma ClosesOnlyUnused(o: Options, events: seq<Event>, e: Event)
    requires Possible(o, events + [e])
    ensures Run(o, events + [e]).closing != Run(o, events).closing ==> Run(o, events).subscribers == map[]
    ensures e.IdleTimeout? ==> Run(o, events).subscribers == map[] && Run(o, events + [e]).socket.None?
  {
    assert (events + [e])[..|events|] == events;
    EveryRun(o, events);
    if e.Message? {
      ArrivalKeeps(o, Run(o, events), e.frames);
    }
  }

  // ----- subscriptions and buffers against the history -----

  /** Subscriptions of one camera, told from the history alone. */
  function Count(events: seq<Event>, c: string): nat {
    if events == [] then 0
    else
      var last, n := events[|events| - 1], Count(events[..|events| - 1], c);
      if last == Subscribe(c) then n + 1
      else if last == Unsubscribe(c) && n > 0 then n - 1
      else n
  }

  /** Which part of the store each step leaves alone. */
  lemma StepFrame(o: Options, s: Store, e: Event)
    ensures Step(o, s, e).subscribers ==
            match e
            case Subscribe(c) => s.subscribers[c := (if c in s.subscribers then s.subscribers[c] else 0) + 1]
            case Unsubscribe(c) => Release(s.subscribers, c)
            case _ => s.subscribers
    ensures !e.Message? ==> Step(o, s, e).buffers == s.buffers && Step(o, s, e).latest == s.latest
  {
    hide Release;
    if e.Message? {
      ArrivalKeeps(o, s, e.frames);
    }
  }

  lemma {:induction false} SubscribersAreCounted(o: Options, events: seq<Event>, c: string)
    ensures c in Run(o, events).subscribers <==> Count(events, c) > 0
    ensures c in Run(o, events).subscribers ==> Run(o, events).subscribers[c] == Count(events, c)
  {
    if events != [] {
      hide Step;
      var front, last := events[..|events| - 1], events[|events| - 1];
      SubscribersAreCounted(o, front, c);
      StepFrame(o, Run(o, front), last);
    }
  }

  function Only(frames: seq<Frame>, c: string): seq<Frame> {
    if frames == [] then []
    else
      var rest := Only(frames[..|frames| - 1], c);
      if frames[|frames| - 1].camera == c then rest + [frames[|frames| - 1]] else rest
  }

  /** The frames of a camera that arrived while it was subscribed. */
  function Arrivals(events: seq<Event>, c: string): seq<Frame> {
    if events == [] then []
    else
      var front, last := events[..|events| - 1], events[|events| - 1];
      if last.Message? && Count(front, c) > 0 then Arrivals(front, c) + Only(last.frames, c) else Arrivals(front, c)
  }

  lemma NewestOfNewest<T>(a: seq<T>, x: T, n: int)
    ensures Newest(Newest(a, n) + [x], n) == Newest(a + [x], n)
  {
  }

  function Last<T>(s: seq<T>): Option<T> { if s == [] then None else Some(s[|s| - 1]) }

  lemma {:induction false} FramesArrive(o: Options, s: Store, frames: seq<Frame>, c: string, a: seq<Frame>)
    requires BufferOf(s, c) == Newest(a, o.capacity) && LatestOf(s, c) == Last(a)
    ensures c in s.subscribers ==>
              && BufferOf(ArriveAll(o, s, frames), c) == Newest(a + Only(frames, c), o.capacity)
              && LatestOf(ArriveAll(o, s, frames), c) == Last(a + Only(frames, c))
    ensures c !in s.subscribers ==>
              && BufferOf(ArriveAll(o, s, frames), c) == BufferOf(s, c)
              && LatestOf(ArriveAll(o, s, frames), c) == LatestOf(s, c)
  {
    if frames == [] {
      assert a + Only(frames, c) == a;
    } else {
      hide Arrive, Newest, Last;
      var front, last := frames[..|frames| - 1], frames[|frames| - 1];
      FramesArrive(o, s, front, c, a);
      ArrivalKeeps(o, s, front);
      FrameArrives(o, ArriveAll(o, s, front), last, c, if c in s.subscribers then a + Only(front, c) else a);
      assert last.camera == c ==> a + Only(frames, c) == (a + Only(front, c)) + [last];
    }
  }

  lemma FrameArrives(o: Options, s: Store, f: Frame, c: string, a: seq<Frame>)
    requires BufferOf(s, c) == Newest(a, o.capacity) && LatestOf(s, c) == Last(a)
    ensures f.camera == c && c in s.subscribers ==>
              && BufferOf(Arrive(o, s, f), c) == Newest(a + [f], o.capacity)
              && LatestOf(Arrive(o, s, f), c) == Last(a + [f])
    ensures f.camera != c || c !in s.subscribers ==>
              BufferOf(Arrive(o, s, f), c) == BufferOf(s, c) && LatestOf(Arrive(o, s, f), c) == LatestOf(s, c)
  {
    hide Newest;
    NewestOfNewest(a, f, o.capacity);
  }

  /** After any events, a camera's buffer is the newest `capacity` frames that arrived while it was subscribed,
      and its latest frame is the last of those arrivals. */
  lemma {:induction false} BufferIsTheNewestArrivals(o: Options, events: seq<Event>, c: string)
    ensures BufferOf(Run(o, events), c) == Newest(Arrivals(events, c), o.capacity)
    ensures LatestOf(Run(o, events), c) == Last(Arrivals(events, c))
  {
    if events != [] {
      hide Newest, ArriveAll, Only, Count, Last;
      var front, last := events[..|events| - 1], events[|events| - 1];
      BufferIsTheNewestArrivals(o, front, c);
      SubscribersAreCounted(o, front, c);
      if last.Message? {
        FramesArrive(o, Run(o, front), last.frames, c, Arrivals(front, c));
      } else {
        hide Step;
        StepFrame(o, Run(o, front), last);
      }
    } else {
      assert Newest<Frame>([], o.capacity) == [];
    }
  }

  /** The latest frame is the end of the buffer exactly when the buffer has room for one frame at all, or nothing
      ever arrived. */
  lemma LatestEndsTheBuffer(o: Options, events: seq<Event>, c: string)
    ensures LatestOf(Run(o, events), c) == Last(BufferOf(Run(o, events), c))
       <==> o.capacity >= 1 || Arrivals(events, c) == []
  {
    hide Run, Arrivals;
    BufferIsTheNewestArrivals(o, events, c);
  }

  // ----- what listeners see -----

  /** Listeners are told once per message and read the latest frame: of each message they see one frame of a camera. */
  function Heard(events: seq<Event>, c: string): seq<Frame> {
    if events == [] then []
    else
      var front, last := events[..|events| - 1], events[|events| - 1];
      var rest := Heard(front, c);
      if last.Message? && Count(front, c) > 0 && Only(last.frames, c) != []
      then rest + [Only(last.frames, c)[|Only(last.frames, c)| - 1]] else rest
  }

  /** A message that carries several frames of a subscribed camera. */
  predicate Crowded(events: seq<Event>, c: string, k: int) {
    && 0 <= k < |events| && events[k].Message?
    && Count(events[..k], c) > 0 && |Only(events[k].frames, c)| > 1
  }

  ghost predicate NoneCrowded(events: seq<Event>, c: string) {
    forall k :: !Crowded(events, c, k)
  }

  lemma {:induction false} HeardIsShorter(events: seq<Event>, c: string)
    ensures |Heard(events, c)| <= |Arrivals(events, c)|
  {
    if events != [] {
      HeardIsShorter(events[..|events| - 1], c);
    }
  }

  /** The latest frame is the one heard last; listeners see every arrival exactly when no message carries two frames of
      the camera. */
  lemma ListenersMissIff(o: Options, events: seq<Event>, c: string)
    ensures LatestOf(Run(o, events), c) == Last(Heard(events, c))
    ensures Heard(events, c) == Arrivals(events, c) <==> NoneCrowded(events, c)
  {
    hide Run;
    BufferIsTheNewestArrivals(o, events, c);
    LastIsHeard(events, c);
    HeardIff(events, c);
  }

  lemma {:induction false} LastIsHeard(events: seq<Event>, c: string)
    ensures Last(Heard(events, c)) == Last(Arrivals(events, c))
  {
    if events != [] {
      hide Only, Count;
      LastIsHeard(events[..|events| - 1], c);
      if events[|events| - 1].Message? && Only(events[|events| - 1].frames, c) == [] {
        assert Arrivals(events[..|events| - 1], c) + [] == Arrivals(events[..|events| - 1], c);
      }
    }
  }

  lemma {:induction false} HeardIff(events: seq<Event>, c: string)
    ensures Heard(events, c) == Arrivals(events, c) <==> NoneCrowded(events, c)
  {
    if events != [] {
      hide Only, Count, NoneCrowded;
      var front, n := events[..|events| - 1], |events| - 1;
      assert events[..n] == front;
      HeardIff(front, c);
      HeardIsShorter(front, c);
      CrowdedFront(events, c);
      if events[n].Message? && Count(front, c) > 0 {
        var some := Only(events[n].frames, c);
        Appended(Heard(front, c), Arrivals(front, c), some);
      }
    }
  }

  lemma CrowdedFront(events: seq<Event>, c: string)
    requires events != []
    ensures NoneCrowded(events, c) <==>
            NoneCrowded(events[..|events| - 1], c) && !Crowded(events, c, |events| - 1)
  {
    hide Only, Count;
    var front := events[..|events| - 1];
    forall k
      ensures Crowded(events, c, k) <==> Crowded(front, c, k) || (k == |front| && Crowded(events, c, |front|))
    {
      if 0 <= k < |front| {
        assert front[..k] == events[..k];
      }
    }
  }

  lemma Appended(a: seq<Frame>, b: seq<Frame>, some: seq<Frame>)
    requires |a| <= |b|
    ensures some != [] ==> (a + [some[|some| - 1]] == b + some <==> a == b && |some| == 1)
    ensures some == [] ==> b + some == b
  {
    if some != [] && a + [some[|some| - 1]] == b + some {
      assert |a| == |b| && |some| == 1;
      assert a == (a + [some[|some| - 1]])[..|a|] && b == (b + some)[..|b|];
    }
    if |some| == 1 {
      assert some == [some[0]];
    }
  }

  // ----- which connections stay open -----

  /** Every connection that was not told to close is the one the store holds. */
  predicate OwnsAll(s: Store) {
    forall w :: w in s.live && w !in s.closing ==> s.socket == Some(w)
  }

  /** A close report that is not about the socket held. */
  predicate Stale(s: Store, e: Event) {
    e.Dropped? && s.socket.Some? && s.socket.value != e.w
  }

  lemma OwnsAllStep(o: Options, s: Store, e: Event)
    requires Inv(o, s) && Enabled(o, s, e) && OwnsAll(s)
    ensures OwnsAll(Step(o, s, e)) <==> !Stale(s, e)
  {
    if e.Message? {
      ArrivalKeeps(o, s, e.frames);
    } else if Stale(s, e) {
      assert s.socket.value in Step(o, s, e).live;
    }
  }

  predicate OwnsAllThroughout(o: Options, events: seq<Event>) {
    OwnsAll(Run(o, events)) && (events != [] ==> OwnsAllThroughout(o, events[..|events| - 1]))
  }

  predicate SomeStale(o: Options, events: seq<Event>) {
    events != []
    && (SomeStale(o, events[..|events| - 1]) || Stale(Run(o, events[..|events| - 1]), events[|events| - 1]))
  }

  /** The store keeps track of every open connection throughout a run exactly when no close report arrives late,
      that is, for another socket than the one held. */
  lemma {:induction false} OneConnectionUnlessLate(o: Options, events: seq<Event>)
    requires Possible(o, events)
    ensures OwnsAllThroughout(o, events) <==> !SomeStale(o, events)
  {
    if events != [] {
      hide Inv, OwnsAll, Stale, Step, Enabled;
      var front, last := events[..|events| - 1], events[|events| - 1];
      OneConnectionUnlessLate(o, front);
      EveryRun(o, front);
      if OwnsAll(Run(o, front)) {
        OwnsAllStep(o, Run(o, front), last);
      } else if front == [] {
        EmptyOwnsAll();
      }
    }
  }

  lemma EmptyOwnsAll()
    ensures OwnsAll(EMPTY)
  {
  }

  lemma OneMore(o: Options, events: seq<Event>, e: Event, s: Store)
    requires Possible(o, events) && Run(o, events) == s && Enabled(o, s, e)
    ensures Possible(o, events + [e]) && Run(o, events + [e]) == Step(o, s, e)
  {
    assert (events + [e])[..|events|] == events;
  }

  /** A late report at work: the idle-closed first socket answers after a second one was opened, the store forgets
      the second, and its reconnect opens a third beside it. */
  lemma LateReportLeavesTwoConnections(o: Options) returns (events: seq<Event>)
    requires o.hasToken
    ensures Possible(o, events)
    ensures exists v, w :: v != w && {v, w} <= Run(o, events).live - Run(o, events).closing
  {
    hide Run, Possible;
    var s;
    events, s := AfterIdleClose(o);
    events, s := Then(o, events, Subscribe("b"), s);
    events, s := Then(o, events, Dropped(0), s);
    assert s.idlePending == {} && s.reconnectPending == {3};
    events, s := Then(o, events, ReconnectTimeout(3), s);
    assert 2 in s.live && 4 in s.live && s.closing == {0};
    assert {2, 4} <= s.live - s.closing;
  }

  lemma AfterIdleClose(o: Options) returns (events: seq<Event>, s: Store)
    requires o.hasToken
    ensures Possible(o, events) && Run(o, events) == s
    ensures s == EMPTY.(connection := Connecting, live := {0}, closing := {0}, nextId := 2)
  {
    hide Run, Possible;
    events := Begin(o, Subscribe("a"));
    s := Step(o, EMPTY, Subscribe("a"));
    events, s := Then(o, events, Unsubscribe("a"), s);
    assert s.idlePending == {1} && s.reconnectPending == {};
    events, s := Then(o, events, IdleTimeout(1), s);
  }

  lemma Begin(o: Options, e: Event) returns (events: seq<Event>)
    requires Enabled(o, EMPTY, e)
    ensures events == [e] && Possible(o, events) && Run(o, events) == Step(o, EMPTY, e)
  {
    events := [e];
    assert [e][..0] == [];
  }

  lemma Then(o: Options, events: seq<Event>, e: Event, s: Store) returns (more: seq<Event>, t: Store)
    requires Possible(o, events) && Run(o, events) == s && Enabled(o, s, e)
    ensures more == events + [e] && t == Step(o, s, e) && Possible(o, more) && Run(o, more) == t
  {
    more, t := events + [e], Step(o, s, e);
    OneMore(o, events, e, s);
  }

  // ----- an unused store goes quiet -----

  /** With no subscriber and no idle timer running, no socket is held and no reconnect is coming. */
  predicate Quiet(s: Store) {
    s.subscribers == map[] && s.idlePending == {} ==> s.socket.None? && s.reconnectPending == {}
  }

  /** While the idle timer runs, every pending reconnect was started before it. */
  predicate ReconnectsAreOlder(s: Store) {
    forall t, u :: t in s.idlePending && u in s.reconnectPending ==> u < t
  }

  lemma QuietStep(o: Options, s: Store, e: Event)
    requires Inv(o, s) && Enabled(o, s, e) && Quiet(s) && ReconnectsAreOlder(s) && RECONNECT_MS <= o.idleGrace
    ensures Quiet(Step(o, s, e)) && ReconnectsAreOlder(Step(o, s, e))
  {
    if e.Message? {
      ArrivalKeeps(o, s, e.frames);
    }
  }

  lemma {:induction false} LongGraceIsQuiet(o: Options, events: seq<Event>)
    requires Possible(o, events) && RECONNECT_MS <= o.idleGrace
    ensures Quiet(Run(o, events)) && ReconnectsAreOlder(Run(o, events))
  {
    if events != [] {
      hide Inv, Quiet, ReconnectsAreOlder, Step, Enabled;
      var front, last := events[..|events| - 1], events[|events| - 1];
      LongGraceIsQuiet(o, front);
      EveryRun(o, front);
      QuietStep(o, Run(o, front), last);
    }
  }

  lemma {:induction false} NoTokenNoSocket(o: Options, events: seq<Event>)
    requires Possible(o, events) && !o.hasToken
    ensures Run(o, events).live == {} && Run(o, events).reconnectPending == {} && Run(o, events).socket.None?
  {
    if events != [] {
      var front, last := events[..|events| - 1], events[|events| - 1];
      NoTokenNoSocket(o, front);
    }
  }

  /** With a grace period shorter than the reconnect delay, a forgotten reconnect outlives the idle close and opens
      a socket that nobody uses and no timer closes. */
  lemma ShortGraceIsNot(o: Options) returns (events: seq<Event>)
    requires o.hasToken && o.idleGrace < RECONNECT_MS
    ensures Possible(o, events) && !Quiet(Run(o, events)) && Run(o, events).socket.Some?
  {
    hide Run, Possible;
    var s;
    events, s := AfterTwoDrops(o);
    events, s := Then(o, events, Unsubscribe("a"), s);
    assert s.subscribers == map["b" := 1];
    events, s := Then(o, events, Unsubscribe("b"), s);
    assert s.reconnectPending == {1, 3} && s.idlePending == {4};
    events, s := Then(o, events, IdleTimeout(4), s);
    assert s.reconnectPending == {1} && s.idlePending == {};
    events, s := Then(o, events, ReconnectTimeout(1), s);
  }

  lemma AfterTwoDrops(o: Options) returns (events: seq<Event>, s: Store)
    requires o.hasToken
    ensures Possible(o, events) && Run(o, events) == s
    ensures s == EMPTY.(subscribers := map["a" := 1, "b" := 1], reconnectTimer := Some(3), reconnectPending := {1, 3},
                        nextId := 4)
  {
    hide Run, Possible;
    events := Begin(o, Subscribe("a"));
    s := Step(o, EMPTY, Subscribe("a"));
    events, s := Then(o, events, Dropped(0), s);
    events, s := Then(o, events, Subscribe("b"), s);
    events, s := Then(o, events, Dropped(2), s);
  }

  /** The store always goes quiet exactly when the idle grace covers the reconnect delay, or it never connects. */
  lemma QuietIffGraceCoversReconnect(o: Options)
    ensures (forall events :: Possible(o, events) ==> Quiet(Run(o, events)))
       <==> !o.hasToken || RECONNECT_MS <= o.idleGrace
  {
    hide Run, Possible;
    if !o.hasToken {
      forall events | Possible(o, events)
        ensures Quiet(Run(o, events))
      {
        NoTokenNoSocket(o, events);
      }
    } else if RECONNECT_MS <= o.idleGrace {
      forall events | Possible(o, events)
        ensures Quiet(Run(o, events))
      {
        LongGraceIsQuiet(o, events);
      }
    } else {
      var events := ShortGraceIsNot(o);
    }
  }
}
