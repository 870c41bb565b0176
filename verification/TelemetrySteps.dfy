/** What each event does to the store, in every possible run, told in its fields:
    `frontend/src/stores/telemetry-store.ts`. */
module TelemetrySteps {
  import opened Common
  import opened TelemetryStore
  import opened TelemetryRuns

  /** What the connection is called after an event: opening a socket is connecting, and the last report decides. */
  lemma ConnectionIsCalled(o: Options, events: seq<Event>, e: Event)
    requires Possible(o, events + [e])
    ensures var s, t := Run(o, events), Run(o, events + [e]);
            t.connection ==
            match e
            case Opened(_) => Connection.Open
            case Failed(_) => Connection.Error
            case Dropped(_) => Connection.Closed
            case _ => if s.socket.None? && t.socket.Some? then Connection.Connecting else s.connection
  {
    Last(o, events, e);
    if e.Message? {
      ArrivalKeeps(o, Run(o, events), e.frames);
    }
  }

  lemma Last(o: Options, events: seq<Event>, e: Event)
    ensures Run(o, events + [e]) == Step(o, Run(o, events), e)
    ensures Possible(o, events + [e]) <==> Possible(o, events) && Enabled(o, Run(o, events), e)
  {
    assert (events + [e])[..|events|] == events;
  }

  /** A subscription and a reconnect leave a socket held whenever there is a token; a socket held already stays, and a
      new one is new. */
  lemma SocketsOpen(o: Options, events: seq<Event>, e: Event)
    requires Possible(o, events + [e]) && (e.Subscribe? || e.ReconnectTimeout?)
    ensures var s, t := Run(o, events), Run(o, events + [e]);
            && (t.socket.Some? <==> o.hasToken || s.socket.Some?)
            && (s.socket.Some? ==> t.socket == s.socket && t.live == s.live)
            && (s.socket.None? && o.hasToken ==> t.socket.value !in s.live && t.live == s.live + {t.socket.value})
            && t.closing == s.closing
            && (e.Subscribe? ==> t.idlePending == {} && t.reconnectPending == s.reconnectPending)
            && (e.ReconnectTimeout? ==>
                  t.idlePending == s.idlePending && t.reconnectPending == s.reconnectPending - {e.t})
  {
    hide Connected;
    Last(o, events, e);
    EveryRun(o, events);
  }

  /** An unsubscription touches no socket; it starts a new idle timer, the only one, exactly when nobody is left. */
  lemma UnsubscriptionWaits(o: Options, events: seq<Event>, c: string)
    requires Possible(o, events + [Unsubscribe(c)])
    ensures var s, t := Run(o, events), Run(o, events + [Unsubscribe(c)]);
            && t.socket == s.socket && t.live == s.live && t.closing == s.closing
            && t.reconnectPending == s.reconnectPending
            && if Nobody(events + [Unsubscribe(c)])
               then exists n :: n >= s.nextId && t.idlePending == {n}
               else t.idlePending == {}
  {
    hide Connected, Run, Possible, Step, Release, Nobody;
    var s, t := Run(o, events), Run(o, events + [Unsubscribe(c)]);
    Last(o, events, Unsubscribe(c));
    EveryRun(o, events);
    NobodyLeft(o, events + [Unsubscribe(c)]);
    OneUnsubscribed(o, s, c);
  }

  lemma OneUnsubscribed(o: Options, s: Store, c: string)
    requires Inv(o, s)
    ensures var t := Step(o, s, Unsubscribe(c));
            && t.socket == s.socket && t.live == s.live && t.closing == s.closing
            && t.reconnectPending == s.reconnectPending
            && (t.subscribers == map[] ==> t.idlePending == {s.nextId})
            && (t.subscribers != map[] ==> t.idlePending == {})
  {
    hide Connected, SocketIdentified;
    assert s.subscribers == map[] ==> Release(s.subscribers, c) == map[];
  }

  /** Every camera's subscriptions are all taken back. */
  ghost predicate Nobody(events: seq<Event>) { forall c :: Count(events, c) == 0 }

  lemma NobodyLeft(o: Options, events: seq<Event>)
    ensures Run(o, events).subscribers == map[] <==> Nobody(events)
  {
    hide Run, Count;
    var m := Run(o, events).subscribers;
    forall c
      ensures c in m <==> Count(events, c) > 0
    {
      SubscribersAreCounted(o, events, c);
    }
    if Nobody(events) {
      assert m.Keys == {};
      assert m == map[];
    } else {
      var c :| Count(events, c) != 0;
      assert c in m;
    }
  }

  /** A close report lets go of the socket held, and schedules one new reconnect exactly when somebody subscribes. */
  lemma CloseReportReconnects(o: Options, events: seq<Event>, w: nat)
    requires Possible(o, events + [Dropped(w)])
    ensures var s, t := Run(o, events), Run(o, events + [Dropped(w)]);
            && t.socket == None && t.live == s.live - {w} && t.closing == s.closing && t.idlePending == s.idlePending
            && if Nobody(events) then t.reconnectPending == s.reconnectPending
               else exists n :: n >= s.nextId && n !in s.reconnectPending
                                && t.reconnectPending == s.reconnectPending + {n}
  {
    hide Connected, Run, Possible, Nobody, SocketIdentified;
    var s, t := Run(o, events), Run(o, events + [Dropped(w)]);
    Last(o, events, Dropped(w));
    EveryRun(o, events);
    NobodyLeft(o, events);
    assert s.nextId !in s.reconnectPending;
  }

  /** The idle timer, when it fires, has the socket held told to close, and at most one reconnect taken back. */
  lemma IdleTimerCloses(o: Options, events: seq<Event>, timer: nat)
    requires Possible(o, events + [IdleTimeout(timer)])
    ensures var s, t := Run(o, events), Run(o, events + [IdleTimeout(timer)]);
            && t.socket == None && t.live == s.live && t.idlePending == {}
            && t.closing == (if s.socket.Some? then s.closing + {s.socket.value} else s.closing)
            && t.reconnectPending == (if s.reconnectTimer.Some? then s.reconnectPending - {s.reconnectTimer.value}
                                      else s.reconnectPending)
  {
    hide Connected, Run, Possible, SocketIdentified;
    Last(o, events, IdleTimeout(timer));
    EveryRun(o, events);
  }

  /** The buffer is the end of what arrived, as long as the capacity allows. */
  lemma BufferEndsArrivals(o: Options, events: seq<Event>, c: string)
    ensures var b, a := BufferOf(Run(o, events), c), Arrivals(events, c);
            && |b| == (if o.capacity <= 0 then 0 else if |a| < o.capacity then |a| else o.capacity)
            && b == a[|a| - |b|..]
  {
    hide Run, Arrivals;
    BufferIsTheNewestArrivals(o, events, c);
  }

  /** An unused store goes quiet in every run exactly when its grace is at least a second and a half. */
  lemma GraceInMilliseconds(o: Options)
    requires o.hasToken
    ensures (forall events :: Possible(o, events) ==>
               (Run(o, events).subscribers == map[] && Run(o, events).idlePending == {} ==>
                  Run(o, events).socket == None && Run(o, events).reconnectPending == {}))
       <==> o.idleGrace >= 1_500
  {
    hide Run, Possible;
    QuietIffGraceCoversReconnect(o);
    if forall events :: Possible(o, events) ==>
         (Run(o, events).subscribers == map[] && Run(o, events).idlePending == {} ==>
            Run(o, events).socket == None && Run(o, events).reconnectPending == {}) {
      assert forall events :: Possible(o, events) ==> Quiet(Run(o, events));
    } else {
      assert exists events :: Possible(o, events) && !Quiet(Run(o, events));
    }
  }
}
