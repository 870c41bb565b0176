/** The shared telemetry socket of `frontend/src/stores/telemetry-store.ts`.

    Each callback runs to its end before the next one starts, so each is one step: a function on values, which
    the class below does on its fields. The browser's part of the state is which sockets it has not yet reported
    closed, which of them were told to close, and which timers are pending. Identifiers only grow. */
module TelemetryStore {
  import opened Common

  datatype Frame = Frame(camera: string, body: nat)

  datatype Connection = Connecting | Open | Closed | Error

  datatype Options = Options(hasToken: bool, capacity: int, idleGrace: int)

  datatype Store = Store(
    subscribers: map<string, int>,
    buffers: map<string, seq<Frame>>,
    latest: map<string, Frame>,
    socket: Option<nat>,
    connection: Connection,
    idleTimer: Option<nat>,
    reconnectTimer: Option<nat>,
    live: set<nat>,
    closing: set<nat>,
    idlePending: set<nat>,
    reconnectPending: set<nat>,
    nextId: nat)

  const EMPTY := Store(map[], map[], map[], None, Connection.Closed, None, None, {}, {}, {}, {}, 0)

  // ----- steps on values -----

  function OpenSocket(o: Options, s: Store): Store {
    if s.socket.Some? || !o.hasToken then s
    else s.(connection := Connecting, socket := Some(s.nextId), live := s.live + {s.nextId}, nextId := s.nextId + 1)
  }

  function CloseSocket(s: Store): Store {
    var t := if s.reconnectTimer.None? then s
             else s.(reconnectPending := s.reconnectPending - {s.reconnectTimer.value}, reconnectTimer := None);
    if t.socket.None? then t else t.(closing := t.closing + {t.socket.value}, socket := None)
  }

  function ClearIdle(s: Store): Store {
    if s.idleTimer.None? then s else s.(idlePending := s.idlePending - {s.idleTimer.value}, idleTimer := None)
  }

  function ScheduleIdleClose(s: Store): Store {
    var t := ClearIdle(s);
    t.(idleTimer := Some(t.nextId), idlePending := t.idlePending + {t.nextId}, nextId := t.nextId + 1)
  }

  function Subscribed(o: Options, s: Store, c: string): Store {
    var t := ClearIdle(s);
    OpenSocket(o, t.(subscribers := t.subscribers[c := (if c in t.subscribers then t.subscribers[c] else 0) + 1]))
  }

  /** One subscription less; a camera nobody subscribed to counts as having one. */
  function Release(subscribers: map<string, int>, c: string): map<string, int> {
    var next := (if c in subscribers then subscribers[c] else 1) - 1;
    if next <= 0 then subscribers - {c} else subscribers[c := next]
  }

  function Unsubscribed(s: Store, c: string): Store {
    var t := s.(subscribers := Release(s.subscribers, c));
    if t.subscribers == map[] then ScheduleIdleClose(t) else t
  }

  function SocketClosed(s: Store, w: nat): Store {
    var t := s.(live := s.live - {w}, socket := None, connection := Connection.Closed);
    if t.subscribers == map[] then t
    else t.(reconnectTimer := Some(t.nextId), reconnectPending := t.reconnectPending + {t.nextId},
            nextId := t.nextId + 1)
  }

  function BufferOf(s: Store, c: string): seq<Frame> { if c in s.buffers then s.buffers[c] else [] }

  function LatestOf(s: Store, c: string): Option<Frame> { if c in s.latest then Some(s.latest[c]) else None }

  function Arrive(o: Options, s: Store, f: Frame): Store {
    if f.camera !in s.subscribers then s
    else s.(latest := s.latest[f.camera := f],
            buffers := s.buffers[f.camera := Newest(BufferOf(s, f.camera) + [f], o.capacity)])
  }

  function ArriveAll(o: Options, s: Store, frames: seq<Frame>): Store {
    if frames == [] then s
    else Arrive(o, ArriveAll(o, s, frames[..|frames| - 1]), frames[|frames| - 1])
  }

  function IdleFired(s: Store, t: nat): Store {
    var u := s.(idlePending := s.idlePending - {t});
    (if u.subscribers == map[] then CloseSocket(u) else u).(idleTimer := None)
  }

  function ReconnectFired(o: Options, s: Store, t: nat): Store {
    OpenSocket(o, s.(reconnectPending := s.reconnectPending - {t}))
  }

  // ----- the same steps on fields -----

  class Telemetry {
    const options: Options
    var subscribers: map<string, int>
    var buffers: map<string, seq<Frame>>
    var latest: map<string, Frame>
    var socket: Option<nat>
    var connection: Connection
    var idleTimer: Option<nat>
    var reconnectTimer: Option<nat>
    var live: set<nat>
    var closing: set<nat>
    var idlePending: set<nat>
    var reconnectPending: set<nat>
    var nextId: nat

    ghost function View(): Store
      reads this
    {
      Store(subscribers, buffers, latest, socket, connection, idleTimer, reconnectTimer,
            live, closing, idlePending, reconnectPending, nextId)
    }

    constructor (options: Options)
      ensures View() == EMPTY && this.options == options
    {
      this.options := options;
      subscribers, buffers, latest := map[], map[], map[];
      socket, connection, idleTimer, reconnectTimer := None, Connection.Closed, None, None;
      live, closing, idlePending, reconnectPending, nextId := {}, {}, {}, {}, 0;
    }

    method Open()
      modifies this
      ensures View() == OpenSocket(options, old(View()))
    {
      if socket.Some? || !options.hasToken {
        return;
      }
      connection := Connecting;
      live := live + {nextId};
      socket := Some(nextId);
      nextId := nextId + 1;
    }

    method Close()
      modifies this
      ensures View() == CloseSocket(old(View()))
    {
      if reconnectTimer.Some? {
        reconnectPending := reconnectPending - {reconnectTimer.value};
        reconnectTimer := None;
      }
      if socket.Some? {
        closing := closing + {socket.value};
      }
      socket := None;
    }

    method CancelIdle()
      modifies this
      ensures View() == ClearIdle(old(View()))
    {
      if idleTimer.Some? {
        idlePending := idlePending - {idleTimer.value};
        idleTimer := None;
      }
    }

    method Subscribe(c: string)
      modifies this
      ensures View() == Subscribed(options, old(View()), c)
    {
      CancelIdle();
      subscribers := subscribers[c := (if c in subscribers then subscribers[c] else 0) + 1];
      if socket.None? {
        Open();
      }
    }

    method Unsubscribe(c: string)
      modifies this
      ensures View() == Unsubscribed(old(View()), c)
    {
      var next := (if c in subscribers then subscribers[c] else 1) - 1;
      if next <= 0 {
        subscribers := subscribers - {c};
      } else {
        subscribers := subscribers[c := next];
      }
      if subscribers == map[] {
        CancelIdle();
        idleTimer := Some(nextId);
        idlePending := idlePending + {nextId};
        nextId := nextId + 1;
      }
    }

    method OnOpen()
      modifies this`connection
      ensures View() == old(View()).(connection := Connection.Open)
    {
      connection := Connection.Open;
    }

    method OnError()
      modifies this`connection
      ensures View() == old(View()).(connection := Connection.Error)
    {
      connection := Connection.Error;
    }

    method ScheduleReconnect()
      modifies this`reconnectTimer, this`reconnectPending, this`nextId
      ensures reconnectTimer == Some(old(nextId)) && nextId == old(nextId) + 1
      ensures reconnectPending == old(reconnectPending) + {old(nextId)}
    {
      reconnectTimer := Some(nextId);
      reconnectPending := reconnectPending + {nextId};
      nextId := nextId + 1;
    }

    method OnClose(w: nat)
      modifies this
      ensures View() == SocketClosed(old(View()), w)
    {
      live := live - {w};
      socket := None;
      connection := Connection.Closed;
      if subscribers != map[] {
        ScheduleReconnect();
      }
    }

    /** A message that does not parse carries no frames. */
    method OnMessage(frames: seq<Frame>)
      modifies this`latest, this`buffers
      ensures View() == ArriveAll(options, old(View()), frames)
    {
      for i := 0 to |frames|
        invariant View() == ArriveAll(options, old(View()), frames[..i])
      {
        assert frames[..i + 1][..i] == frames[..i];
        var frame := frames[i];
        if frame.camera !in subscribers {
          continue;
        }
        latest := latest[frame.camera := frame];
        var buffer := if frame.camera in buffers then buffers[frame.camera] else [];
        buffer := buffer + [frame];
        if |buffer| > options.capacity {
          buffer := Splice(buffer, |buffer| - options.capacity);
        }
        buffers := buffers[frame.camera := buffer];
      }
      assert frames[..|frames|] == frames;
    }

    method OnIdle(t: nat)
      modifies this
      ensures View() == IdleFired(old(View()), t)
    {
      idlePending := idlePending - {t};
      if subscribers == map[] {
        Close();
      }
      idleTimer := None;
    }

    method OnReconnect(t: nat)
      modifies this
      ensures View() == ReconnectFired(options, old(View()), t)
    {
      reconnectPending := reconnectPending - {t};
      Open();
    }
  }

  /** `splice(0, n)`: removes the first `n` elements, or all when there are fewer. */
  function Splice<T>(s: seq<T>, n: nat): (r: seq<T>)
    ensures n <= |s| ==> r == Newest(s, |s| - n)
    ensures |s| <= n ==> r == []
  {
    if n <= |s| then s[n..] else []
  }
}
