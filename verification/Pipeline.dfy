/** The publishers composed as the engine composes them: a queue in front of a primary transport with the HTTP
    publisher as fallback. Frames are named by their position in the order of acceptance, and the run records
    where each one ends up. */
module Pipeline {
  import opened Common
  import opened Publisher

  datatype Options = Options(maxQueue: int, maxBuffer: Option<int>, interval: real)

  /** `posting`: the worker's frame is in the HTTP buffer and a post is being awaited. */
  datatype Pipe = Pipe(
    buf: Buffered<nat>,
    http: Http<nat>,
    posting: bool,
    accepted: nat,
    evicted: seq<nat>,
    acked: seq<nat>,
    lost: seq<nat>,
    trimmed: seq<nat>,
    batches: seq<seq<nat>>)

  /** One step of any party. Disabled steps change nothing. */
  datatype Event =
    | Offered
    | Woken
    | PrimaryAcked
    | PrimaryRaised(now: real)
    | PostDone(post: Post)
    | TimedOut
    | WorkerCancelled
    | CloseBegun
    | SentinelPut
    | FallbackClosed(post: Post)

  const Start := Pipe(Buffered([], NotStarted, false, 0, 0), Http([], None), false, 0, [], [], [], [], [])

  /** The frames waiting in the queue. */
  function Pending(q: seq<Item<nat>>): seq<nat> {
    if q == [] then []
    else
      var rest := Pending(q[..|q| - 1]);
      if q[|q| - 1].Frame? then rest + [q[|q| - 1].frame] else rest
  }

  function Step(o: Options, p: Pipe, e: Event): Pipe {
    match e
    case Offered =>
      if p.buf.closed then p
      else p.(buf := Offer(p.buf, o.maxQueue, p.accepted),
              accepted := p.accepted + 1,
              evicted := if |p.buf.queue| >= o.maxQueue && p.buf.queue != [] && p.buf.queue[0].Frame?
                         then p.evicted + [p.buf.queue[0].frame] else p.evicted)
    case Woken => p.(buf := Take(p.buf))
    case PrimaryAcked =>
      if p.buf.worker.Busy? && !p.posting
      then p.(buf := Finish(p.buf), acked := p.acked + [p.buf.worker.frame]) else p
    case PrimaryRaised(now) =>
      if p.buf.worker.Busy? && !p.posting then FallBack(o, p, now) else p
    case PostDone(post) =>
      if p.posting then FinalFlush(p.(buf := Finish(p.buf), posting := false), post) else p
    case TimedOut => if p.buf.worker.Busy? then Abandon(p, Finish(p.buf)) else p
    case WorkerCancelled => if p.buf.worker.Busy? then Abandon(p, Cancel(p.buf)) else p.(buf := Cancel(p.buf))
    case CloseBegun => p.(buf := BeginClose(p.buf))
    case SentinelPut => p.(buf := PutSentinel(p.buf, o.maxQueue))
    case FallbackClosed(post) =>
      if p.buf.closed && (p.buf.worker.NotStarted? || p.buf.worker.Done()) then FinalFlush(p, post) else p
  }

  /** The primary raised: the frame goes to the HTTP buffer, which may trim, and is posted when due. */
  function FallBack(o: Options, p: Pipe, now: real): Pipe
    requires p.buf.worker.Busy?
  {
    var all, t := p.http.buffer + [p.buf.worker.frame], Append(p.http, o.maxBuffer, p.buf.worker.frame, now);
    var q := p.(http := t, trimmed := p.trimmed + all[..|all| - |Trimmed(all, o)|]);
    if Due(t, now, o.interval) then q.(posting := true) else q.(buf := Finish(p.buf))
  }

  function Trimmed(s: seq<nat>, o: Options): (r: seq<nat>)
    ensures |r| <= |s| && r == s[|s| - |r|..] && r == Trim(s, o.maxBuffer)
  {
    Trim(s, o.maxBuffer)
  }

  function FinalFlush(p: Pipe, post: Post): Pipe {
    if p.http.buffer != [] && post.Acknowledged?
    then p.(http := Flushed(p.http, post), batches := p.batches + [p.http.buffer])
    else p.(http := Flushed(p.http, post))
  }

  /** A publish that is cut short: at the primary the frame is lost, during a post it stays in the buffer. */
  function Abandon(p: Pipe, buf: Buffered<nat>): Pipe
    requires p.buf.worker.Busy?
  {
    if p.posting then p.(buf := buf, posting := false)
    else p.(buf := buf, lost := p.lost + [p.buf.worker.frame])
  }

  function Run(o: Options, events: seq<Event>): Pipe {
    if events == [] then Start else Step(o, Run(o, events[..|events| - 1]), events[|events| - 1])
  }

  // ----- the invariant -----

  /** Frames first, sentinels last. */
  predicate Shaped(q: seq<Item<nat>>) {
    forall i, j :: 0 <= i < j < |q| && q[i].Sentinel? ==> q[j].Sentinel?
  }

  /** Exactly the last `|q|` of the first `accepted` frames. */
  predicate NewestSuffix(q: seq<nat>, accepted: nat) {
    |q| <= accepted && forall i :: 0 <= i < |q| ==> q[i] == accepted - |q| + i
  }

  /** The queue and the worker: bounded, newest suffix pending, sentinels only after closing. */
  predicate QueueInv(o: Options, p: Pipe) {
    var q := Pending(p.buf.queue);
    && Shaped(p.buf.queue) && |p.buf.queue| <= o.maxQueue
    && NewestSuffix(q, p.accepted)
    && (!p.buf.closed ==> forall i :: 0 <= i < |p.buf.queue| ==> p.buf.queue[i].Frame?)
    && (p.buf.worker.Returned? ==> p.buf.closed && q == [])
    && (p.buf.worker.NotStarted? ==> p.buf.queue == [])
    && p.buf.unfinished == |p.buf.queue| + (if p.buf.worker.Busy? then 1 else 0)
    && p.buf.dropped == |p.evicted|
    && (p.posting ==> p.buf.worker.Busy?)
    && (p.buf.worker.Busy? ==> p.buf.worker.frame < p.accepted - |q|)
  }

  /** The frame that only the worker holds. */
  function InFlight(p: Pipe): seq<nat> {
    if p.buf.worker.Busy? && !p.posting then [p.buf.worker.frame] else []
  }

  /** What every frame that reached a sink precedes. */
  function Frontier(p: Pipe): int {
    if p.buf.worker.Busy? && !p.posting then p.buf.worker.frame else p.accepted - |Pending(p.buf.queue)|
  }

  predicate Below(s: seq<nat>, bound: int) {
    forall i :: 0 <= i < |s| ==> s[i] < bound
  }

  /** What reached the HTTP sink, or is about to. */
  function Posted(p: Pipe): seq<nat> { Flatten(p.batches) + p.http.buffer }

  /** Each sink gets frames in the order of acceptance. */
  predicate OrderInv(p: Pipe) {
    && Increasing(p.evicted) && Below(p.evicted, p.accepted - |Pending(p.buf.queue)|)
    && Increasing(p.acked) && Below(p.acked, Frontier(p))
    && Increasing(p.lost) && Below(p.lost, Frontier(p))
    && Increasing(Posted(p)) && Below(Posted(p), Frontier(p))
    && Increasing(p.trimmed + p.http.buffer) && Below(p.trimmed, Frontier(p))
    && (p.http.startedAt.None? <==> p.http.buffer == [])
  }

  /** The frames no transport has taken. */
  function Waiting(p: Pipe): multiset<nat> {
    multiset(p.evicted) + multiset(Pending(p.buf.queue))
  }

  /** The frames a transport has taken: acknowledged, lost or trimmed, buffered, or posted. */
  function Sunk(p: Pipe): multiset<nat> {
    multiset(p.acked) + multiset(p.lost) + multiset(p.trimmed + p.http.buffer) + multiset(Flatten(p.batches))
  }

  /** All the places a frame can be. */
  function Places(p: Pipe): multiset<nat> {
    Waiting(p) + multiset(InFlight(p)) + Sunk(p)
  }

  ghost predicate Inv(o: Options, p: Pipe) {
    QueueInv(o, p) && OrderInv(p) && Places(p) == multiset(Range(p.accepted))
  }

  // ----- queue lemmas -----

  lemma {:induction false} PendingAppend(q: seq<Item<nat>>, item: Item<nat>)
    ensures Pending(q + [item]) == if item.Frame? then Pending(q) + [item.frame] else Pending(q)
  {
    assert (q + [item])[..|q|] == q;
  }

  lemma {:induction false} PendingTail(q: seq<Item<nat>>)
    requires q != [] && Shaped(q)
    ensures q[0].Frame? ==> Pending(q) == [q[0].frame] + Pending(q[1..])
    ensures q[0].Sentinel? ==> Pending(q) == [] && Pending(q[1..]) == []
    ensures Shaped(q[1..])
  {
    if |q| > 1 {
      var front := q[..|q| - 1];
      PendingTail(front);
      assert q[1..][..|q| - 2] == front[1..];
    } else {
      assert Pending(q[..0]) == [];
    }
  }

  lemma {:induction false} AllFramesPending(q: seq<Item<nat>>)
    requires forall i :: 0 <= i < |q| ==> q[i].Frame?
    ensures |Pending(q)| == |q|
  {
    if q != [] {
      AllFramesPending(q[..|q| - 1]);
    }
  }

  // ----- every step keeps the invariant -----

  lemma RangeSnoc(n: nat)
    ensures multiset(Range(n + 1)) == multiset(Range(n)) + multiset{n}
  {
    assert Range(n + 1) == Range(n) + [n];
  }

  /** An accepted frame joins the pending ones; a full queue gives up its oldest. */
  lemma OfferedQueue(o: Options, p: Pipe)
    requires o.maxQueue >= 1 && QueueInv(o, p) && !p.buf.closed
    ensures var q, next := Pending(p.buf.queue), Step(o, p, Offered);
            && next.accepted == p.accepted + 1 && !next.buf.closed
            && (if |p.buf.queue| < o.maxQueue
                then Pending(next.buf.queue) == q + [p.accepted] && next.evicted == p.evicted
                else q != [] && Pending(next.buf.queue) == q[1..] + [p.accepted] && next.evicted == p.evicted + [q[0]])
            && |next.buf.queue| == |Pending(next.buf.queue)| <= o.maxQueue
            && (forall i :: 0 <= i < |next.buf.queue| ==> next.buf.queue[i].Frame?)
            && next.buf.unfinished - |next.buf.queue| == p.buf.unfinished - |p.buf.queue|
            && next.buf.dropped - |next.evicted| == p.buf.dropped - |p.evicted|
            && next.buf.worker == EnsureWorker(p.buf).worker
  {
    hide Pending;
    var q := p.buf.queue;
    AllFramesPending(q);
    if |q| < o.maxQueue {
      PendingAppend(q, Frame(p.accepted));
    } else {
      PendingTail(q);
      AllFramesPending(q[1..]);
      PendingAppend(q[1..], Frame(p.accepted));
    }
  }

  /** The change that an accepted frame makes to the waiting ones. */
  predicate Joined(p: Pipe, next: Pipe) {
    var q := Pending(p.buf.queue);
    && next == p.(buf := next.buf, accepted := p.accepted + 1, evicted := next.evicted)
    && next.buf.worker == EnsureWorker(p.buf).worker
    && ((Pending(next.buf.queue) == q + [p.accepted] && next.evicted == p.evicted)
        || (q != [] && Pending(next.buf.queue) == q[1..] + [p.accepted] && next.evicted == p.evicted + [q[0]]))
  }

  lemma OfferedKeeps(o: Options, p: Pipe)
    requires o.maxQueue >= 1 && Inv(o, p)
    ensures Inv(o, Step(o, p, Offered))
  {
    hide Places, OrderInv, Pending;
    if !p.buf.closed {
      OfferedQueue(o, p);
      OfferedOrder(p, Step(o, p, Offered));
      OfferedPlaces(p, Step(o, p, Offered));
    }
  }

  lemma OfferedOrder(p: Pipe, next: Pipe)
    requires OrderInv(p) && NewestSuffix(Pending(p.buf.queue), p.accepted) && Joined(p, next)
    requires p.posting ==> p.buf.worker.Busy?
    ensures OrderInv(next)
  {
    hide Pending, Flatten;
  }

  lemma OfferedPlaces(p: Pipe, next: Pipe)
    requires Places(p) == multiset(Range(p.accepted)) && Joined(p, next)
    requires p.posting ==> p.buf.worker.Busy?
    ensures Places(next) == multiset(Range(next.accepted))
  {
    hide Pending, Waiting, Sunk, InFlight;
    RangeSnoc(p.accepted);
    WaitingJoined(p, next);
    SunkSame(p, next);
    InFlightSame(p, next);
    var w, f, k := Waiting(p), multiset(InFlight(p)), Sunk(p);
    assert w + multiset{p.accepted} + f + k == w + f + k + multiset{p.accepted};
  }

  lemma InFlightSame(p: Pipe, next: Pipe)
    requires Joined(p, next) && (p.posting ==> p.buf.worker.Busy?)
    ensures InFlight(next) == InFlight(p)
  {
    hide Pending;
  }

  lemma WaitingJoined(p: Pipe, next: Pipe)
    requires Joined(p, next)
    ensures Waiting(next) == Waiting(p) + multiset{p.accepted}
  {
    hide Pending;
    var q := Pending(p.buf.queue);
    if q != [] {
      assert q == [q[0]] + q[1..];
    }
  }

  lemma SunkSame(p: Pipe, next: Pipe)
    requires next == p.(buf := next.buf, accepted := next.accepted, evicted := next.evicted)
    ensures Sunk(next) == Sunk(p)
  {
  }

  /** Appending a number above a bound that all others respect. */
  lemma AppendAbove(s: seq<nat>, x: nat)
    requires Increasing(s) && Below(s, x)
    ensures Increasing(s + [x]) && Below(s + [x], x + 1)
    ensures multiset(s + [x]) == multiset(s) + multiset{x}
  {
  }

  lemma BelowMore(s: seq<nat>, bound: int)
    requires Below(s, bound)
    ensures forall more :: more >= bound ==> Below(s, more)
  {
  }

  lemma WokenKeeps(o: Options, p: Pipe)
    requires Inv(o, p)
    ensures Inv(o, Step(o, p, Woken))
  {
    hide OrderInv, Places, Pending;
    if p.buf.worker.Idle? && p.buf.queue != [] {
      PendingTail(p.buf.queue);
      WokenOrder(o, p);
      WokenPlaces(o, p);
      WokenQueue(o, p);
    }
  }

  lemma WokenQueue(o: Options, p: Pipe)
    requires QueueInv(o, p) && p.buf.worker.Idle? && p.buf.queue != []
    ensures QueueInv(o, Step(o, p, Woken))
  {
    hide Pending;
    PendingTail(p.buf.queue);
    if p.buf.queue[0].Frame? {
      var q, rest := Pending(p.buf.queue), Pending(p.buf.queue[1..]);
      assert forall i :: 0 <= i < |rest| ==> rest[i] == q[i + 1];
      assert q[0] == p.buf.queue[0].frame;
    }
  }

  lemma WokenOrder(o: Options, p: Pipe)
    requires QueueInv(o, p) && OrderInv(p) && p.buf.worker.Idle? && p.buf.queue != []
    ensures OrderInv(Step(o, p, Woken))
  {
    hide Pending, Flatten, Increasing, Below;
    PendingTail(p.buf.queue);
    if p.buf.queue[0].Frame? {
      assert Pending(p.buf.queue)[0] == p.buf.queue[0].frame;
      BelowMore(p.evicted, p.buf.queue[0].frame);
    }
  }

  lemma WokenPlaces(o: Options, p: Pipe)
    requires Shaped(p.buf.queue) && p.buf.worker.Idle? && !p.posting && p.buf.queue != []
    ensures Places(Step(o, p, Woken)) == Places(p)
  {
    hide Pending, Sunk;
    var q, next := p.buf.queue, p.(buf := Take(p.buf));
    PendingTail(q);
    SunkSame(p, next);
    if q[0].Frame? {
      assert multiset(Pending(q)) == multiset{q[0].frame} + multiset(Pending(q[1..]));
      assert Waiting(p) == Waiting(next) + multiset{q[0].frame};
      assert InFlight(next) == [q[0].frame] && InFlight(p) == [];
    } else {
      assert Waiting(p) == Waiting(next) && InFlight(next) == InFlight(p) == [];
    }
  }

  /** The worker's frame reaches the primary's acknowledgements, or is lost there. */
  function HandOver(p: Pipe, buf: Buffered<nat>, acked: bool): Pipe
    requires p.buf.worker.Busy?
  {
    var f := p.buf.worker.frame;
    if acked then p.(buf := buf, acked := p.acked + [f]) else p.(buf := buf, lost := p.lost + [f])
  }

  lemma HandedOver(o: Options, p: Pipe, buf: Buffered<nat>, acked: bool)
    requires Inv(o, p) && p.buf.worker.Busy? && !p.posting
    requires buf == Finish(p.buf) || buf == Cancel(p.buf)
    ensures Inv(o, HandOver(p, buf, acked))
  {
    hide OrderInv, Places;
    HandedOverOrder(o, p, buf, acked);
    HandedOverPlaces(p, buf, acked);
  }

  lemma HandedOverOrder(o: Options, p: Pipe, buf: Buffered<nat>, acked: bool)
    requires QueueInv(o, p) && OrderInv(p) && p.buf.worker.Busy? && !p.posting
    requires buf == Finish(p.buf) || buf == Cancel(p.buf)
    ensures OrderInv(HandOver(p, buf, acked))
  {
    hide Pending, Flatten, Increasing, Below, Shaped, NewestSuffix;
    var f := p.buf.worker.frame;
    AppendAbove(if acked then p.acked else p.lost, f);
    BelowMore(if acked then p.acked + [f] else p.lost + [f], f + 1);
    BelowMore(if acked then p.lost else p.acked, f);
    BelowMore(Posted(p), f);
    BelowMore(p.trimmed, f);
  }

  lemma HandedOverPlaces(p: Pipe, buf: Buffered<nat>, acked: bool)
    requires p.buf.worker.Busy? && !p.posting && (buf == Finish(p.buf) || buf == Cancel(p.buf))
    ensures Places(HandOver(p, buf, acked)) == Places(p)
  {
    hide Sunk, Pending;
    var f, next := p.buf.worker.frame, HandOver(p, buf, acked);
    HandedOverSunk(p, buf, acked);
    assert Waiting(next) == Waiting(p) && InFlight(p) == [f] && InFlight(next) == [];
  }

  lemma HandedOverSunk(p: Pipe, buf: Buffered<nat>, acked: bool)
    requires p.buf.worker.Busy?
    ensures Sunk(HandOver(p, buf, acked)) == Sunk(p) + multiset{p.buf.worker.frame}
  {
    hide Flatten;
    var f, s := p.buf.worker.frame, if acked then p.acked else p.lost;
    assert multiset(s + [f]) == multiset(s) + multiset{f};
  }

  /** The worker stops waiting for a post, which leaves the frame in the buffer. */
  lemma PostLeft(o: Options, p: Pipe, buf: Buffered<nat>)
    requires Inv(o, p) && p.posting && (buf == Finish(p.buf) || buf == Cancel(p.buf))
    ensures Inv(o, p.(buf := buf, posting := false))
  {
    hide Pending, Flatten, Increasing, Below, Shaped, NewestSuffix;
  }

  lemma FinalFlushKeeps(o: Options, p: Pipe, post: Post)
    requires Inv(o, p)
    ensures Inv(o, FinalFlush(p, post))
  {
    hide OrderInv, Sunk;
    FinalFlushOrder(p, post);
    FinalFlushSunk(p, post);
  }

  lemma FinalFlushOrder(p: Pipe, post: Post)
    requires OrderInv(p)
    ensures OrderInv(FinalFlush(p, post))
  {
    hide Pending, Flatten, Below;
    FlattenSnoc(p.batches, p.http.buffer);
    var next := FinalFlush(p, post);
    assert Posted(next) == Posted(p) by {
      assert Flatten(p.batches + [p.http.buffer]) + [] == Flatten(p.batches) + p.http.buffer;
    }
    assert p.trimmed + [] == p.trimmed;
    IncreasingPrefix(p.trimmed, p.http.buffer);
  }

  lemma IncreasingPrefix(a: seq<nat>, b: seq<nat>)
    requires Increasing(a + b)
    ensures Increasing(a)
  {
    assert forall i :: 0 <= i < |a| ==> a[i] == (a + b)[i];
  }

  lemma FinalFlushSunk(p: Pipe, post: Post)
    ensures Sunk(FinalFlush(p, post)) == Sunk(p)
  {
    hide Flatten;
    FlattenSnoc(p.batches, p.http.buffer);
    assert p.trimmed + [] == p.trimmed;
  }

  /** Dropping a stretch out of the middle keeps an increasing sequence increasing. */
  lemma DropMiddle(front: seq<nat>, back: seq<nat>, k: nat)
    requires Increasing(front + back) && k <= |back|
    ensures Increasing(front + back[k..])
  {
    var all, less := front + back, front + back[k..];
    forall i, j | 0 <= i < j < |less|
      ensures less[i] < less[j]
    {
      var a := if i < |front| then i else i + k;
      var b := if j < |front| then j else j + k;
      assert less[i] == all[a] && less[j] == all[b];
    }
  }

  lemma FallBackKeeps(o: Options, p: Pipe, now: real)
    requires ValidMax(o.maxBuffer) && Inv(o, p) && p.buf.worker.Busy? && !p.posting
    ensures Inv(o, FallBack(o, p, now))
  {
    hide OrderInv, Places;
    FallBackOrder(o, p, now);
    FallBackPlaces(o, p, now);
  }

  /** What the fallback does to the HTTP buffer and the trimmed frames, taken together. */
  lemma FallBackSequences(o: Options, p: Pipe, now: real)
    requires p.buf.worker.Busy?
    ensures var all, next := p.http.buffer + [p.buf.worker.frame], FallBack(o, p, now);
            && next.trimmed + next.http.buffer == p.trimmed + p.http.buffer + [p.buf.worker.frame]
            && |next.http.buffer| <= |all| && next.http.buffer == all[|all| - |next.http.buffer|..]
  {
    hide Trim;
    var all := p.http.buffer + [p.buf.worker.frame];
    Recombine(p.trimmed, all, |all| - |Trimmed(all, o)|);
    assert p.trimmed + all == p.trimmed + p.http.buffer + [p.buf.worker.frame];
  }

  lemma Recombine(a: seq<nat>, b: seq<nat>, k: nat)
    requires k <= |b|
    ensures a + b[..k] + b[k..] == a + b
  {
  }

  lemma FallBackOrder(o: Options, p: Pipe, now: real)
    requires ValidMax(o.maxBuffer) && QueueInv(o, p) && OrderInv(p) && p.buf.worker.Busy? && !p.posting
    ensures OrderInv(FallBack(o, p, now))
  {
    hide Pending, Flatten, Increasing, Below, Shaped, NewestSuffix, Trim, FallBack;
    var f, next := p.buf.worker.frame, FallBack(o, p, now);
    FallBackFrame(o, p, now);
    FallBackSequences(o, p, now);
    SinkTakes(Flatten(p.batches), p.http.buffer, f, next.http.buffer);
    BelowJoin(p.trimmed, p.http.buffer, f);
    AppendAbove(p.trimmed + p.http.buffer, f);
    BelowParts(next.trimmed, next.http.buffer, f + 1);
    BelowMore(p.acked, f);
    BelowMore(p.lost, f);
    BelowMore(next.trimmed, f + 1);
    BelowMore(Posted(next), f + 1);
  }

  lemma FallBackFrame(o: Options, p: Pipe, now: real)
    requires ValidMax(o.maxBuffer) && p.buf.worker.Busy? && !p.posting
    ensures var next := FallBack(o, p, now);
            && next.buf.queue == p.buf.queue && next.accepted == p.accepted && next.evicted == p.evicted
            && next.acked == p.acked && next.lost == p.lost && next.batches == p.batches
            && (next.buf.worker.Busy? ==> next.posting)
            && next.http.buffer != [] && next.http.startedAt.Some?
  {
    TrimAppendsSome(p.http.buffer, o.maxBuffer, p.buf.worker.frame);
  }

  /** A later frame joins the HTTP sink, which keeps a newest part of its buffer. */
  lemma SinkTakes(sent: seq<nat>, buffer: seq<nat>, f: nat, kept: seq<nat>)
    requires Increasing(sent + buffer) && Below(sent + buffer, f)
    requires |kept| <= |buffer| + 1 && kept == (buffer + [f])[|buffer| + 1 - |kept|..]
    ensures Increasing(sent + kept) && Below(sent + kept, f + 1) && Below(buffer, f)
  {
    hide Increasing, Below;
    BelowParts(sent, buffer, f);
    AppendAbove(sent + buffer, f);
    assert sent + buffer + [f] == sent + (buffer + [f]);
    DropMiddle(sent, buffer + [f], |buffer| + 1 - |kept|);
    BelowDrop(sent, buffer + [f], |buffer| + 1 - |kept|, f + 1);
  }

  lemma BelowParts(a: seq<nat>, b: seq<nat>, bound: int)
    ensures Below(a + b, bound) ==> Below(a, bound) && Below(b, bound)
  {
    assert forall i :: 0 <= i < |a| ==> (a + b)[i] == a[i];
    assert forall i :: 0 <= i < |b| ==> (a + b)[|a| + i] == b[i];
  }

  lemma BelowJoin(a: seq<nat>, b: seq<nat>, bound: int)
    requires Below(a, bound) && Below(b, bound)
    ensures Below(a + b, bound)
  {
  }

  lemma BelowDrop(a: seq<nat>, b: seq<nat>, k: nat, bound: int)
    requires Below(a + b, bound) && k <= |b|
    ensures Below(a + b[k..], bound)
  {
    BelowParts(a, b, bound);
  }

  lemma FallBackPlaces(o: Options, p: Pipe, now: real)
    requires p.buf.worker.Busy? && !p.posting
    ensures Places(FallBack(o, p, now)) == Places(p)
  {
    hide Pending, Trim, Sunk;
    var f, next := p.buf.worker.frame, FallBack(o, p, now);
    FallBackSunk(o, p, now);
    assert Waiting(next) == Waiting(p) && InFlight(p) == [f] && InFlight(next) == [];
  }

  lemma FallBackSunk(o: Options, p: Pipe, now: real)
    requires p.buf.worker.Busy?
    ensures Sunk(FallBack(o, p, now)) == Sunk(p) + multiset{p.buf.worker.frame}
  {
    hide Flatten, Trim;
    FallBackSequences(o, p, now);
    var f, both := p.buf.worker.frame, p.trimmed + p.http.buffer;
    assert multiset(both + [f]) == multiset(both) + multiset{f};
  }

  lemma TrimAppendsSome(s: seq<nat>, max: Option<int>, f: nat)
    requires ValidMax(max)
    ensures Trim(s + [f], max) != []
  {
  }

  lemma StepKeeps(o: Options, p: Pipe, e: Event)
    requires o.maxQueue >= 1 && ValidMax(o.maxBuffer) && Inv(o, p)
    ensures Inv(o, Step(o, p, e))
  {
    hide Inv, FallBack, FinalFlush, Offer, Take;
    match e
    case Offered => OfferedKeeps(o, p);
    case Woken => WokenKeeps(o, p);
    case PrimaryAcked =>
      if p.buf.worker.Busy? && !p.posting {
        HandedOver(o, p, Finish(p.buf), true);
      }
    case PrimaryRaised(now) =>
      if p.buf.worker.Busy? && !p.posting {
        FallBackKeeps(o, p, now);
      }
    case PostDone(post) =>
      if p.posting {
        PostLeft(o, p, Finish(p.buf));
        FinalFlushKeeps(o, p.(buf := Finish(p.buf), posting := false), post);
      }
    case TimedOut => Abandoned(o, p, Finish(p.buf));
    case WorkerCancelled => Abandoned(o, p, Cancel(p.buf));
    case CloseBegun => BufferOnly(o, p, BeginClose(p.buf));
    case SentinelPut => BufferOnly(o, p, PutSentinel(p.buf, o.maxQueue));
    case FallbackClosed(post) => FinalFlushKeeps(o, p, post);
  }

  lemma Abandoned(o: Options, p: Pipe, buf: Buffered<nat>)
    requires Inv(o, p) && (buf == Finish(p.buf) || buf == Cancel(p.buf))
    ensures if p.buf.worker.Busy? then Inv(o, Abandon(p, buf)) else Inv(o, p.(buf := buf))
  {
    hide OrderInv, Places;
    if p.posting {
      PostLeft(o, p, buf);
    } else if p.buf.worker.Busy? {
      HandedOver(o, p, buf, false);
    } else {
      BufferOnly(o, p, buf);
    }
  }

  /** Steps that leave the frames alone. */
  lemma BufferOnly(o: Options, p: Pipe, buf: Buffered<nat>)
    requires Inv(o, p)
    requires (!p.buf.worker.Busy? && (buf == Cancel(p.buf) || buf == Finish(p.buf)))
             || buf == BeginClose(p.buf) || buf == PutSentinel(p.buf, o.maxQueue)
    ensures Inv(o, p.(buf := buf))
  {
    hide Pending, Flatten, Increasing, Below;
    PendingAppend(p.buf.queue, Sentinel);
  }

  /** Over every run every accepted frame is in exactly one place, and each sink sees frames in order. */
  lemma {:induction false} EveryRun(o: Options, events: seq<Event>)
    requires o.maxQueue >= 1 && ValidMax(o.maxBuffer)
    ensures Inv(o, Run(o, events))
  {
    if events != [] {
      hide Inv, Step;
      EveryRun(o, events[..|events| - 1]);
      StepKeeps(o, Run(o, events[..|events| - 1]), events[|events| - 1]);
    } else {
      StartInv(o);
    }
  }

  lemma StartInv(o: Options)
    requires o.maxQueue >= 1
    ensures Inv(o, Start)
  {
    assert Range(0) == [];
  }

  // ----- consequences -----

  /** In every reachable state each accepted frame is counted once over all places, and nothing else is. */
  lemma ExactlyOnePlace(o: Options, events: seq<Event>, k: nat)
    requires o.maxQueue >= 1 && ValidMax(o.maxBuffer)
    ensures Places(Run(o, events))[k] == if k < Run(o, events).accepted then 1 else 0
  {
    hide Places, Run, QueueInv, OrderInv;
    EveryRun(o, events);
    var n := Run(o, events).accepted;
    IncreasingDistinct(Range(n));
    DistinctMultiset(Range(n));
    assert k < n ==> Range(n)[k] == k;
  }

  /** On an open publisher an offered frame always enters the queue, and what it displaces is a frame. */
  lemma OpenPublisherEnqueues(o: Options, events: seq<Event>)
    requires o.maxQueue >= 1 && ValidMax(o.maxBuffer) && !Run(o, events).buf.closed
    ensures var p, next := Run(o, events), Step(o, Run(o, events), Offered);
            && next.buf.queue != [] && next.buf.queue[|next.buf.queue| - 1] == Frame(p.accepted)
            && (|p.buf.queue| == o.maxQueue ==> p.buf.queue[0].Frame? && next.buf.dropped == p.buf.dropped + 1)
            && (|p.buf.queue| < o.maxQueue ==> next.buf.dropped == p.buf.dropped)
  {
    hide Places, Run, OrderInv, Pending;
    EveryRun(o, events);
  }

  /** When the worker stopped at a sentinel and the fallback's last post was acknowledged, nothing is left
      waiting, in flight or buffered: each accepted frame was evicted, acknowledged by the primary, lost at
      the primary, trimmed, or posted, once. */
  lemma CleanCloseLeavesNothing(o: Options, events: seq<Event>)
    requires o.maxQueue >= 1 && ValidMax(o.maxBuffer) && Run(o, events).buf.worker.Returned?
    ensures var p := Step(o, Run(o, events), FallbackClosed(Acknowledged));
            && Pending(p.buf.queue) == [] && InFlight(p) == [] && p.http.buffer == []
            && Places(p) == multiset(Range(p.accepted))
  {
    hide Run, OrderInv, Places, Pending;
    EveryRun(o, events);
    StepKeeps(o, Run(o, events), FallbackClosed(Acknowledged));
  }

  /** No publish was timed out and nothing cancelled the worker. */
  predicate Uninterrupted(events: seq<Event>) {
    forall i :: 0 <= i < |events| ==> !events[i].TimedOut? && !events[i].WorkerCancelled?
  }

  /** Frames are lost at the primary only by a timeout or a cancellation. */
  lemma {:induction false} LostOnlyByInterruption(o: Options, events: seq<Event>)
    requires Uninterrupted(events)
    ensures Run(o, events).lost == []
  {
    hide Offer, Take;
    if events != [] {
      assert Uninterrupted(events[..|events| - 1]);
      LostOnlyByInterruption(o, events[..|events| - 1]);
    }
  }

  lemma WorkerStep(o: Options, p: Pipe, e: Event)
    requires !e.WorkerCancelled? && !p.buf.worker.Cancelled? && (p.buf.worker.NotStarted? ==> p.accepted == 0)
    ensures !Step(o, p, e).buf.worker.Cancelled?
    ensures Step(o, p, e).buf.worker.NotStarted? ==> Step(o, p, e).accepted == 0
  {
    hide Append, Trim, Due, Flushed;
  }

  /** Without cancellations a worker that is done returned at a sentinel; without a worker nothing was accepted. */
  lemma {:induction false} WorkerEnds(o: Options, events: seq<Event>)
    requires Uninterrupted(events)
    ensures !Run(o, events).buf.worker.Cancelled?
    ensures Run(o, events).buf.worker.NotStarted? ==> Run(o, events).accepted == 0
  {
    if events != [] {
      hide Step;
      var front := events[..|events| - 1];
      assert Uninterrupted(front);
      WorkerEnds(o, front);
      WorkerStep(o, Run(o, front), events[|events| - 1]);
    }
  }

  /** A close that is neither timed out nor cancelled: once the worker is done and the last post is acknowledged, every
      accepted frame was, once, evicted, acknowledged by the primary, trimmed, or posted in an acknowledged batch. */
  lemma CleanShutdown(o: Options, events: seq<Event>)
    requires o.maxQueue >= 1 && ValidMax(o.maxBuffer) && Uninterrupted(events) && Run(o, events).buf.closed
    requires Run(o, events).buf.worker.NotStarted? || Run(o, events).buf.worker.Done()
    ensures var p := Step(o, Run(o, events), FallbackClosed(Acknowledged));
            multiset(p.evicted) + multiset(p.acked) + multiset(p.trimmed) + multiset(Flatten(p.batches))
            == multiset(Range(p.accepted))
  {
    hide Run, Step, QueueInv, OrderInv, Places;
    var before, p := Run(o, events), Step(o, Run(o, events), FallbackClosed(Acknowledged));
    EveryRun(o, events);
    WorkerEnds(o, events);
    LostOnlyByInterruption(o, events);
    NothingWaits(o, before);
    LastPost(o, before);
    StepKeeps(o, before, FallbackClosed(Acknowledged));
    FourPlaces(p);
  }

  lemma NothingWaits(o: Options, p: Pipe)
    requires QueueInv(o, p) && (p.buf.worker.NotStarted? || p.buf.worker.Returned?)
    ensures Pending(p.buf.queue) == [] && InFlight(p) == []
  {
  }

  lemma LastPost(o: Options, p: Pipe)
    requires p.buf.closed && (p.buf.worker.NotStarted? || p.buf.worker.Done())
    ensures var q := Step(o, p, FallbackClosed(Acknowledged));
            q.buf == p.buf && q.posting == p.posting && q.lost == p.lost && q.http.buffer == []
  {
  }

  lemma FourPlaces(p: Pipe)
    requires Pending(p.buf.queue) == [] && InFlight(p) == [] && p.lost == [] && p.http.buffer == []
    ensures Places(p) == multiset(p.evicted) + multiset(p.acked) + multiset(p.trimmed) + multiset(Flatten(p.batches))
  {
    hide Pending, InFlight, Flatten;
    assert p.trimmed + p.http.buffer == p.trimmed;
  }

  // ----- a close can always finish -----

  function RunFrom(o: Options, p: Pipe, events: seq<Event>): Pipe
    decreases |events|
  {
    if events == [] then p else RunFrom(o, Step(o, p, events[0]), events[1..])
  }

  lemma {:induction false} RunJoin(o: Options, events: seq<Event>, more: seq<Event>)
    ensures Run(o, events + more) == RunFrom(o, Run(o, events), more)
    decreases |more|
  {
    hide Step;
    if more == [] {
      assert events + more == events;
    } else {
      var next := events + [more[0]];
      assert next[..|next| - 1] == events && next + more[1..] == events + more;
      RunJoin(o, next, more[1..]);
    }
  }

  /** A worker at a frame or waiting for one. */
  predicate Working(p: Pipe) { p.buf.worker.Idle? || p.buf.worker.Busy? }

  function Remaining(p: Pipe): nat { 2 * |p.buf.queue| + if p.buf.worker.Busy? then 1 else 0 }

  /** The next step of a closing worker whose transports answer. */
  function NextStep(p: Pipe): Event {
    if p.posting then PostDone(Acknowledged)
    else if p.buf.worker.Busy? then PrimaryAcked
    else if p.buf.queue == [] then SentinelPut
    else Woken
  }

  lemma NextStepWorks(o: Options, p: Pipe)
    requires p.buf.closed && Working(p) && o.maxQueue >= 1 && (p.posting ==> p.buf.worker.Busy?)
    ensures var q := Step(o, p, NextStep(p));
            && q.buf.closed && q.lost == p.lost && (q.posting ==> q.buf.worker.Busy?)
            && (NextStep(p).SentinelPut? ==>
                  q.buf.queue == [Sentinel] && q.buf.worker.Idle? && Step(o, q, Woken).buf.worker.Returned?
                  && Step(o, q, Woken).lost == p.lost)
            && (!NextStep(p).SentinelPut? ==> q.buf.worker.Returned? || (Working(q) && Remaining(q) < Remaining(p)))
  {
  }

  lemma {:induction false} Drains(o: Options, p: Pipe) returns (more: seq<Event>)
    requires p.buf.closed && Working(p) && o.maxQueue >= 1 && (p.posting ==> p.buf.worker.Busy?)
    ensures Uninterrupted(more) && RunFrom(o, p, more).buf.worker.Returned? && RunFrom(o, p, more).lost == p.lost
    decreases Remaining(p)
  {
    hide Step;
    NextStepWorks(o, p);
    var e, q := NextStep(p), Step(o, p, NextStep(p));
    if e.SentinelPut? {
      more := [e, Woken];
      assert more[1..] == [Woken] && [Woken][1..] == [];
    } else if q.buf.worker.Returned? {
      more := [e];
      assert more[1..] == [];
    } else {
      var rest := Drains(o, q);
      more := [e] + rest;
      assert more[1..] == rest;
    }
  }

  /** From every reachable state in which a close has begun and the worker is neither done nor cancelled, the close can
      run to its end without an interruption: the sentinel gets its room, the worker returns, and no frame is lost. */
  lemma CloseCanFinish(o: Options, events: seq<Event>) returns (more: seq<Event>)
    requires o.maxQueue >= 1 && ValidMax(o.maxBuffer) && Run(o, events).buf.closed && Working(Run(o, events))
    ensures Uninterrupted(more) && Run(o, events + more).buf.worker.Returned?
    ensures Run(o, events + more).lost == Run(o, events).lost
  {
    hide Run, OrderInv, Places;
    EveryRun(o, events);
    more := Drains(o, Run(o, events));
    RunJoin(o, events, more);
  }

  // ----- what becomes of one frame -----

  /** The ways the publish of the worker's frame ends: acknowledged by the primary; refused by it, when the frame ends
      the HTTP buffer and is posted exactly when the batch began at least the interval ago; or cut short, when it is
      gone. */
  lemma EndsOfAPublish(o: Options, events: seq<Event>, now: real)
    requires o.maxQueue >= 1 && ValidMax(o.maxBuffer)
    requires Run(o, events).buf.worker.Busy? && !Run(o, events).posting
    ensures var p := Run(o, events);
            var f := p.buf.worker.frame;
            var acked, raised := Step(o, p, PrimaryAcked), Step(o, p, PrimaryRaised(now));
            var timedOut, cancelled := Step(o, p, TimedOut), Step(o, p, WorkerCancelled);
            && acked.acked == p.acked + [f] && acked.http == p.http && acked.lost == p.lost && acked.buf.worker.Idle?
            && raised.acked == p.acked && raised.lost == p.lost
            && raised.http.buffer != [] && raised.http.buffer[|raised.http.buffer| - 1] == f
            && (raised.posting <==>
                  now - (if p.http.startedAt.None? then now else p.http.startedAt.value) >= o.interval)
            && (!raised.posting ==> raised.buf.worker.Idle?)
            && timedOut.acked == p.acked && timedOut.http == p.http && timedOut.lost == p.lost + [f]
            && timedOut.buf.worker.Idle?
            && cancelled.acked == p.acked && cancelled.http == p.http && cancelled.lost == p.lost + [f]
            && cancelled.buf.worker.Cancelled?
  {
    hide Run, Inv;
  }

  /** After an offer to an open publisher a worker is at a frame or waiting for one, whatever became of the one
      before. */
  lemma OpenHasWorker(o: Options, events: seq<Event>)
    requires o.maxQueue >= 1 && ValidMax(o.maxBuffer) && !Run(o, events).buf.closed
    ensures Working(Step(o, Run(o, events), Offered))
    ensures Working(Run(o, events)) ==> Step(o, Run(o, events), Offered).buf.worker == Run(o, events).buf.worker
    ensures !Working(Run(o, events)) ==> Step(o, Run(o, events), Offered).buf.worker.Idle?
  {
    hide Run;
    EveryRun(o, events);
  }
}
