/** The telemetry publishers of `backend/src/argus/inference/publisher.py`.

    Everything runs on one event loop, so the code between two `await` points is one step. Each step is a
    function on values; the classes below do the same steps on their fields. */
module Publisher {
  import opened Common

  // ----- the bounded drop-oldest queue -----

  /** What the queue holds: frames, and the `None` that asks the worker to stop. */
  datatype Item<+F> = Frame(frame: F) | Sentinel

  /** The drain task. `Returned` has consumed a sentinel. */
  datatype Worker<+F> = NotStarted | Idle | Busy(frame: F) | Returned | Cancelled {
    predicate Done() { Returned? || Cancelled? }
  }

  datatype Buffered<F> = Buffered(queue: seq<Item<F>>, worker: Worker<F>, closed: bool, dropped: nat, unfinished: int)

  function EnsureWorker<F>(s: Buffered<F>): Buffered<F> {
    if s.worker.NotStarted? || s.worker.Done() then s.(worker := Idle) else s
  }

  function Put<F>(s: Buffered<F>, item: Item<F>): Buffered<F> {
    s.(queue := s.queue + [item], unfinished := s.unfinished + 1)
  }

  function DropOldest<F>(s: Buffered<F>): Buffered<F> {
    if s.queue == [] then s
    else s.(queue := s.queue[1..],
            unfinished := s.unfinished - 1,
            dropped := if s.queue[0].Frame? then s.dropped + 1 else s.dropped)
  }

  /** `publish`, which never awaits. */
  function Offer<F>(s: Buffered<F>, max: int, f: F): Buffered<F> {
    if s.closed then s
    else
      var t := EnsureWorker(s);
      if |t.queue| < max then Put(t, Frame(f))
      else
        var u := DropOldest(t);
        if |u.queue| < max then Put(u, Frame(f)) else u.(dropped := u.dropped + 1)
  }

  /** The worker wakes up with the oldest item. */
  function Take<F>(s: Buffered<F>): Buffered<F> {
    if !s.worker.Idle? || s.queue == [] then s
    else if s.queue[0].Sentinel? then s.(queue := s.queue[1..], worker := Returned, unfinished := s.unfinished - 1)
    else s.(queue := s.queue[1..], worker := Busy(s.queue[0].frame))
  }

  /** The wrapped publisher answered, raised or timed out: in each case the worker goes on. */
  function Finish<F>(s: Buffered<F>): Buffered<F> {
    if s.worker.Busy? then s.(worker := Idle, unfinished := s.unfinished - 1) else s
  }

  /** The worker task is cancelled, by a close that timed out or from outside. */
  function Cancel<F>(s: Buffered<F>): Buffered<F> {
    if s.worker.Busy? then s.(worker := Worker.Cancelled, unfinished := s.unfinished - 1)
    else if s.worker.Idle? then s.(worker := Worker.Cancelled)
    else s
  }

  function BeginClose<F>(s: Buffered<F>): Buffered<F> { s.(closed := true) }

  /** `close` gets its sentinel into the queue once there is room, if there ever was a worker. */
  function PutSentinel<F>(s: Buffered<F>, max: int): Buffered<F> {
    if s.closed && !s.worker.NotStarted? && |s.queue| < max then Put(s, Sentinel) else s
  }

  class BufferedTelemetryPublisher<F(==)> {
    const maxQueueSize: int
    var queue: seq<Item<F>>
    var unfinishedTasks: int
    var workerTask: Worker<F>
    var closed: bool
    var droppedFrames: nat

    ghost function View(): Buffered<F>
      reads this
    {
      Buffered(queue, workerTask, closed, droppedFrames, unfinishedTasks)
    }

    /** The original raises for a size below one. */
    constructor (maxQueueSize: int)
      requires maxQueueSize >= 1
      ensures View() == Buffered([], NotStarted, false, 0, 0) && this.maxQueueSize == maxQueueSize
    {
      this.maxQueueSize := maxQueueSize;
      queue, unfinishedTasks, workerTask, closed, droppedFrames := [], 0, NotStarted, false, 0;
    }

    method PutNoWait(item: Item<F>) returns (ok: bool)
      modifies this`queue, this`unfinishedTasks
      ensures ok == (old(|queue|) < maxQueueSize)
      ensures View() == if ok then Put(old(View()), item) else old(View())
    {
      ok := |queue| < maxQueueSize;
      if ok {
        queue, unfinishedTasks := queue + [item], unfinishedTasks + 1;
      }
    }

    method DropOldestPending()
      modifies this`queue, this`unfinishedTasks, this`droppedFrames
      ensures View() == DropOldest(old(View()))
    {
      if |queue| == 0 {
        return;
      }
      var gone := queue[0];
      queue := queue[1..];
      unfinishedTasks := unfinishedTasks - 1;
      if gone.Frame? {
        droppedFrames := droppedFrames + 1;
      }
    }

    method Publish(f: F)
      modifies this
      ensures View() == Offer(old(View()), maxQueueSize, f)
    {
      if closed {
        return;
      }
      if workerTask.NotStarted? || workerTask.Done() {
        workerTask := Idle;
      }
      var ok := PutNoWait(Frame(f));
      if !ok {
        DropOldestPending();
        ok := PutNoWait(Frame(f));
        if !ok {
          droppedFrames := droppedFrames + 1;
        }
      }
    }

    /** One turn of the drain loop up to its next `await`: `Some` frame to hand over, or nothing to do. */
    method DrainTake() returns (next: Option<F>)
      modifies this
      ensures View() == Take(old(View()))
      ensures next == if old(View()).worker.Idle? && View().worker.Busy? then Some(View().worker.frame) else None
    {
      next := None;
      if workerTask.Idle? && |queue| > 0 {
        var item := queue[0];
        queue := queue[1..];
        if item.Sentinel? {
          workerTask := Returned;
          unfinishedTasks := unfinishedTasks - 1;
        } else {
          workerTask := Busy(item.frame);
          next := Some(item.frame);
        }
      }
    }

    method DrainFinish()
      modifies this
      ensures View() == Finish(old(View()))
    {
      if workerTask.Busy? {
        workerTask := Idle;
        unfinishedTasks := unfinishedTasks - 1;
      }
    }

    method CancelWorker()
      modifies this
      ensures View() == Cancel(old(View()))
    {
      if workerTask.Busy? {
        unfinishedTasks := unfinishedTasks - 1;
      }
      if workerTask.Busy? || workerTask.Idle? {
        workerTask := Worker.Cancelled;
      }
    }

    method CloseBegin()
      modifies this`closed
      ensures View() == BeginClose(old(View()))
      ensures forall f: F :: Offer(View(), maxQueueSize, f) == View()
    {
      closed := true;
    }

    method CloseAskWorker() returns (asked: bool)
      modifies this`queue, this`unfinishedTasks
      ensures View() == PutSentinel(old(View()), maxQueueSize)
    {
      asked := false;
      if closed && !workerTask.NotStarted? {
        asked := PutNoWait(Sentinel);
      }
    }
  }

  // ----- the batching HTTP fallback -----

  datatype Http<F> = Http(buffer: seq<F>, startedAt: Option<real>)

  function Trim<F>(s: seq<F>, max: Option<int>): seq<F> {
    if max.None? then s else Newest(s, max.value)
  }

  /** The part of `publish` before the flush. */
  function Append<F>(s: Http<F>, max: Option<int>, f: F, now: real): Http<F> {
    Http(Trim(s.buffer + [f], max), if s.startedAt.None? then Some(now) else s.startedAt)
  }

  predicate Due<F>(s: Http<F>, now: real, interval: real) {
    s.startedAt.Some? && now - s.startedAt.value >= interval
  }

  /** How a post ends: acknowledged, or refused, failed or cancelled. */
  datatype Post = Acknowledged | Failed

  function Flushed<F>(s: Http<F>, post: Post): Http<F> {
    if s.buffer != [] && post.Acknowledged? then Http([], None) else s
  }

  function HttpPublish<F>(s: Http<F>, max: Option<int>, interval: real, f: F, now: real, post: Post): Http<F> {
    var t := Append(s, max, f, now);
    if Due(t, now, interval) then Flushed(t, post) else t
  }

  predicate ValidMax(max: Option<int>) { max.Some? ==> max.value >= 1 }

  /** Callers are serialized, as the single drain worker serializes them. */
  class HttpPublisher<F(==)> {
    const maxBufferSize: Option<int>
    const flushInterval: real
    var buffer: seq<F>
    var batchStartedAt: Option<real>

    ghost function View(): Http<F>
      reads this
    {
      Http(buffer, batchStartedAt)
    }

    ghost predicate Valid()
      reads this
    {
      ValidMax(maxBufferSize) && (batchStartedAt.None? <==> buffer == [])
    }

    constructor (maxBufferSize: Option<int>, flushInterval: real)
      requires ValidMax(maxBufferSize)
      ensures Valid() && View() == Http([], None)
      ensures this.maxBufferSize == maxBufferSize && this.flushInterval == flushInterval
    {
      this.maxBufferSize, this.flushInterval := maxBufferSize, flushInterval;
      buffer, batchStartedAt := [], None;
    }

    /** `posted` is the batch handed to the client, if any; `ok` is false when the call raised. The batch is posted
        exactly when it began, in this call or before, at least the flush interval ago; a call that returns normally
        leaves no such batch. */
    method Publish(f: F, now: real, post: Post) returns (ok: bool, posted: Option<seq<F>>)
      requires Valid()
      modifies this
      ensures Valid()
      ensures View() == HttpPublish(old(View()), maxBufferSize, flushInterval, f, now, post)
      ensures var began := if old(batchStartedAt).None? then now else old(batchStartedAt).value;
              && posted == (if now - began >= flushInterval then Some(Trim(old(buffer) + [f], maxBufferSize)) else None)
              && batchStartedAt == (if posted.Some? && post.Acknowledged? then None else Some(began))
      ensures buffer == if posted.Some? && post.Acknowledged? then [] else Trim(old(buffer) + [f], maxBufferSize)
      ensures ok && batchStartedAt.Some? ==> now - batchStartedAt.value < flushInterval
      ensures !ok <==> posted.Some? && post.Failed?
    {
      if batchStartedAt.None? {
        batchStartedAt := Some(now);
      }
      buffer := buffer + [f];
      if maxBufferSize.Some? {
        buffer := Newest(buffer, maxBufferSize.value);
      }
      ok, posted := true, None;
      if now - batchStartedAt.value >= flushInterval {
        ok, posted := Flush(post);
      }
    }

    method Flush(post: Post) returns (ok: bool, posted: Option<seq<F>>)
      requires Valid()
      modifies this
      ensures Valid() && View() == Flushed(old(View()), post)
      ensures posted == if old(buffer) == [] then None else Some(old(buffer))
      ensures !ok <==> posted.Some? && post.Failed?
    {
      if buffer == [] {
        return true, None;
      }
      posted := Some(buffer);
      if post.Failed? {
        return false, posted;
      }
      buffer, batchStartedAt, ok := [], None, true;
    }
  }

  // ----- the HTTP publisher over whole runs -----

  datatype Call<+F> = PublishCall(frame: F, now: real, post: Post) | FlushCall(post: Post)

  /** The state, the acknowledged batches, for each of them the frames published since the one before, and all batches
      handed to the client. */
  datatype HttpRun<F> = HttpRun(
    http: Http<F>, batches: seq<seq<F>>, chunks: seq<seq<F>>, since: seq<F>, posts: seq<seq<F>>)

  function RunCall<F>(r: HttpRun<F>, max: Option<int>, interval: real, call: Call<F>): HttpRun<F> {
    match call
    case PublishCall(f, now, post) =>
      var t := Append(r.http, max, f, now);
      var u := r.(http := HttpPublish(r.http, max, interval, f, now, post), since := r.since + [f],
                  posts := if Due(t, now, interval) then r.posts + [t.buffer] else r.posts);
      if Due(t, now, interval) && post.Acknowledged? then Cut(u, t.buffer) else u
    case FlushCall(post) =>
      var u := r.(http := Flushed(r.http, post),
                  posts := if r.http.buffer != [] then r.posts + [r.http.buffer] else r.posts);
      if r.http.buffer != [] && post.Acknowledged? then Cut(u, r.http.buffer) else u
  }

  function Cut<F>(r: HttpRun<F>, batch: seq<F>): HttpRun<F> {
    r.(batches := r.batches + [batch], chunks := r.chunks + [r.since], since := [])
  }

  function RunCalls<F>(max: Option<int>, interval: real, calls: seq<Call<F>>): HttpRun<F> {
    if calls == [] then HttpRun(Http([], None), [], [], [], [])
    else RunCall(RunCalls(max, interval, calls[..|calls| - 1]), max, interval, calls[|calls| - 1])
  }

  function Published<F>(calls: seq<Call<F>>): seq<F> {
    if calls == [] then []
    else
      var rest, c := Published(calls[..|calls| - 1]), calls[|calls| - 1];
      if c.PublishCall? then rest + [c.frame] else rest
  }

  ghost predicate HttpInv<F>(r: HttpRun<F>, max: Option<int>, published: seq<F>) {
    && Flatten(r.chunks) + r.since == published
    && |r.batches| == |r.chunks|
    && (forall i :: 0 <= i < |r.batches| ==> r.batches[i] == Trim(r.chunks[i], max))
    && r.http.buffer == Trim(r.since, max)
    && (r.http.startedAt.None? <==> r.http.buffer == [])
  }

  /** Appending to what was kept and trimming again keeps the newest frames of everything since. */
  lemma TrimAppend<F>(since: seq<F>, max: Option<int>, f: F)
    requires ValidMax(max)
    ensures Trim(Trim(since, max) + [f], max) == Trim(since + [f], max) != []
  {
  }

  /** The frames published fall into consecutive chunks; each acknowledged batch is the newest part of its
      chunk, the buffer the newest part of the last; with no bound nothing at all is left out. */
  lemma {:induction false} BatchesAreNewest<F>(max: Option<int>, interval: real, calls: seq<Call<F>>)
    requires ValidMax(max)
    ensures HttpInv(RunCalls(max, interval, calls), max, Published(calls))
    ensures max.None? ==>
              Flatten(RunCalls(max, interval, calls).batches) + RunCalls(max, interval, calls).http.buffer
              == Published(calls)
  {
    if calls != [] {
      var front, c := calls[..|calls| - 1], calls[|calls| - 1];
      BatchesAreNewest(max, interval, front);
      CallKeepsInv(RunCalls(max, interval, front), max, interval, c, Published(front));
    }
    if max.None? {
      assert RunCalls(max, interval, calls).batches == RunCalls(max, interval, calls).chunks;
    }
  }

  /** Each acknowledged batch is the end of its chunk, and the buffer the end of what came since: all of it, as far as
      the bound allows. */
  lemma BatchesEndTheirChunks<F>(max: Option<int>, interval: real, calls: seq<Call<F>>)
    requires ValidMax(max)
    ensures var r := RunCalls(max, interval, calls);
            && |r.batches| == |r.chunks|
            && (forall i :: 0 <= i < |r.batches| ==> Ends(r.batches[i], r.chunks[i], max))
            && Ends(r.http.buffer, r.since, max)
  {
    hide RunCalls;
    BatchesAreNewest(max, interval, calls);
  }

  predicate Ends<F(==)>(batch: seq<F>, chunk: seq<F>, max: Option<int>) {
    && |batch| == (if max.Some? && max.value < |chunk| then max.value else |chunk|)
    && |batch| <= |chunk| && batch == chunk[|chunk| - |batch|..]
  }

  lemma CallKeepsInv<F>(r: HttpRun<F>, max: Option<int>, interval: real, c: Call<F>, published: seq<F>)
    requires ValidMax(max) && HttpInv(r, max, published)
    ensures HttpInv(RunCall(r, max, interval, c), max, if c.PublishCall? then published + [c.frame] else published)
  {
    hide HttpInv, Trim, Due, Flatten;
    match c
    case PublishCall(f, now, post) =>
      var t := Append(r.http, max, f, now);
      AppendKeepsInv(r, max, f, now, published);
      var u := r.(http := t, since := r.since + [f]);
      if Due(t, now, interval) {
        if post.Acknowledged? {
          CutKeepsInv(u, max, published + [f]);
          u := Cut(u.(http := Http([], None)), t.buffer);
        }
        PostsDoNotMatter(u, r.posts + [t.buffer], max, published + [f]);
      }
    case FlushCall(post) =>
      if r.http.buffer != [] {
        var u := r;
        if post.Acknowledged? {
          CutKeepsInv(r, max, published);
          u := Cut(r.(http := Http([], None)), r.http.buffer);
        }
        PostsDoNotMatter(u, r.posts + [r.http.buffer], max, published);
      }
  }

  lemma PostsDoNotMatter<F>(r: HttpRun<F>, posts: seq<seq<F>>, max: Option<int>, published: seq<F>)
    requires ValidMax(max) && HttpInv(r, max, published)
    ensures HttpInv(r.(posts := posts), max, published)
  {
    hide Trim, Flatten;
  }

  lemma AppendKeepsInv<F>(r: HttpRun<F>, max: Option<int>, f: F, now: real, published: seq<F>)
    requires ValidMax(max) && HttpInv(r, max, published)
    ensures HttpInv(r.(http := Append(r.http, max, f, now), since := r.since + [f]), max, published + [f])
    ensures Append(r.http, max, f, now).buffer != []
  {
    hide Trim, Flatten;
    TrimAppend(r.since, max, f);
    assert Flatten(r.chunks) + (r.since + [f]) == Flatten(r.chunks) + r.since + [f];
  }

  /** An acknowledged post closes the chunk. */
  lemma CutKeepsInv<F>(r: HttpRun<F>, max: Option<int>, published: seq<F>)
    requires ValidMax(max) && HttpInv(r, max, published)
    ensures HttpInv(Cut(r.(http := Http([], None)), r.http.buffer), max, published)
  {
    hide Trim, Flatten;
    TrimEmpty<F>(max);
    FlattenSnoc(r.chunks, r.since);
    assert Flatten(r.chunks + [r.since]) + [] == Flatten(r.chunks) + r.since;
  }

  lemma TrimEmpty<F>(max: Option<int>)
    ensures Trim<F>([], max) == []
  {
  }

  // ----- when batches are posted -----

  /** When the present batch began, told from the calls and the acknowledgements alone: the time of the first publish
      since the last acknowledged batch. */
  function BatchBegan<F>(max: Option<int>, interval: real, calls: seq<Call<F>>): Option<real> {
    if calls == [] then None
    else
      var front, c := calls[..|calls| - 1], calls[|calls| - 1];
      var before := BatchBegan(max, interval, front);
      if |RunCalls(max, interval, calls).batches| > |RunCalls(max, interval, front).batches| then None
      else if c.PublishCall? && before.None? then Some(c.now)
      else before
  }

  lemma {:induction false} BatchStartIsHistory<F>(max: Option<int>, interval: real, calls: seq<Call<F>>)
    requires ValidMax(max)
    ensures RunCalls(max, interval, calls).http.startedAt == BatchBegan(max, interval, calls)
  {
    if calls != [] {
      hide Trim, HttpInv;
      var front, c := calls[..|calls| - 1], calls[|calls| - 1];
      BatchStartIsHistory(max, interval, front);
      BatchesAreNewest(max, interval, front);
      StartMoves(RunCalls(max, interval, front), max, interval, c, Published(front));
    }
  }

  lemma StartMoves<F>(r: HttpRun<F>, max: Option<int>, interval: real, c: Call<F>, published: seq<F>)
    requires ValidMax(max) && HttpInv(r, max, published)
    ensures RunCall(r, max, interval, c).http.startedAt
         == if |RunCall(r, max, interval, c).batches| > |r.batches| then None
            else if c.PublishCall? && r.http.startedAt.None? then Some(c.now)
            else r.http.startedAt
  {
    hide Trim;
    if c.PublishCall? {
      TrimAppend(r.since, max, c.frame);
    }
  }

  /** A publish hands a batch to the client exactly when the present batch began at least the interval ago, and the
      batch is the newest part of everything published since the last acknowledgement; an acknowledgement closes it. */
  lemma PostsWhenTheIntervalHasPassed<F>(
    max: Option<int>, interval: real, calls: seq<Call<F>>, f: F, now: real, post: Post)
    requires ValidMax(max)
    ensures var r, q := RunCalls(max, interval, calls), RunCalls(max, interval, calls + [PublishCall(f, now, post)]);
            var began := BatchBegan(max, interval, calls);
            var batch := Trim(r.since + [f], max);
            if now - (if began.None? then now else began.value) >= interval then
              && q.posts == r.posts + [batch]
              && q.batches == (if post.Acknowledged? then r.batches + [batch] else r.batches)
              && q.since == (if post.Acknowledged? then [] else r.since + [f])
            else q.posts == r.posts && q.batches == r.batches && q.since == r.since + [f]
  {
    hide Trim, HttpInv;
    var all := calls + [PublishCall(f, now, post)];
    assert all[..|all| - 1] == calls;
    BatchStartIsHistory(max, interval, calls);
    BatchesAreNewest(max, interval, calls);
    PublishPosts(RunCalls(max, interval, calls), max, interval, f, now, post, Published(calls));
  }

  lemma PublishPosts<F>(
    r: HttpRun<F>, max: Option<int>, interval: real, f: F, now: real, post: Post, published: seq<F>)
    requires ValidMax(max) && HttpInv(r, max, published)
    ensures var q, batch := RunCall(r, max, interval, PublishCall(f, now, post)), Trim(r.since + [f], max);
            if now - (if r.http.startedAt.None? then now else r.http.startedAt.value) >= interval then
              && q.posts == r.posts + [batch]
              && q.batches == (if post.Acknowledged? then r.batches + [batch] else r.batches)
              && q.since == (if post.Acknowledged? then [] else r.since + [f])
            else q.posts == r.posts && q.batches == r.batches && q.since == r.since + [f]
  {
    hide Trim;
    TrimAppend(r.since, max, f);
  }
}
