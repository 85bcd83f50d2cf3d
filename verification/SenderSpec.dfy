/** What one call of the telemetry sender does, as values.

    A TelemetryBatch is its list of data points; agent id and time stamp are not modelled.  The
    network's and the disk's answers to one flush are the fields of FlushEnv. */
module SenderSpec {
  import opened FileNames
  import opened BufferSpec

  datatype Batch = Batch(data: seq<Item>)

  /** The data points of a queue, in order: the batch that flush builds. */
  function Combined(queue: seq<Batch>): seq<Item> {
    if queue == [] then [] else queue[0].data + Combined(queue[1..])
  }

  lemma {:induction false} CombinedConcat(a: seq<Batch>, b: seq<Batch>)
    ensures Combined(a + b) == Combined(a) + Combined(b)
  {
    if a == [] {
      assert a + b == b;
    } else {
      assert (a + b)[1..] == a[1..] + b;
      CombinedConcat(a[1..], b);
    }
  }

  // ----- sendWithRetry -----

  const MAX_RETRIES := 5

  /** One round of the retry loop: whether the wait before it is cancelled, and the reply. */
  datatype Attempt = Attempt(cancelled: bool, acked: bool)

  datatype SendResult = Delivered | Cancelled | Exhausted

  /** Result, number of requests made, seconds waited. */
  datatype Retried = Retried(result: SendResult, calls: nat, slept: nat)

  function Pow2(k: nat): (p: nat)
    ensures p > 0
  {
    if k == 0 then 1 else 2 * Pow2(k - 1)
  }

  function Round(net: seq<Attempt>, k: nat): Attempt {
    if k < |net| then net[k] else Attempt(false, false)
  }

  /** The retry loop from round k on, for at most n rounds in all. */
  function Retry(net: seq<Attempt>, marshals: bool, k: nat, n: nat): Retried
    requires k <= n
    decreases n - k
  {
    if k == n then Retried(Exhausted, 0, 0)
    else if k > 0 && Round(net, k).cancelled then Retried(Cancelled, 0, 0)
    else
      var delay := if k > 0 then Pow2(k - 1) else 0;
      if marshals && Round(net, k).acked then Retried(Delivered, 1, delay)
      else
        var rest := Retry(net, marshals, k + 1, n);
        Retried(rest.result, 1 + rest.calls, delay + rest.slept)
  }

  /** Starting at round k, round m delivers: it is acknowledged, no earlier one is, and no wait up
      to it is cancelled. */
  ghost predicate DeliversAt(net: seq<Attempt>, k: nat, m: nat) {
    && k <= m && Round(net, m).acked
    && (forall j :: k <= j < m ==> !Round(net, j).acked)
    && (forall j :: k <= j <= m && j > 0 ==> !Round(net, j).cancelled)
  }

  lemma {:induction false} RetryCost(net: seq<Attempt>, marshals: bool, k: nat, n: nat)
    requires k <= n && n > 0
    ensures var r := Retry(net, marshals, k, n);
      r.calls <= n - k && r.slept + (if k == 0 then 1 else Pow2(k - 1)) <= Pow2(n - 1)
    decreases n - k
  {
    if k < n {
      RetryCost(net, marshals, k + 1, n);
      if k > 0 { Pow2Monotone(k - 1, n - 1); } else { Pow2Monotone(0, n - 1); }
    }
  }

  lemma {:induction false} RetrySucceeds(net: seq<Attempt>, k: nat, n: nat)
    requires k <= n
    ensures Retry(net, true, k, n).result == Delivered <==> exists m: nat :: m < n && DeliversAt(net, k, m)
    decreases n - k
  {
    if k == n {
    } else if k > 0 && Round(net, k).cancelled {
      assert forall m: nat :: DeliversAt(net, k, m) ==> !Round(net, k).cancelled;
    } else if Round(net, k).acked {
      assert DeliversAt(net, k, k);
    } else {
      RetrySucceeds(net, k + 1, n);
      var next := k + 1;
      assert forall m: nat :: DeliversAt(net, k, m) <==> DeliversAt(net, next, m);
    }
  }

  /** A batch that json.Marshal rejects is never delivered. */
  lemma {:induction false} RejectedNeverDelivered(net: seq<Attempt>, k: nat, n: nat)
    requires k <= n
    ensures Retry(net, false, k, n).result != Delivered
    decreases n - k
  {
    if k < n { RejectedNeverDelivered(net, k + 1, n); }
  }

  lemma {:induction false} Pow2Monotone(j: nat, k: nat)
    requires j <= k
    ensures Pow2(j) <= Pow2(k)
    decreases k
  {
    if j < k { Pow2Monotone(j, k - 1); }
  }

  /** At most n requests and 2^(n-1)-1 seconds of waiting; success exactly when the batch encodes
      and some round among the first n is acknowledged before any wait is cancelled. */
  lemma {:induction false} RetryBudget(net: seq<Attempt>, marshals: bool, n: nat)
    requires n > 0
    ensures var r := Retry(net, marshals, 0, n);
      && r.calls <= n
      && r.slept <= Pow2(n - 1) - 1
      && (r.result == Delivered <==> marshals && exists m: nat :: m < n && DeliversAt(net, 0, m))
  {
    RetryCost(net, marshals, 0, n);
    if marshals { RetrySucceeds(net, 0, n); } else { RejectedNeverDelivered(net, 0, n); }
  }

  /** The sender's own loop waits at most 15 seconds in total. */
  lemma {:induction false} SenderWaitsAtMost15(net: seq<Attempt>, marshals: bool)
    ensures Retry(net, marshals, 0, MAX_RETRIES).slept <= 15
  {
    RetryBudget(net, marshals, MAX_RETRIES);
    assert Pow2(4) == 16;
  }

  // ----- flushBuffer -----

  /** Data points acknowledged during a replay, and whether it got through the whole list. */
  datatype Replayed = Replayed(acked: seq<Item>, finished: bool)

  /** The replay loop: one request per snapshot that decodes, stopping at the first refusal. */
  function Replay(todo: seq<Content>, replies: seq<bool>): Replayed {
    if todo == [] then Replayed([], true)
    else
      match todo[0]
      case Garbage => Replay(todo[1..], replies)
      case Encoded(items) =>
        if replies == [] || !replies[0] then Replayed([], false)
        else
          var rest := Replay(todo[1..], replies[1..]);
          Replayed(items + rest.acked, rest.finished)
  }

  datatype FlushEnv = FlushEnv(
    net: seq<Attempt>,
    bytes: nat, now: nat, modTime: int, diskOk: bool,
    readOk: bool, unreadable: set<Name>, replies: seq<bool>,
    clearOk: bool, stuck: set<Name>)

  datatype Flushed = Flushed(buf: BufferState, replayed: seq<Item>)

  ghost function FlushBuffer(b: BufferState, env: FlushEnv): Flushed {
    if !env.readOk then Flushed(b, [])
    else
      var batches := ReadableFiles(b.files, env.unreadable);
      if batches == [] then Flushed(b, [])
      else
        var r := Replay(batches, env.replies);
        Flushed(if r.finished then AfterClear(b, env.clearOk, env.stuck) else b, r.acked)
  }

  // ----- flush and Send -----

  datatype Store = Store(queue: seq<Batch>, buf: BufferState)

  datatype FlushResult =
    | NotFlushed
    | Sent
    | Kept(sendError: SendResult)             // the send error, after the snapshot was written
    | KeptUnbuffered(writeError: WriteResult) // the buffer's error

  /** New state, returned error, data points acknowledged directly and by replay. */
  datatype Outcome = Outcome(store: Store, result: FlushResult, direct: seq<Item>, replayed: seq<Item>)

  ghost function Flush(s: Store, maxSize: int, env: FlushEnv): Outcome {
    if s.queue == [] then Outcome(s, NotFlushed, [], [])
    else
      var data := Combined(s.queue);
      var sent := Retry(env.net, Marshals(data), 0, MAX_RETRIES).result;
      if sent == Delivered then
        var f := FlushBuffer(s.buf, env);
        Outcome(Store([], f.buf), Sent, data, f.replayed)
      else
        var w := WriteOutcome(s.buf, maxSize, data, env.bytes, env.diskOk);
        var b := AfterWrite(s.buf, BatchName(env.now), File(env.bytes, env.modTime, Encoded(data)), w);
        Outcome(Store(s.queue, b), if w == Stored then Kept(sent) else KeptUnbuffered(w), [], [])
  }

  ghost function Send(s: Store, batchSize: int, maxSize: int, item: Item, env: FlushEnv): Outcome {
    var q := s.queue + [Batch([item])];
    if |q| >= batchSize then Flush(Store(q, s.buf), maxSize, env)
    else Outcome(Store(q, s.buf), NotFlushed, [], [])
  }
}
