/** What a flush, its retry loop and its replay do, outcome by outcome. */
module SenderLaws {
  import opened FileNames
  import opened BufferSpec
  import opened SenderSpec

  // ----- the retry loop, exactly -----

  ghost predicate Succeeds(net: seq<Attempt>, marshals: bool, m: nat) {
    marshals && Round(net, m).acked
  }

  /** The loop from round k stopped after r.calls requests: it went on exactly over the rounds that
      neither succeeded nor had their wait cancelled, and the result says why it stopped. */
  ghost predicate StopsRightly(net: seq<Attempt>, marshals: bool, k: nat, n: nat, r: Retried) {
    var last := k + r.calls;
    && last <= n
    && (forall j: nat :: k <= j < last - 1 ==> !Succeeds(net, marshals, j))
    && (forall j: nat :: k <= j < last && j > 0 ==> !Round(net, j).cancelled)
    && match r.result
       case Delivered => r.calls > 0 && Succeeds(net, marshals, last - 1)
       case Cancelled => 0 < last < n && Round(net, last).cancelled && (r.calls > 0 ==> !Succeeds(net, marshals, last - 1))
       case Exhausted => last == n && (r.calls > 0 ==> !Succeeds(net, marshals, last - 1))
  }

  lemma {:induction false} RetryStopsRightly(net: seq<Attempt>, marshals: bool, k: nat, n: nat)
    requires k <= n
    ensures StopsRightly(net, marshals, k, n, Retry(net, marshals, k, n))
    decreases n - k
  {
    if k < n { RetryStopsRightly(net, marshals, k + 1, n); }
  }

  lemma {:induction false} RetryWaits(net: seq<Attempt>, marshals: bool, k: nat, n: nat)
    requires 0 < k <= n
    ensures var r := Retry(net, marshals, k, n); r.slept == Pow2(k + r.calls - 1) - Pow2(k - 1)
    decreases n - k
  {
    if k < n { RetryWaits(net, marshals, k + 1, n); }
  }

  /** Result, number of requests and waiting of the loop: requests are made until one succeeds, a
      wait is cancelled or n are made, and c requests go with 2^(c-1)-1 seconds of waiting. */
  lemma {:induction false} RetryExactly(net: seq<Attempt>, marshals: bool, n: nat)
    requires n > 0
    ensures var r := Retry(net, marshals, 0, n);
      StopsRightly(net, marshals, 0, n, r) && r.calls > 0 && r.slept == Pow2(r.calls - 1) - 1
  {
    RetryStopsRightly(net, marshals, 0, n);
    RetryWaits(net, marshals, 1, n);
  }

  /** The sender's own loop: 1 to 5 requests with waits of 1, 2, 4 and 8 seconds in between. */
  lemma {:induction false} SenderWaitsExactly(net: seq<Attempt>, marshals: bool)
    ensures var r := Retry(net, marshals, 0, MAX_RETRIES);
      1 <= r.calls <= 5 && r.slept == [0, 1, 1 + 2, 1 + 2 + 4, 1 + 2 + 4 + 8][r.calls - 1]
  {
    RetryExactly(net, marshals, MAX_RETRIES);
    assert Pow2(0) == 1 && Pow2(1) == 2 && Pow2(2) == 4 && Pow2(3) == 8 && Pow2(4) == 16;
  }

  // ----- the order of a replay -----

  /** The data points of the snapshots that decode, snapshot by snapshot. */
  function ItemsIn(todo: seq<Content>): seq<Item> {
    if todo == [] then [] else (if todo[0].Encoded? then todo[0].items else []) + ItemsIn(todo[1..])
  }

  /** How many requests a replay of them needs. */
  function Requests(todo: seq<Content>): nat {
    if todo == [] then 0 else (if todo[0].Encoded? then 1 else 0) + Requests(todo[1..])
  }

  ghost predicate AllAccepted(replies: seq<bool>, n: nat) {
    n <= |replies| && forall i :: 0 <= i < n ==> replies[i]
  }

  /** The first k snapshots are replayed: each that decodes is accepted, and the next one, if any,
      is refused or not answered. */
  ghost predicate ReplaysUpTo(todo: seq<Content>, replies: seq<bool>, k: nat) {
    && k <= |todo|
    && AllAccepted(replies, Requests(todo[..k]))
    && (k < |todo| ==> todo[k].Encoded? && !AllAccepted(replies, Requests(todo[..k]) + 1))
  }

  /** What a replay sends is the data of a prefix of the snapshots, in their order: of all of them
      if it finishes, otherwise of those before the first that is refused. */
  lemma {:induction false} ReplayInOrder(todo: seq<Content>, replies: seq<bool>) returns (k: nat)
    ensures ReplaysUpTo(todo, replies, k)
    ensures Replay(todo, replies).acked == ItemsIn(todo[..k])
    ensures Replay(todo, replies).finished <==> k == |todo|
  {
    if todo == [] || (todo[0].Encoded? && (replies == [] || !replies[0])) {
      k := 0;
      assert todo[..k] == [];
    } else {
      var left := if todo[0].Encoded? then replies[1..] else replies;
      var j := ReplayInOrder(todo[1..], left);
      k := j + 1;
      assert todo[..k][1..] == todo[1..][..j] && todo[..k][0] == todo[0];
      if j < |todo[1..]| { assert todo[1..][j] == todo[k]; }
      if todo[0].Encoded? {
        AcceptedTail(replies, Requests(todo[1..][..j]));
        AcceptedTail(replies, Requests(todo[1..][..j]) + 1);
      }
    }
  }

  lemma {:induction false} AcceptedTail(replies: seq<bool>, n: nat)
    requires replies != [] && replies[0]
    ensures AllAccepted(replies, n + 1) <==> AllAccepted(replies[1..], n)
  {
    if AllAccepted(replies[1..], n) {
      forall i | 0 <= i < n + 1 ensures replies[i] {
        if i > 0 { assert replies[1..][i - 1]; }
      }
    }
  }

  /** Only one k fits, so the two lemmas together say what a replay does. */
  lemma {:induction false} ReplaysUpToOnce(todo: seq<Content>, replies: seq<bool>, j: nat, k: nat)
    requires ReplaysUpTo(todo, replies, j) && ReplaysUpTo(todo, replies, k)
    ensures j == k
  {
    if j < k {
      RequestsGrow(todo, j, k);
    } else if k < j {
      RequestsGrow(todo, k, j);
    }
  }

  lemma {:induction false} RequestsGrow(todo: seq<Content>, j: nat, k: nat)
    requires j < k <= |todo| && todo[j].Encoded?
    ensures Requests(todo[..j]) + 1 <= Requests(todo[..k])
    decreases j
  {
    assert todo[..k][1..] == todo[1..][..k - 1];
    if j > 0 {
      assert todo[..j][1..] == todo[1..][..j - 1];
      assert todo[1..][j - 1] == todo[j];
      RequestsGrow(todo[1..], j - 1, k - 1);
    }
  }

  // ----- flushBuffer, flush and Write -----

  /** flushBuffer sends the data of a prefix of the readable files, in listing order, and empties the
      directory as far as removals succeed exactly when that prefix is all of them. */
  lemma {:induction false} FlushBufferExactly(b: BufferState, env: FlushEnv) returns (k: nat)
    ensures var batches := ReadableFiles(b.files - env.unreadable, {}); var f := FlushBuffer(b, env);
      if !env.readOk then
        f == Flushed(b, [])
      else
        && ReplaysUpTo(batches, env.replies, k) && f.replayed == ItemsIn(batches[..k])
        && (forall n :: n in f.buf.files <==>
              (n in b.files && !(k == |batches| && batches != [] && env.clearOk && n !in env.stuck)))
        && (forall n :: n in f.buf.files ==> f.buf.files[n] == b.files[n])
        && f.buf.size == (if k == |batches| && batches != [] && env.clearOk then 0 else b.size)
  {
    UnreadableIsAbsent(b.files, env.unreadable);
    k := ReplayInOrder(ReadableFiles(b.files, env.unreadable), env.replies);
  }

  /** Write stores the batch exactly when it encodes, fits within the limit and the disk takes it:
      then one file of that name holds it and the account has grown by its bytes.  Otherwise nothing
      changes, and the first of the three that failed is the error. */
  lemma {:induction false} WriteExactly(b: BufferState, maxSize: int, items: seq<Item>, name: Name, bytes: nat, modTime: int, diskOk: bool)
    ensures var w := WriteOutcome(b, maxSize, items, bytes, diskOk);
            var c := AfterWrite(b, name, File(bytes, modTime, Encoded(items)), w);
      && (w == MarshalFailed <==> exists x :: x in items && !x.marshals)
      && (w == Stored || w == DiskFailed ==> b.size + bytes <= maxSize)
      && (w == BufferFull ==> b.size + bytes > maxSize)
      && (w == Stored ==> diskOk) && (w == DiskFailed ==> !diskOk)
      && c.size - b.size == (if w == Stored then bytes else 0)
      && (w == Stored ==> name in c.files && ItemsOf(c.files[name]) == items && c.files[name].modTime == modTime)
      && c.files.Keys == b.files.Keys + (if w == Stored then {name} else {})
      && forall n :: n in b.files && (w == Stored ==> n != name) ==> c.files[n] == b.files[n]
  {
    if !Marshals(items) {
      var i :| 0 <= i < |items| && !items[i].marshals;
      assert items[i] in items;
    }
  }

  /** The first wait to be cancelled is the one before round m, and no round before it succeeded. */
  ghost predicate CancelledAt(net: seq<Attempt>, m: nat) {
    && 0 < m && Round(net, m).cancelled
    && (forall j: nat :: j < m ==> !Round(net, j).acked)
    && (forall j: nat :: 0 < j < m ==> !Round(net, j).cancelled)
  }

  /** The direct send of these data is acknowledged within five rounds. */
  ghost predicate GoesThrough(data: seq<Item>, net: seq<Attempt>) {
    (forall x :: x in data ==> x.marshals) && exists m: nat :: m < 5 && DeliversAt(net, 0, m)
  }

  lemma {:induction false} AllMarshal(data: seq<Item>)
    ensures Marshals(data) <==> forall x :: x in data ==> x.marshals
  {
    forall i | 0 <= i < |data| ensures data[i] in data {}
  }

  /** What flush returns and leaves, for every state and every answer. */
  lemma {:induction false} FlushExactly(s: Store, maxSize: int, env: FlushEnv)
    ensures var o := Flush(s, maxSize, env); var data := Combined(s.queue);
            var through := s.queue != [] && GoesThrough(data, env.net);
            var stores := (forall x :: x in data ==> x.marshals) && s.buf.size + env.bytes <= maxSize && env.diskOk;
      && (o.result == NotFlushed <==> s.queue == [])
      && (o.result == Sent <==> through)
      && (o.result.Kept? <==> s.queue != [] && !through && stores)
      && (o.result.KeptUnbuffered? ==> !through && !stores)
      && (if through then
            o.direct == data && o.store == Store([], FlushBuffer(s.buf, env).buf) && o.replayed == FlushBuffer(s.buf, env).replayed
          else
            o.direct == [] && o.replayed == [] && o.store.queue == s.queue)
      && (o.result.Kept? ==> o.store.buf == BufferState(
            s.buf.files[BatchName(env.now) := File(env.bytes, env.modTime, Encoded(data))], s.buf.size + env.bytes))
      && (!through && !o.result.Kept? ==> o.store == s)
  {
    var data := Combined(s.queue);
    AllMarshal(data);
    RetryBudget(env.net, Marshals(data), MAX_RETRIES);
  }

  /** The errors: a snapshot that is stored comes with the send error, which says whether a wait was
      cancelled first; otherwise the error is the first check of Write that failed. */
  lemma {:induction false} FlushErrorsExactly(s: Store, maxSize: int, env: FlushEnv)
    ensures var o := Flush(s, maxSize, env); var data := Combined(s.queue);
      && (o.result.Kept? ==>
            o.result.sendError == (if exists m: nat :: m < 5 && CancelledAt(env.net, m) then Cancelled else Exhausted))
      && (o.result.KeptUnbuffered? ==>
            o.result.writeError == (if exists x :: x in data && !x.marshals then MarshalFailed
                                    else if s.buf.size + env.bytes > maxSize then BufferFull
                                    else DiskFailed))
  {
    var data := Combined(s.queue);
    AllMarshal(data);
    RetryExactly(env.net, Marshals(data), MAX_RETRIES);
    var r := Retry(env.net, Marshals(data), 0, MAX_RETRIES);
    if Marshals(data) && r.result == Cancelled {
      var m := r.calls;
      forall j: nat | j < m ensures !Round(env.net, j).acked {
        assert !Succeeds(env.net, true, j);
      }
      assert CancelledAt(env.net, m);
    } else if Marshals(data) && r.result == Exhausted {
      assert r.calls == 5;
    }
  }

  /** A queue with an item that cannot be encoded is neither sent nor stored: flush returns the
      encoding error and leaves queue, directory and account as they were. */
  lemma {:induction false} RejectedIsNeverStored(s: Store, maxSize: int, env: FlushEnv, x: Item)
    requires x in Combined(s.queue) && !x.marshals
    ensures var o := Flush(s, maxSize, env);
      o.result == KeptUnbuffered(MarshalFailed) && o.store == s && o.direct == [] && o.replayed == []
  {
    FlushExactly(s, maxSize, env);
    FlushErrorsExactly(s, maxSize, env);
  }
}
