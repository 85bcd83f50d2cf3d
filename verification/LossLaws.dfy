/** Exactly when a stored item is lost: for one call, for any sequence of calls and restarts, and,
    where a crash may fall inside a call, file by file. */
module LossLaws {
  import opened FileNames
  import opened BufferSpec
  import opened SenderSpec
  import opened StoreAndForward

  // ----- one flush -----

  /** Every file that holds x has the property. */
  ghost predicate AllHolders(files: Dir, x: Item, p: Name -> bool) {
    forall n :: n in files && x in ItemsOf(files[n]) ==> p(n)
  }

  /** The flush is fatal to x: x is not in the queue, and either the direct send works, the replay
      gets through to Clear, and every file with x is skipped and can be removed; or the direct
      send fails and the snapshot is stored under the name of the only file with x. */
  ghost predicate FatalFlush(s: Store, maxSize: int, env: FlushEnv, x: Item) {
    var data := Combined(s.queue);
    var sent := Retry(env.net, Marshals(data), 0, MAX_RETRIES).result;
    && s.queue != [] && x !in data
    && (if sent == Delivered then
          ReachesClear(s.buf, env) && AllHolders(s.buf.files, x, n => n in env.unreadable && n !in env.stuck)
        else
          WriteOutcome(s.buf, maxSize, data, env.bytes, env.diskOk) == Stored &&
          AllHolders(s.buf.files, x, n => n == BatchName(env.now)))
  }

  lemma {:induction false} SnapshotLoss(s: Store, maxSize: int, env: FlushEnv, x: Item)
    requires OnDisk(s.buf.files, x)
    requires Retry(env.net, Marshals(Combined(s.queue)), 0, MAX_RETRIES).result != Delivered
    ensures OnDisk(Flush(s, maxSize, env).store.buf.files, x) <==> !FatalFlush(s, maxSize, env, x)
  {
    var z := Flush(s, maxSize, env).store.buf.files;
    var name := BatchName(env.now);
    if z != s.buf.files {
      assert name in z && ItemsOf(z[name]) == Combined(s.queue);
      assert forall n :: n in z && n != name ==> n in s.buf.files && z[n] == s.buf.files[n];
      if n :| n in s.buf.files && x in ItemsOf(s.buf.files[n]) && n != name {
        assert n in z && z[n] == s.buf.files[n];
      }
    }
  }

  /** A stored item is neither delivered by a flush nor on disk after it if and only if the flush is
      fatal to it. */
  lemma {:induction false} FlushLosesExactly(s: Store, maxSize: int, env: FlushEnv, x: Item)
    requires OnDisk(s.buf.files, x)
    ensures var o := Flush(s, maxSize, env);
      (x !in o.direct && x !in o.replayed && !OnDisk(o.store.buf.files, x)) <==> FatalFlush(s, maxSize, env, x)
  {
    if s.queue != [] {
      if Retry(env.net, Marshals(Combined(s.queue)), 0, MAX_RETRIES).result == Delivered {
        FlushBufferLoss(s.buf, env, x);
      } else {
        SnapshotLoss(s, maxSize, env, x);
      }
    }
  }

  // ----- sequences of calls over any number of processes -----

  datatype Call =
    | Sends(item: Item, env: FlushEnv)
    | Ticks(env: FlushEnv)       // the timer's flush
    | Restarts(scanOk: bool)     // the process ends between two calls and a new one starts

  /** The sender, its directory, and all that was ever acknowledged. */
  datatype World = World(store: Store, delivered: set<Item>)

  function Queued(q: seq<Batch>, item: Item): seq<Batch> {
    q + [Batch([item])]
  }

  ghost function Outcome1(c: Config, w: World, call: Call): Outcome
    requires !call.Restarts?
  {
    match call
    case Sends(item, env) => Send(w.store, c.batchSize, c.maxSize, item, env)
    case Ticks(env) => Flush(w.store, c.maxSize, env)
  }

  ghost function Next(c: Config, w: World, call: Call): World {
    if call.Restarts? then
      World(Store([], BufferState(w.store.buf.files, if call.scanOk then Sum(w.store.buf.files, Bytes) else 0)), w.delivered)
    else
      var o := Outcome1(c, w, call);
      World(o.store, w.delivered + ToSet(o.direct) + ToSet(o.replayed))
  }

  ghost function Calls(c: Config, w: World, calls: seq<Call>): World
    decreases |calls|
  {
    if calls == [] then w else Calls(c, Next(c, w, calls[0]), calls[1..])
  }

  /** The call flushes and its flush is fatal to the unacknowledged item x. */
  ghost predicate Fatal(c: Config, w: World, call: Call, x: Item) {
    && x !in w.delivered
    && match call
       case Sends(item, env) =>
         var q := Queued(w.store.queue, item);
         |q| >= c.batchSize && FatalFlush(Store(q, w.store.buf), c.maxSize, env, x)
       case Ticks(env) => FatalFlush(w.store, c.maxSize, env, x)
       case Restarts(_) => false
  }

  ghost predicate SomeFatal(c: Config, w: World, calls: seq<Call>, x: Item)
    decreases |calls|
  {
    calls != [] && (Fatal(c, w, calls[0], x) || SomeFatal(c, Next(c, w, calls[0]), calls[1..], x))
  }

  ghost predicate Gone(w: World, x: Item) {
    x !in w.delivered && !OnDisk(w.store.buf.files, x)
  }

  ghost predicate NotAccepted(calls: seq<Call>, x: Item) {
    forall i :: 0 <= i < |calls| && calls[i].Sends? ==> calls[i].item != x
  }

  /** One call: a stored, unacknowledged item is gone afterwards exactly when the call is fatal. */
  lemma {:induction false} CallLosesExactly(c: Config, w: World, call: Call, x: Item)
    requires OnDisk(w.store.buf.files, x) && x !in w.delivered
    ensures Gone(Next(c, w, call), x) <==> Fatal(c, w, call, x)
  {
    match call
    case Sends(item, env) => FlushLosesExactly(Store(Queued(w.store.queue, item), w.store.buf), c.maxSize, env, x);
    case Ticks(env) => FlushLosesExactly(w.store, c.maxSize, env, x);
    case Restarts(_) =>
  }

  /** After a fatal call x is not even in the queue. */
  lemma {:induction false} FatalLeavesNothing(c: Config, w: World, call: Call, x: Item)
    requires Fatal(c, w, call, x)
    ensures x !in Combined(Next(c, w, call).store.queue)
  {
  }

  /** An item that is nowhere and not accepted again stays nowhere. */
  lemma {:induction false} GoneForEver(c: Config, w: World, calls: seq<Call>, x: Item)
    requires Gone(w, x) && x !in Combined(w.store.queue) && NotAccepted(calls, x)
    ensures Gone(Calls(c, w, calls), x)
    decreases |calls|
  {
    if calls != [] {
      CallKeepsGone(c, w, calls[0], x);
      GoneForEver(c, Next(c, w, calls[0]), calls[1..], x);
    }
  }

  lemma {:induction false} FlushKeepsGone(s: Store, maxSize: int, env: FlushEnv, x: Item)
    requires !OnDisk(s.buf.files, x) && x !in Combined(s.queue)
    ensures var o := Flush(s, maxSize, env);
      x !in o.direct && x !in o.replayed && !OnDisk(o.store.buf.files, x) && x !in Combined(o.store.queue)
  {
    var o := Flush(s, maxSize, env);
    assert forall n :: n in o.store.buf.files ==>
      (n in s.buf.files && o.store.buf.files[n] == s.buf.files[n]) || ItemsOf(o.store.buf.files[n]) == Combined(s.queue);
    var batches := ReadableFiles(s.buf.files, env.unreadable);
    ReadableItems(s.buf.files, env.unreadable, x);
    ReplayAcks(batches, env.replies);
  }

  lemma {:induction false} CallKeepsGone(c: Config, w: World, call: Call, x: Item)
    requires Gone(w, x) && x !in Combined(w.store.queue) && (call.Sends? ==> call.item != x)
    ensures Gone(Next(c, w, call), x) && x !in Combined(Next(c, w, call).store.queue)
  {
    match call
    case Sends(item, env) =>
      CombinedConcat(w.store.queue, [Batch([item])]);
      assert Combined([Batch([item])]) == [item] + Combined([]);
      FlushKeepsGone(Store(Queued(w.store.queue, item), w.store.buf), c.maxSize, env, x);
    case Ticks(env) => FlushKeepsGone(w.store, c.maxSize, env, x);
    case Restarts(_) =>
  }

  /** What is acknowledged stays so, and nothing is fatal to it. */
  lemma {:induction false} DeliveredForEver(c: Config, w: World, calls: seq<Call>, x: Item)
    requires x in w.delivered
    ensures x in Calls(c, w, calls).delivered && !SomeFatal(c, w, calls, x)
    decreases |calls|
  {
    if calls != [] { DeliveredForEver(c, Next(c, w, calls[0]), calls[1..], x); }
  }

  /** Over any sequence of Sends, timer flushes and restarts that does not accept x again, a stored,
      unacknowledged item x ends up unacknowledged and off disk if and only if some call was fatal
      to it. */
  lemma {:induction false} LostExactlyByFatalCalls(c: Config, w: World, calls: seq<Call>, x: Item)
    requires OnDisk(w.store.buf.files, x) && x !in w.delivered && NotAccepted(calls, x)
    ensures Gone(Calls(c, w, calls), x) <==> SomeFatal(c, w, calls, x)
    decreases |calls|
  {
    if calls != [] {
      var z := Next(c, w, calls[0]);
      CallLosesExactly(c, w, calls[0], x);
      if Fatal(c, w, calls[0], x) {
        FatalLeavesNothing(c, w, calls[0], x);
        GoneForEver(c, z, calls[1..], x);
      } else if x in z.delivered {
        DeliveredForEver(c, z, calls[1..], x);
      } else {
        LostExactlyByFatalCalls(c, z, calls[1..], x);
      }
    }
  }

  // ----- these sequences are runs of the crash machine -----

  ghost predicate IsWorld(a: Agent, w: World) {
    a.phase.Idle? && w == World(Store(a.queue, a.buf), a.delivered)
  }

  lemma {:induction false} CallIsRun(c: Config, a: Agent, call: Call) returns (acts: seq<Action>, z: Agent)
    requires a.phase.Idle?
    ensures Steps(c, a, acts, z) && IsWorld(z, Next(c, World(Store(a.queue, a.buf), a.delivered), call))
  {
    match call
    case Sends(item, env) =>
      acts, z := SendIsRun(c, a, item, env);
    case Ticks(env) =>
      if a.queue == [] {
        acts, z := [], a;
        assert ToSet([]) == {};
      } else {
        acts, z := FlushIsRun(c, Apply(c, a, Tick), env);
        StepFirst(c, a, Tick, acts, z);
        acts := [Tick] + acts;
      }
    case Restarts(scanOk) =>
      z := Apply(c, a, Crash(scanOk));
      StepFirst(c, a, Crash(scanOk), [], z);
      acts := [Crash(scanOk)] + [];
  }

  /** Every sequence of calls and restarts is a run of the crash machine with the same directory and
      the same deliveries. */
  lemma {:induction false} CallsAreRuns(c: Config, a: Agent, calls: seq<Call>) returns (acts: seq<Action>, z: Agent)
    requires a.phase.Idle?
    ensures Steps(c, a, acts, z) && IsWorld(z, Calls(c, World(Store(a.queue, a.buf), a.delivered), calls))
    decreases |calls|
  {
    if calls == [] {
      return [], a;
    }
    var first, m := CallIsRun(c, a, calls[0]);
    var more;
    more, z := CallsAreRuns(c, m, calls[1..]);
    StepsConcat(c, a, first, m, more, z);
    acts := first + more;
  }

  // ----- crashes anywhere, file by file -----

  /** The run never skips the file named n and never writes a snapshot of that name. */
  ghost predicate Spares(acts: seq<Action>, n: Name) {
    forall i :: 0 <= i < |acts| ==>
      (acts[i].Read? ==> n !in acts[i].unreadable) && (acts[i].Snapshot? ==> acts[i].name != n)
  }

  /** x is acknowledged, or its file f is in place; then, while replaying, x is still to be sent,
      and Clear has not been reached. */
  ghost predicate Guarded(a: Agent, n: Name, f: File, x: Item) {
    x in a.delivered ||
    (&& n in a.foreign && n in a.buf.files && a.buf.files[n] == f
     && !a.phase.ClearStart? && !a.phase.Clearing?
     && (a.phase.Replaying? ==> InTodo(a.phase.todo, x)))
  }

  lemma {:induction false} StepKeepsGuarded(c: Config, a: Agent, act: Action, n: Name, f: File, x: Item)
    requires Guarded(a, n, f, x) && x in ItemsOf(f) && Enabled(a, act) && Spares([act], n)
    ensures Guarded(Apply(c, a, act), n, f, x)
  {
    assert [act][0] == act;
    if x !in a.delivered {
      if act.Read? {
        ReadableItems(a.buf.files, act.unreadable, x);
        assert InTodo(ReadableFiles(a.buf.files, act.unreadable), x);
      } else if act.ReplayAck? || act.ReplaySkip? {
        TodoTail(a.phase.todo, x);
      }
    }
  }

  lemma {:induction false} StepsKeepGuarded(c: Config, a: Agent, acts: seq<Action>, z: Agent, n: Name, f: File, x: Item)
    requires Guarded(a, n, f, x) && x in ItemsOf(f) && Steps(c, a, acts, z) && Spares(acts, n)
    ensures Guarded(z, n, f, x)
    decreases |acts|
  {
    if acts != [] {
      assert [acts[0]][0] == acts[0];
      StepKeepsGuarded(c, a, acts[0], n, f, x);
      StepsKeepGuarded(c, Apply(c, a, acts[0]), acts[1..], z, n, f, x);
    }
  }

  /** One file is enough: over any number of processes, with crashes between any two effects, an
      item of an earlier process's file is acknowledged or still in that file, as long as that file
      is never skipped and its name never taken, whatever happens to all others. */
  lemma {:induction false} OneFileKeepsItem(c: Config, a: Agent, acts: seq<Action>, z: Agent, n: Name, x: Item)
    requires Fresh(a) && n in a.buf.files && x in ItemsOf(a.buf.files[n])
    requires Steps(c, a, acts, z) && Spares(acts, n)
    ensures x in z.delivered || (n in z.buf.files && z.buf.files[n] == a.buf.files[n])
  {
    StepsKeepGuarded(c, a, acts, z, n, a.buf.files[n], x);
  }
}
