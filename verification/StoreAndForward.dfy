/** Whole runs of the sender over several processes that share one buffer directory.

    The machine takes one step per outside effect: a request answered, a file written, a directory
    listed, a file removed.  A crash is possible between any two of them; it loses the queue and
    keeps the directory.  Item values stand for themselves, so over the runs in which all accepted
    items differ, "some acknowledged item equals x" means that x itself was acknowledged. */
module StoreAndForward {
  import opened FileNames
  import opened BufferSpec
  import opened SenderSpec

  datatype Phase =
    | Idle                               // mu is free
    | Sending                            // inside sendWithRetry
    | Buffering                          // the direct send failed
    | Reading                            // the direct send succeeded; flushBuffer begins
    | Replaying(todo: seq<Content>)
    | ClearStart
    | Clearing(names: seq<Name>)

  /** One process with its directory, and histories that no code reads.  `accepted` and `direct`
      are this process's; `delivered` and `durable` span all processes: everything the server ever
      acknowledged, and everything in a snapshot whose Write returned nil.  `foreign` are the
      files that were there when this process started. */
  datatype Agent = Agent(
    queue: seq<Batch>, buf: BufferState, phase: Phase,
    accepted: seq<Item>, direct: seq<Item>,
    delivered: set<Item>, durable: set<Item>, foreign: set<Name>)

  datatype Action =
    | Accept(item: Item)
    | Tick
    | DirectAck
    | DirectFail
    | Snapshot(name: Name, bytes: nat, modTime: int, diskOk: bool)
    | Read(unreadable: set<Name>)
    | ReadFail
    | ReplayAck
    | ReplaySkip
    | ReplayFail
    | ReplayDone
    | ClearList
    | ClearListFail
    | RemoveOk
    | RemoveFail
    | ClearDone
    | Crash(scanOk: bool)

  datatype Config = Config(batchSize: int, maxSize: int)

  function ToSet(items: seq<Item>): set<Item> {
    set x | x in items
  }

  predicate Enabled(a: Agent, act: Action) {
    match act
    case Accept(_) => a.phase.Idle?
    case Tick => a.phase.Idle? && a.queue != []
    case DirectAck => a.phase.Sending? && Marshals(Combined(a.queue))
    case DirectFail => a.phase.Sending?
    case Snapshot(_, _, _, _) => a.phase.Buffering?
    case Read(_) => a.phase.Reading?
    case ReadFail => a.phase.Reading?
    case ReplayAck => a.phase.Replaying? && a.phase.todo != [] && a.phase.todo[0].Encoded?
    case ReplaySkip => a.phase.Replaying? && a.phase.todo != [] && a.phase.todo[0].Garbage?
    case ReplayFail => a.phase.Replaying? && a.phase.todo != [] && a.phase.todo[0].Encoded?
    case ReplayDone => a.phase.Replaying? && a.phase.todo == []
    case ClearList => a.phase.ClearStart?
    case ClearListFail => a.phase.ClearStart?
    case RemoveOk => a.phase.Clearing? && a.phase.names != []
    case RemoveFail => a.phase.Clearing? && a.phase.names != []
    case ClearDone => a.phase.Clearing? && a.phase.names == []
    case Crash(_) => true
  }

  ghost function Apply(c: Config, a: Agent, act: Action): Agent
    requires Enabled(a, act)
  {
    match act
    case Accept(item) =>
      var q := a.queue + [Batch([item])];
      a.(queue := q, accepted := a.accepted + [item], phase := if |q| >= c.batchSize then Sending else Idle)
    case Tick => a.(phase := Sending)
    case DirectAck =>
      var data := Combined(a.queue);
      a.(queue := [], direct := a.direct + data, delivered := a.delivered + ToSet(data), phase := Reading)
    case DirectFail => a.(phase := Buffering)
    case Snapshot(name, bytes, modTime, diskOk) =>
      var data := Combined(a.queue);
      var w := WriteOutcome(a.buf, c.maxSize, data, bytes, diskOk);
      if w == Stored then
        a.(buf := AfterWrite(a.buf, name, File(bytes, modTime, Encoded(data)), w), phase := Idle,
           durable := a.durable + ToSet(data), foreign := a.foreign - {name})
      else a.(phase := Idle)
    case Read(unreadable) =>
      var batches := ReadableFiles(a.buf.files, unreadable);
      a.(phase := if batches == [] then Idle else Replaying(batches))
    case ReadFail => a.(phase := Idle)
    case ReplayAck => a.(delivered := a.delivered + ToSet(a.phase.todo[0].items), phase := Replaying(a.phase.todo[1..]))
    case ReplaySkip => a.(phase := Replaying(a.phase.todo[1..]))
    case ReplayFail => a.(phase := Idle)
    case ReplayDone => a.(phase := ClearStart)
    case ClearList => a.(phase := Clearing(Listing(a.buf.files.Keys)))
    case ClearListFail => a.(phase := Idle)
    case RemoveOk =>
      a.(buf := BufferState(a.buf.files - {a.phase.names[0]}, a.buf.size), phase := Clearing(a.phase.names[1..]))
    case RemoveFail => a.(phase := Clearing(a.phase.names[1..]))
    case ClearDone => a.(buf := BufferState(a.buf.files, 0), phase := Idle)
    case Crash(scanOk) => Restarted(a, scanOk)
  }

  /** A new process on the old directory: an empty queue and a freshly scanned account. */
  ghost function Restarted(a: Agent, scanOk: bool): Agent {
    Agent([], BufferState(a.buf.files, if scanOk then Sum(a.buf.files, Bytes) else 0), Idle,
          [], [], a.delivered, a.durable, a.buf.files.Keys)
  }

  /** The actions `acts` lead from a to z. */
  ghost predicate Steps(c: Config, a: Agent, acts: seq<Action>, z: Agent)
    decreases |acts|
  {
    if acts == [] then a == z
    else Enabled(a, acts[0]) && Steps(c, Apply(c, a, acts[0]), acts[1..], z)
  }

  /** A process that has just started, on any directory, in a world where everything durable is
      acknowledged or on disk. */
  ghost predicate Fresh(a: Agent) {
    && a.queue == [] && a.accepted == [] && a.direct == [] && a.phase.Idle?
    && a.foreign == a.buf.files.Keys
    && forall x :: x in a.durable ==> x in a.delivered || OnDisk(a.buf.files, x)
  }

  // ----- what every step keeps, whatever the disk and the network do -----

  /** A snapshot is settled: it is a prefix of the queue's data, or a direct send acknowledged it. */
  ghost predicate Settled(a: Agent, f: File) {
    && f.content.Encoded?
    && (f.content.items <= Combined(a.queue) || forall x :: x in f.content.items ==> x in a.direct)
  }

  ghost predicate Inv(a: Agent) {
    && a.accepted == a.direct + Combined(a.queue)
    && (forall x :: x in a.direct ==> x in a.delivered)
    && Marshals(a.direct)
    && (a.phase.Reading? || a.phase.Replaying? || a.phase.ClearStart? || a.phase.Clearing? ==> a.queue == [])
    && (forall n :: n in a.buf.files && n !in a.foreign ==>
          Settled(a, a.buf.files[n]) && Marshals(ItemsOf(a.buf.files[n])))
  }

  lemma {:induction false} SettledStays(a: Agent, b: Agent, f: File)
    requires Settled(a, f) && a.direct <= b.direct
    requires Combined(a.queue) <= Combined(b.queue) || (forall x :: x in Combined(a.queue) ==> x in b.direct)
    ensures Settled(b, f)
  {
    if f.content.items <= Combined(a.queue) && !(Combined(a.queue) <= Combined(b.queue)) {
      forall x | x in f.content.items ensures x in b.direct {
        assert x in Combined(a.queue);
      }
    }
  }

  lemma {:induction false} StepKeepsInv(c: Config, a: Agent, act: Action)
    requires Inv(a) && Enabled(a, act)
    ensures Inv(Apply(c, a, act))
  {
    var b := Apply(c, a, act);
    if act.Accept? {
      CombinedConcat(a.queue, [Batch([act.item])]);
      assert Combined([Batch([act.item])]) == [act.item] + Combined([]);
    }
    if act.DirectAck? {
      assert b.direct + [] == b.direct;
    }
    if !act.Crash? {
      forall n | n in b.buf.files && n !in b.foreign
        ensures Settled(b, b.buf.files[n]) && Marshals(ItemsOf(b.buf.files[n]))
      {
        if act.Snapshot? && n == act.name && b.buf != a.buf {
          assert b.buf.files[n].content.items == Combined(b.queue);
        } else {
          SettledStays(a, b, a.buf.files[n]);
        }
      }
    }
  }

  lemma {:induction false} StepsKeepInv(c: Config, a: Agent, acts: seq<Action>, z: Agent)
    requires Inv(a) && Steps(c, a, acts, z)
    ensures Inv(z)
    decreases |acts|
  {
    if acts != [] {
      StepKeepsInv(c, a, acts[0]);
      StepsKeepInv(c, Apply(c, a, acts[0]), acts[1..], z);
    }
  }

  /** Direct-path conservation: in every state of every run, the items this process accepted are
      those it delivered by direct sends followed by those still queued; nothing is lost,
      repeated or reordered. */
  lemma {:induction false} Conservation(c: Config, a: Agent, acts: seq<Action>, z: Agent)
    requires Fresh(a) && Steps(c, a, acts, z)
    ensures z.accepted == z.direct + Combined(z.queue)
    ensures forall x :: x in z.direct ==> x in z.delivered
  {
    StepsKeepInv(c, a, acts, z);
  }

  /** Clear is safe for this process's own snapshots: when flushBuffer replays or clears, every
      own snapshot, read or skipped, holds only items that a direct send already delivered.
      Replaying an own snapshot therefore only ever repeats deliveries. */
  lemma {:induction false} OwnSnapshotsAreDelivered(c: Config, a: Agent, acts: seq<Action>, z: Agent)
    requires Fresh(a) && Steps(c, a, acts, z)
    requires z.phase.Reading? || z.phase.Replaying? || z.phase.ClearStart? || z.phase.Clearing?
    ensures forall n, x :: n in z.buf.files && n !in z.foreign && x in ItemsOf(z.buf.files[n]) ==> x in z.direct
  {
    StepsKeepInv(c, a, acts, z);
    forall n, x | n in z.buf.files && n !in z.foreign && x in ItemsOf(z.buf.files[n]) ensures x in z.direct {
      assert Settled(z, z.buf.files[n]);
    }
  }

  /** No snapshot of this process ever holds an item that cannot be encoded, and none is ever
      delivered directly. */
  lemma {:induction false} OwnSnapshotsEncode(c: Config, a: Agent, acts: seq<Action>, z: Agent)
    requires Fresh(a) && Steps(c, a, acts, z)
    ensures forall n, x :: n in z.buf.files && n !in z.foreign && x in ItemsOf(z.buf.files[n]) ==> x.marshals
    ensures forall x :: x in z.direct ==> x.marshals
  {
    StepsKeepInv(c, a, acts, z);
  }

  /** A Send that does not deliver keeps its item: the queue only grew by it, and nothing was
      delivered directly; a Send that delivers empties the queue and delivers all of it. */
  lemma {:induction false} SendKeepsOrDelivers(s: Store, batchSize: int, maxSize: int, item: Item, env: FlushEnv)
    ensures var o := Send(s, batchSize, maxSize, item, env);
      && o.direct + Combined(o.store.queue) == Combined(s.queue) + [item]
      && (o.result.Sent? <==> o.store.queue == [])
      && (!o.result.Sent? ==> o.direct == [] && o.store.queue == s.queue + [Batch([item])])
  {
    CombinedConcat(s.queue, [Batch([item])]);
    assert Combined([Batch([item])]) == [item] + Combined([]);
    assert Combined(s.queue) + [item] + [] == Combined(s.queue) + [item];
  }

  /** An item that json.Marshal rejects blocks the queue: no later item of the same process is ever
      delivered directly. */
  lemma {:induction false} RejectedItemBlocks(c: Config, a: Agent, acts: seq<Action>, z: Agent, k: nat)
    requires Fresh(a) && Steps(c, a, acts, z)
    requires k < |z.accepted| && !z.accepted[k].marshals
    ensures |z.direct| <= k
    ensures Combined(z.queue) == z.accepted[|z.direct|..]
  {
    StepsKeepInv(c, a, acts, z);
    assert forall i :: 0 <= i < |z.direct| ==> z.direct[i] == z.accepted[i];
  }

  // ----- nothing durable is lost -----

  /** The two things the disk must not do to files of earlier processes: refuse to read one that is
      listed, or take the name of one for a new snapshot. */
  ghost predicate Careful(a: Agent, act: Action) {
    match act
    case Read(unreadable) => unreadable !! a.foreign * a.buf.files.Keys
    case Snapshot(name, _, _, _) => !(name in a.foreign && name in a.buf.files)
    case _ => true
  }

  ghost predicate CarefulSteps(c: Config, a: Agent, acts: seq<Action>, z: Agent)
    decreases |acts|
  {
    if acts == [] then a == z
    else Enabled(a, acts[0]) && Careful(a, acts[0]) && CarefulSteps(c, Apply(c, a, acts[0]), acts[1..], z)
  }

  ghost predicate InTodo(todo: seq<Content>, x: Item) {
    exists i :: 0 <= i < |todo| && todo[i].Encoded? && x in todo[i].items
  }

  /** Everything durable is acknowledged or on disk; while replaying, every item of an earlier
      process's file is acknowledged or still to be replayed; when clearing, it is acknowledged. */
  ghost predicate Safe(a: Agent) {
    && (forall x :: x in a.durable ==> x in a.delivered || OnDisk(a.buf.files, x))
    && (a.phase.Replaying? ==>
          forall n, x :: n in a.buf.files && n in a.foreign && x in ItemsOf(a.buf.files[n]) ==>
            x in a.delivered || InTodo(a.phase.todo, x))
    && (a.phase.ClearStart? || a.phase.Clearing? ==>
          forall n, x :: n in a.buf.files && n in a.foreign && x in ItemsOf(a.buf.files[n]) ==> x in a.delivered)
  }

  lemma {:induction false} TodoTail(todo: seq<Content>, x: Item)
    requires todo != [] && InTodo(todo, x)
    ensures (todo[0].Encoded? && x in todo[0].items) || InTodo(todo[1..], x)
  {
    var i :| 0 <= i < |todo| && todo[i].Encoded? && x in todo[i].items;
    if i > 0 { assert todo[1..][i - 1] == todo[i]; }
  }

  lemma {:induction false} SnapshotKeepsSafe(c: Config, a: Agent, act: Action)
    requires Inv(a) && Safe(a) && Enabled(a, act) && act.Snapshot? && Careful(a, act)
    ensures Safe(Apply(c, a, act))
  {
    var b := Apply(c, a, act);
    if b.buf != a.buf {
      forall x | x in b.durable ensures x in b.delivered || OnDisk(b.buf.files, x) {
        if x in Combined(a.queue) {
          assert x in ItemsOf(b.buf.files[act.name]);
        } else if OnDisk(a.buf.files, x) {
          var n :| n in a.buf.files && x in ItemsOf(a.buf.files[n]);
          if n == act.name {
            assert Settled(a, a.buf.files[n]);
          } else {
            assert x in ItemsOf(b.buf.files[n]);
          }
        }
      }
    }
  }

  lemma {:induction false} ReadKeepsSafe(c: Config, a: Agent, act: Action)
    requires Safe(a) && Enabled(a, act) && act.Read? && Careful(a, act)
    ensures Safe(Apply(c, a, act))
  {
    var batches := ReadableFiles(a.buf.files, act.unreadable);
    ReadableFilesAre(a.buf.files, act.unreadable);
    forall n, x | n in a.buf.files && n in a.foreign && x in ItemsOf(a.buf.files[n]) ensures InTodo(batches, x) {
      assert a.buf.files[n].content in batches;
    }
  }

  lemma {:induction false} ReplayKeepsSafe(c: Config, a: Agent, act: Action)
    requires Safe(a) && Enabled(a, act) && (act.ReplayAck? || act.ReplaySkip?)
    ensures Safe(Apply(c, a, act))
  {
    var b := Apply(c, a, act);
    forall n, x | n in b.buf.files && n in b.foreign && x in ItemsOf(b.buf.files[n])
      ensures x in b.delivered || InTodo(b.phase.todo, x)
    {
      if x !in a.delivered { TodoTail(a.phase.todo, x); }
    }
  }

  lemma {:induction false} RemoveKeepsSafe(c: Config, a: Agent, act: Action)
    requires Inv(a) && Safe(a) && Enabled(a, act) && act.RemoveOk?
    ensures Safe(Apply(c, a, act))
  {
    var b := Apply(c, a, act);
    forall x | x in b.durable ensures x in b.delivered || OnDisk(b.buf.files, x) {
      if OnDisk(a.buf.files, x) {
        var n :| n in a.buf.files && x in ItemsOf(a.buf.files[n]);
        if n !in a.foreign { assert Settled(a, a.buf.files[n]); }
      }
    }
  }

  lemma {:induction false} StepKeepsSafe(c: Config, a: Agent, act: Action)
    requires Inv(a) && Safe(a) && Enabled(a, act) && Careful(a, act)
    ensures Safe(Apply(c, a, act))
  {
    match act
    case Snapshot(_, _, _, _) => SnapshotKeepsSafe(c, a, act);
    case Read(_) => ReadKeepsSafe(c, a, act);
    case ReplayAck => ReplayKeepsSafe(c, a, act);
    case ReplaySkip => ReplayKeepsSafe(c, a, act);
    case RemoveOk => RemoveKeepsSafe(c, a, act);
    case _ =>
  }

  lemma {:induction false} StepsKeepSafe(c: Config, a: Agent, acts: seq<Action>, z: Agent)
    requires Inv(a) && Safe(a) && CarefulSteps(c, a, acts, z)
    ensures Inv(z) && Safe(z)
    decreases |acts|
  {
    if acts != [] {
      StepKeepsInv(c, a, acts[0]);
      StepKeepsSafe(c, a, acts[0]);
      StepsKeepSafe(c, Apply(c, a, acts[0]), acts[1..], z);
    }
  }

  /** At least once, across crashes: in every state of every run, over any number of processes, each
      item of a snapshot whose Write returned nil is acknowledged or still in a buffer file,
      provided files of earlier processes can be read when listed and are not overwritten. */
  lemma {:induction false} AtLeastOnce(c: Config, a: Agent, acts: seq<Action>, z: Agent)
    requires Fresh(a) && CarefulSteps(c, a, acts, z)
    ensures forall x :: x in z.durable ==> x in z.delivered || OnDisk(z.buf.files, x)
  {
    StepsKeepSafe(c, a, acts, z);
  }

  // ----- exactly when flushBuffer loses an item -----

  lemma {:induction false} ReplayAcks(todo: seq<Content>, replies: seq<bool>)
    ensures Replay(todo, replies).finished ==>
              forall x :: x in Replay(todo, replies).acked <==> InTodo(todo, x)
    ensures forall x :: x in Replay(todo, replies).acked ==> InTodo(todo, x)
  {
    if todo != [] {
      ReplayAcks(todo[1..], if todo[0].Encoded? && replies != [] then replies[1..] else replies);
      forall x ensures InTodo(todo, x) <==> ((todo[0].Encoded? && x in todo[0].items) || InTodo(todo[1..], x)) {
        if InTodo(todo, x) { TodoTail(todo, x); }
        if i :| 0 <= i < |todo[1..]| && todo[1..][i].Encoded? && x in todo[1..][i].items {
          assert todo[i + 1] == todo[1..][i];
        }
      }
    }
  }

  lemma {:induction false} ReadableItems(files: Dir, unreadable: set<Name>, x: Item)
    ensures InTodo(ReadableFiles(files, unreadable), x) <==>
            exists n :: n in files && n !in unreadable && x in ItemsOf(files[n])
  {
    var batches := ReadableFiles(files, unreadable);
    ReadableFilesAre(files, unreadable);
    if n :| n in files && n !in unreadable && x in ItemsOf(files[n]) {
      assert files[n].content in batches;
    }
    if i :| 0 <= i < |batches| && batches[i].Encoded? && x in batches[i].items {
      assert batches[i] in batches;
      var n :| n in files && n !in unreadable && files[n].content == batches[i];
      assert x in ItemsOf(files[n]);
    }
  }

  ghost predicate ReachesClear(b: BufferState, env: FlushEnv) {
    var batches := ReadableFiles(b.files, env.unreadable);
    env.readOk && env.clearOk && batches != [] && Replay(batches, env.replies).finished
  }

  /** flushBuffer drops a stored item without sending it exactly when it gets as far as Clear and
      every file that holds the item was skipped by ReadAll and can be removed by Clear. */
  lemma {:induction false} FlushBufferLoss(b: BufferState, env: FlushEnv, x: Item)
    requires OnDisk(b.files, x)
    ensures var f := FlushBuffer(b, env);
      (x !in f.replayed && !OnDisk(f.buf.files, x)) <==>
      (ReachesClear(b, env) &&
       forall n :: n in b.files && x in ItemsOf(b.files[n]) ==> n in env.unreadable && n !in env.stuck)
  {
    var f := FlushBuffer(b, env);
    if ReachesClear(b, env) {
      ReplayAcks(ReadableFiles(b.files, env.unreadable), env.replies);
      ReadableItems(b.files, env.unreadable, x);
      assert forall n :: n in f.buf.files <==> n in b.files && n in env.stuck;
    } else {
      assert f.buf == b;
    }
  }

  // ----- each call is a run of the machine -----

  lemma {:induction false} StepsConcat(c: Config, a: Agent, acts: seq<Action>, m: Agent, more: seq<Action>, z: Agent)
    requires Steps(c, a, acts, m) && Steps(c, m, more, z)
    ensures Steps(c, a, acts + more, z)
    decreases |acts|
  {
    if acts == [] {
      assert acts + more == more;
    } else {
      assert (acts + more)[1..] == acts[1..] + more;
      StepsConcat(c, Apply(c, a, acts[0]), acts[1..], m, more, z);
    }
  }

  lemma {:induction false} StepFirst(c: Config, a: Agent, act: Action, acts: seq<Action>, z: Agent)
    requires Enabled(a, act) && Steps(c, Apply(c, a, act), acts, z)
    ensures Steps(c, a, [act] + acts, z)
  {
    assert ([act] + acts)[1..] == acts;
  }

  lemma {:induction false} ReplaySteps(c: Config, a: Agent, replies: seq<bool>) returns (acts: seq<Action>, z: Agent)
    requires a.phase.Replaying?
    ensures var r := Replay(a.phase.todo, replies);
      && Steps(c, a, acts, z)
      && z == a.(phase := if r.finished then ClearStart else Idle, delivered := a.delivered + ToSet(r.acked))
    decreases |a.phase.todo|
  {
    var todo := a.phase.todo;
    var act, rest := ReplayDone, replies;
    if todo == [] {
      z := Apply(c, a, ReplayDone);
      acts := [];
    } else if todo[0].Garbage? {
      act := ReplaySkip;
      acts, z := ReplaySteps(c, Apply(c, a, act), replies);
    } else if replies == [] || !replies[0] {
      act := ReplayFail;
      z := Apply(c, a, act);
      acts := [];
    } else {
      act := ReplayAck;
      acts, z := ReplaySteps(c, Apply(c, a, act), replies[1..]);
      var r := Replay(todo[1..], replies[1..]);
      assert ToSet(todo[0].items + r.acked) == ToSet(todo[0].items) + ToSet(r.acked);
    }
    StepFirst(c, a, act, acts, z);
    acts := [act] + acts;
  }

  lemma {:induction false} ClearSteps(c: Config, a: Agent, stuck: set<Name>) returns (acts: seq<Action>, z: Agent)
    requires a.phase.Clearing?
    ensures Steps(c, a, acts, z)
    ensures z == a.(phase := Idle, buf := BufferState(RemoveAll(a.buf.files, a.phase.names, stuck), 0))
    decreases |a.phase.names|
  {
    var names := a.phase.names;
    var act := if names == [] then ClearDone else if names[0] in stuck then RemoveFail else RemoveOk;
    if names == [] {
      acts, z := [], Apply(c, a, act);
    } else {
      acts, z := ClearSteps(c, Apply(c, a, act), stuck);
    }
    StepFirst(c, a, act, acts, z);
    acts := [act] + acts;
  }

  /** flushBuffer, as the class runs it, is a run of the machine. */
  lemma {:induction false} FlushBufferSteps(c: Config, a: Agent, env: FlushEnv) returns (acts: seq<Action>, z: Agent)
    requires a.phase.Reading?
    ensures var f := FlushBuffer(a.buf, env);
      Steps(c, a, acts, z) && z == a.(phase := Idle, buf := f.buf, delivered := a.delivered + ToSet(f.replayed))
  {
    var first := if env.readOk then Read(env.unreadable) else ReadFail;
    var b := Apply(c, a, first);
    acts, z := [], b;
    if b.phase.Replaying? {
      acts, z := ReplaySteps(c, b, env.replies);
      if z.phase.ClearStart? {
        var m := z;
        var second := if env.clearOk then ClearList else ClearListFail;
        var d := Apply(c, m, second);
        var more := [];
        z := d;
        if env.clearOk {
          more, z := ClearSteps(c, d, env.stuck);
          ClearsListing(a.buf.files, env.stuck);
        }
        StepFirst(c, m, second, more, z);
        StepsConcat(c, b, acts, m, [second] + more, z);
        acts := acts + ([second] + more);
      }
    }
    StepFirst(c, a, first, acts, z);
    acts := [first] + acts;
  }

  /** flush, as the class runs it, is a run of the machine, with the same effect on the queue, the
      buffer and what has been delivered. */
  lemma {:induction false} FlushIsRun(c: Config, a: Agent, env: FlushEnv) returns (acts: seq<Action>, z: Agent)
    requires a.phase.Sending? && a.queue != []
    ensures var o := Flush(Store(a.queue, a.buf), c.maxSize, env);
      && Steps(c, a, acts, z)
      && z.phase.Idle? && Store(z.queue, z.buf) == o.store
      && z.accepted == a.accepted && z.direct == a.direct + o.direct
      && z.delivered == a.delivered + ToSet(o.direct) + ToSet(o.replayed)
      && z.durable == (if o.result.Kept? then a.durable + ToSet(Combined(a.queue)) else a.durable)
  {
    var data := Combined(a.queue);
    RetryBudget(env.net, Marshals(data), MAX_RETRIES);
    if Retry(env.net, Marshals(data), 0, MAX_RETRIES).result == Delivered {
      var b := Apply(c, a, DirectAck);
      acts, z := FlushBufferSteps(c, b, env);
      StepFirst(c, a, DirectAck, acts, z);
      acts := [DirectAck] + acts;
    } else {
      var b := Apply(c, a, DirectFail);
      var act := Snapshot(BatchName(env.now), env.bytes, env.modTime, env.diskOk);
      z := Apply(c, b, act);
      StepFirst(c, b, act, [], z);
      StepFirst(c, a, DirectFail, [act], z);
      acts := [DirectFail] + [act];
    }
  }

  /** Send, as the class runs it, is a run of the machine. */
  lemma {:induction false} SendIsRun(c: Config, a: Agent, item: Item, env: FlushEnv) returns (acts: seq<Action>, z: Agent)
    requires a.phase.Idle?
    ensures var o := Send(Store(a.queue, a.buf), c.batchSize, c.maxSize, item, env);
      && Steps(c, a, acts, z)
      && z.phase.Idle? && Store(z.queue, z.buf) == o.store
      && z.accepted == a.accepted + [item] && z.direct == a.direct + o.direct
      && z.delivered == a.delivered + ToSet(o.direct) + ToSet(o.replayed)
      && z.durable == (if o.result.Kept? then a.durable + ToSet(Combined(a.queue + [Batch([item])])) else a.durable)
  {
    var b := Apply(c, a, Accept(item));
    acts, z := [], b;
    if b.phase.Sending? {
      acts, z := FlushIsRun(c, b, env);
    }
    StepFirst(c, a, Accept(item), acts, z);
    acts := [Accept(item)] + acts;
  }
}
