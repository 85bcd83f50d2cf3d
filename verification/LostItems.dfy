/** The two conditions of at-least-once delivery are needed: how an item that reached the disk can
    still be lost, in general and in two complete runs. */
module LostItems {
  import opened FileNames
  import opened BufferSpec
  import opened SenderSpec
  import opened StoreAndForward

  /** x reached the disk once, was never acknowledged, and is gone. */
  ghost predicate Lost(a: Agent, x: Item) {
    x in a.durable && x !in a.delivered && !OnDisk(a.buf.files, x)
  }

  /** Reading: whenever a Send gets through to Clear while every file holding an undelivered
      durable item x is unreadable and removable, x is lost. */
  lemma {:induction false} SkippedFilesAreLost(c: Config, a: Agent, item: Item, env: FlushEnv, x: Item)
    returns (acts: seq<Action>, z: Agent)
    requires a.phase.Idle? && OnDisk(a.buf.files, x) && x !in a.delivered
    requires var o := Send(Store(a.queue, a.buf), c.batchSize, c.maxSize, item, env); o.result.Sent? && x !in o.direct
    requires ReachesClear(a.buf, env)
    requires forall n :: n in a.buf.files && x in ItemsOf(a.buf.files[n]) ==> n in env.unreadable && n !in env.stuck
    ensures Steps(c, a, acts, z)
    ensures x !in z.delivered && !OnDisk(z.buf.files, x) && z.durable == a.durable
    ensures x in a.durable ==> Lost(z, x)
  {
    acts, z := SendIsRun(c, a, item, env);
    FlushBufferLoss(a.buf, env, x);
  }

  /** Naming: a snapshot that takes the name of the only file holding an undelivered durable item x,
      and does not hold x itself, loses x. */
  lemma {:induction false} TakenNamesAreLost(c: Config, a: Agent, act: Action, x: Item)
    requires Enabled(a, act) && act.Snapshot? && x in a.durable && x !in a.delivered
    requires x !in Combined(a.queue)
    requires forall n :: n in a.buf.files && x in ItemsOf(a.buf.files[n]) ==> n == act.name
    requires WriteOutcome(a.buf, c.maxSize, Combined(a.queue), act.bytes, act.diskOk) == Stored
    ensures Lost(Apply(c, a, act), x)
  {
    var z := Apply(c, a, act);
    assert forall n :: n in z.buf.files && n != act.name ==> n in a.buf.files && z.buf.files[n] == a.buf.files[n];
  }

  // Two complete runs from a machine with nothing on it, with batch size 1.

  const BLANK := Agent([], BufferState(map[], 0), Idle, [], [], {}, {}, {})
  const EAGER := Config(1, 0)
  const X := Item(0, true)
  const Y := Item(1, true)
  const W := Item(2, true)

  /** A flush whose direct send fails and whose snapshot is written at clock reading t. */
  function Fails(t: nat): FlushEnv {
    FlushEnv([], 0, t, 0, true, true, {}, [], true, {})
  }

  lemma {:induction false} FailsKeeps(s: Store, item: Item, t: nat)
    requires s.buf.size == 0 && Marshals(Combined(s.queue + [Batch([item])]))
    ensures var o := Send(s, 1, 0, item, Fails(t)); var q := s.queue + [Batch([item])];
      && o.result.Kept? && o.direct == [] && o.replayed == []
      && o.store == Store(q, BufferState(s.buf.files[BatchName(t) := File(0, 0, Encoded(Combined(q)))], 0))
  {
    RetryBudget([], true, MAX_RETRIES);
  }

  lemma {:induction false} CombinedOne(item: Item)
    ensures Combined([] + [Batch([item])]) == [item]
  {
    assert [] + [Batch([item])] == [Batch([item])];
    assert Combined([Batch([item])]) == [item] + Combined([]);
  }

  /** A process with an empty queue accepts an item, cannot send it, and snapshots it. */
  lemma {:induction false} AcceptsAndFails(a: Agent, item: Item, t: nat) returns (acts: seq<Action>, z: Agent)
    requires a.phase.Idle? && a.queue == [] && a.buf.size == 0 && item.marshals
    ensures Steps(EAGER, a, acts, z) && z.phase.Idle?
    ensures z.queue == [Batch([item])] && z.buf == BufferState(a.buf.files[BatchName(t) := File(0, 0, Encoded([item]))], 0)
    ensures z.delivered == a.delivered && z.durable == a.durable + {item}
  {
    CombinedOne(item);
    FailsKeeps(Store([], a.buf), item, t);
    acts, z := SendIsRun(EAGER, a, item, Fails(t));
    assert ToSet([item]) == {item} && ToSet([]) == {};
  }

  /** A process accepts X, cannot send it, snapshots it at clock reading 1, and crashes. */
  lemma {:induction false} FirstProcess() returns (acts: seq<Action>, a: Agent)
    ensures Steps(EAGER, BLANK, acts, a)
    ensures var files := map[BatchName(1) := File(0, 0, Encoded([X]))];
      a == Agent([], BufferState(files, 0), Idle, [], [], {}, {X}, files.Keys)
  {
    var first, m := AcceptsAndFails(BLANK, X, 1);
    SumInsert(map[], BatchName(1), File(0, 0, Encoded([X])), Bytes);
    a := Apply(EAGER, m, Crash(true));
    StepFirst(EAGER, m, Crash(true), [], a);
    StepsConcat(EAGER, BLANK, first, m, [Crash(true)] + [], a);
    acts := first + ([Crash(true)] + []);
  }

  /** The next process takes the same clock reading: X is lost. */
  lemma {:induction false} LostToATakenName() returns (acts: seq<Action>, z: Agent)
    ensures Fresh(BLANK) && Steps(EAGER, BLANK, acts, z) && Lost(z, X)
  {
    var first, a := FirstProcess();
    var second;
    second, z := AcceptsAndFails(a, Y, 1);
    StepsConcat(EAGER, BLANK, first, a, second, z);
    acts := first + second;
  }

  /** The next process takes a later reading instead: two files. */
  lemma {:induction false} SecondProcess() returns (acts: seq<Action>, b: Agent)
    ensures Steps(EAGER, BLANK, acts, b)
    ensures b.phase.Idle? && b.queue == [Batch([Y])] && b.delivered == {} && X in b.durable
    ensures BatchName(1) != BatchName(2) && b.buf.size == 0
    ensures b.buf.files == map[BatchName(1) := File(0, 0, Encoded([X])), BatchName(2) := File(0, 0, Encoded([Y]))]
  {
    var first, a := FirstProcess();
    BatchNameInjective(1, 2);
    var second;
    second, b := AcceptsAndFails(a, Y, 2);
    StepsConcat(EAGER, BLANK, first, a, second, b);
    acts := first + second;
  }

  /** The first file cannot be read, the rest gets through: X is lost. */
  lemma {:induction false} LostToAnUnreadableFile() returns (acts: seq<Action>, z: Agent)
    ensures Fresh(BLANK) && Steps(EAGER, BLANK, acts, z) && Lost(z, X)
  {
    var before, b := SecondProcess();
    var env := SkipsFirstFile(b);
    assert X in ItemsOf(b.buf.files[BatchName(1)]);
    WorkingSend(b, env);
    var last;
    last, z := SkippedFilesAreLost(EAGER, b, W, env, X);
    StepsConcat(EAGER, BLANK, before, b, last, z);
    acts := before + last;
  }

  lemma {:induction false} SkipsFirstFile(b: Agent) returns (env: FlushEnv)
    requires BatchName(2) in b.buf.files && BatchName(1) != BatchName(2)
    ensures env.net == [Attempt(false, true)] && env.unreadable == {BatchName(1)} && env.stuck == {}
    ensures ReachesClear(b.buf, env)
  {
    var unreadable := {BatchName(1)};
    var batches := ReadableFiles(b.buf.files, unreadable);
    env := FlushEnv([Attempt(false, true)], 0, 3, 0, true, true, unreadable, seq(|batches|, _ => true), true, {});
    ReadableFilesAre(b.buf.files, unreadable);
    assert b.buf.files[BatchName(2)].content in batches;
    ReplayFinishes(batches, env.replies);
  }

  lemma {:induction false} ReplayFinishes(todo: seq<Content>, replies: seq<bool>)
    requires |replies| >= |todo| && forall i :: 0 <= i < |replies| ==> replies[i]
    ensures Replay(todo, replies).finished
  {
    if todo != [] {
      ReplayFinishes(todo[1..], if todo[0].Encoded? then replies[1..] else replies);
    }
  }

  lemma {:induction false} WorkingSend(b: Agent, env: FlushEnv)
    requires b.queue == [Batch([Y])] && env.net == [Attempt(false, true)]
    ensures var o := Send(Store(b.queue, b.buf), EAGER.batchSize, EAGER.maxSize, W, env);
      o.result.Sent? && o.direct == [Y, W]
  {
    var q := b.queue + [Batch([W])];
    CombinedConcat(b.queue, [Batch([W])]);
    assert Combined([Batch([W])]) == [W] + Combined([]) && Combined([Batch([Y])]) == [Y] + Combined([]);
    assert Combined(q) == [Y, W];
  }
}
