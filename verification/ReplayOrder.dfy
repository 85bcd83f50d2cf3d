/** The order of replayed data: within one flushBuffer, and over a whole outage. */
module ReplayOrder {
  import opened FileNames
  import opened BufferSpec
  import opened SenderSpec
  import opened SenderLaws
  import opened Backlog

  // ----- one flushBuffer -----

  /** The data of the named files, one file after the other. */
  function FileByFile(files: Dir, names: seq<Name>): seq<Item>
    requires forall x :: x in names ==> x in files
  {
    if names == [] then [] else ItemsOf(files[names[0]]) + FileByFile(files, names[1..])
  }

  lemma {:induction false} ItemsFileByFile(files: Dir, names: seq<Name>)
    requires forall x :: x in names ==> x in files
    ensures ItemsIn(Readable(files, names, {})) == FileByFile(files, names)
    ensures |Readable(files, names, {})| == |names|
  {
    if names != [] {
      var rest := Readable(files, names[1..], {});
      assert Readable(files, names, {}) == [files[names[0]].content] + rest;
      assert ([files[names[0]].content] + rest)[1..] == rest;
      ItemsFileByFile(files, names[1..]);
    }
  }

  lemma {:induction false} RequestsAtMost(todo: seq<Content>)
    ensures Requests(todo) <= |todo|
  {
    if todo != [] { RequestsAtMost(todo[1..]); }
  }

  /** A replay in which nothing is refused sends everything, in listing order. */
  lemma {:induction false} AllReplayed(b: BufferState, env: FlushEnv)
    requires env.readOk && env.unreadable == {} && AllAccepted(env.replies, |ReadableFiles(b.files, {})|)
    ensures FlushBuffer(b, env).replayed == ItemsIn(ReadableFiles(b.files, {}))
  {
    var batches := ReadableFiles(b.files, {});
    assert b.files - {} == b.files;
    var k := FlushBufferExactly(b, env);
    RequestsAtMost(batches[..k]);
    assert batches[..|batches|] == batches;
  }

  /** First in, first out, down to the data points: when the names agree with the clock, every file
      can be read and every request is accepted, flushBuffer sends the snapshots one after the other
      in the order they were taken. */
  lemma {:induction false} FlushBufferOldestFirst(b: BufferState, clock: seq<nat>, env: FlushEnv)
    requires Increasing(clock) && AllNamesAgree(clock)
    requires forall x :: x in b.files <==> x in BatchNames(clock)
    requires env.readOk && env.unreadable == {} && AllAccepted(env.replies, |clock|)
    ensures FlushBuffer(b, env).replayed == FileByFile(b.files, BatchNames(clock))
  {
    ListingIsWriteOrder(clock, b.files.Keys);
    ItemsFileByFile(b.files, BatchNames(clock));
    AllReplayed(b, env);
  }

  // ----- a whole outage -----

  /** The clock readings of the snapshots of n failing sends with batch size b. */
  function Clock(envs: nat -> FlushEnv, b: nat, n: nat): seq<nat> {
    if n == 0 || n < b then [] else Clock(envs, b, n - 1) + [envs(n - 1).now]
  }

  lemma {:induction false} ClockLength(envs: nat -> FlushEnv, b: nat, n: nat)
    requires b >= 1
    ensures |Clock(envs, b, n)| == Snapshots(n, b)
  {
    if n >= b { ClockLength(envs, b, n - 1); }
  }

  lemma {:induction false} NamesSnoc(clock: seq<nat>, t: nat)
    ensures BatchNames(clock + [t]) == BatchNames(clock) + [BatchName(t)]
  {
    var more := clock + [t];
    assert |BatchNames(more)| == |BatchNames(clock) + [BatchName(t)]|;
    forall i | 0 <= i < |more| ensures BatchNames(more)[i] == (BatchNames(clock) + [BatchName(t)])[i] {
      assert i < |clock| ==> more[i] == clock[i];
    }
  }

  lemma {:induction false} ClockNames(envs: nat -> FlushEnv, b: nat, n: nat)
    requires b >= 1 && n >= 1
    ensures var names := BatchNames(Clock(envs, b, n - 1));
      && |names| == Snapshots(n - 1, b)
      && BatchNames(Clock(envs, b, n)) == (if n < b then names else names + [BatchName(envs(n - 1).now)])
  {
    ClockLength(envs, b, n - 1);
    if n >= b { NamesSnoc(Clock(envs, b, n - 1), envs(n - 1).now); }
  }

  /** File i holds the first b+i items, and there are no other files. */
  ghost predicate HoldsPrefixes(files: Dir, items: nat -> Item, names: seq<Name>, b: nat) {
    && (forall x :: x in files <==> x in names)
    && HaveGrowing(files, items, names, b)
  }

  ghost predicate HaveGrowing(files: Dir, items: nat -> Item, names: seq<Name>, b: nat) {
    forall i :: 0 <= i < |names| ==> names[i] in files && files[names[i]].content == Encoded(FirstItems(items, b + i))
  }

  lemma {:induction false} AddsPrefix(files: Dir, items: nat -> Item, names: seq<Name>, b: nat, name: Name, f: File)
    requires HoldsPrefixes(files, items, names, b) && name !in files
    requires f.content == Encoded(FirstItems(items, b + |names|))
    ensures HoldsPrefixes(files[name := f], items, names + [name], b)
  {
  }

  /** The file that one failing Send adds. */
  lemma {:induction false} AddsOneFile(s: Store, batchSize: nat, maxSize: int, item: Item, env: FlushEnv, all: seq<Item>)
    requires FailsAndStores(s, batchSize, maxSize, item, env)
    requires Combined(s.queue + [Batch([item])]) == all
    ensures Send(s, batchSize, maxSize, item, env).store.buf.files ==
            if |s.queue| + 1 < batchSize then s.buf.files
            else s.buf.files[BatchName(env.now) := File(env.bytes, env.modTime, Encoded(all))]
  {
  }

  lemma {:induction false} OneMorePrefix(s: Store, batchSize: nat, maxSize: int, items: nat -> Item, names: seq<Name>, n: nat, env: FlushEnv)
    requires batchSize >= 1 && n >= 1 && |names| == Snapshots(n - 1, batchSize)
    requires |s.queue| == n - 1 && Combined(s.queue) == FirstItems(items, n - 1)
    requires HoldsPrefixes(s.buf.files, items, names, batchSize)
    requires FailsAndStores(s, batchSize, maxSize, items(n - 1), env)
    ensures HoldsPrefixes(Send(s, batchSize, maxSize, items(n - 1), env).store.buf.files, items,
                          if n < batchSize then names else names + [BatchName(env.now)], batchSize)
  {
    CombinedConcat(s.queue, [Batch([items(n - 1)])]);
    assert Combined([Batch([items(n - 1)])]) == [items(n - 1)] + Combined([]);
    AddsOneFile(s, batchSize, maxSize, items(n - 1), env, FirstItems(items, n));
    if n >= batchSize {
      AddsPrefix(s.buf.files, items, names, batchSize, BatchName(env.now),
                 File(env.bytes, env.modTime, Encoded(FirstItems(items, n))));
    }
  }

  /** All snapshots of n failing sends. */
  ghost predicate HoldsAllPrefixes(s: Store, items: nat -> Item, envs: nat -> FlushEnv, b: nat, n: nat) {
    HoldsPrefixes(s.buf.files, items, BatchNames(Clock(envs, b, n)), b)
  }

  lemma {:induction false} OneMoreSnapshot(s: Store, z: Store, batchSize: nat, maxSize: int, items: nat -> Item, envs: nat -> FlushEnv, n: nat)
    requires batchSize >= 1 && n >= 1 && Grown(s, FirstItems(items, n - 1), batchSize)
    requires HoldsAllPrefixes(s, items, envs, batchSize, n - 1)
    requires FailsAndStores(s, batchSize, maxSize, items(n - 1), envs(n - 1))
    requires z == Send(s, batchSize, maxSize, items(n - 1), envs(n - 1)).store
    ensures HoldsAllPrefixes(z, items, envs, batchSize, n)
  {
    FirstLength(items, n - 1);
    ClockNames(envs, batchSize, n);
    OneMorePrefix(s, batchSize, maxSize, items, BatchNames(Clock(envs, batchSize, n - 1)), n, envs(n - 1));
  }

  lemma {:induction false} SnapshotContents(batchSize: nat, maxSize: int, items: nat -> Item, envs: nat -> FlushEnv, n: nat)
    requires batchSize >= 1 && Offline(batchSize, maxSize, items, envs, n)
    ensures HoldsAllPrefixes(SendAll(batchSize, maxSize, items, envs, n), items, envs, batchSize, n)
  {
    if n > 0 {
      var s := SendAll(batchSize, maxSize, items, envs, n - 1);
      SnapshotContents(batchSize, maxSize, items, envs, n - 1);
      SnapshotGrowth(batchSize, maxSize, items, envs, n - 1);
      OneMoreSnapshot(s, SendAll(batchSize, maxSize, items, envs, n), batchSize, maxSize, items, envs, n);
    }
  }

  /** The first k items, then the first k+1, and so on up to the first n. */
  function Prefixes(items: nat -> Item, k: nat, n: int): seq<Item>
    decreases n + 1 - k
  {
    if k > n then [] else FirstItems(items, k) + Prefixes(items, k + 1, n)
  }

  lemma {:induction false} GrowingTail(files: Dir, items: nat -> Item, names: seq<Name>, b: nat)
    requires names != [] && HaveGrowing(files, items, names, b)
    ensures names[0] in files && ItemsOf(files[names[0]]) == FirstItems(items, b)
    ensures HaveGrowing(files, items, names[1..], b + 1)
  {
    assert files[names[0]].content == Encoded(FirstItems(items, b + 0));
    forall i | 0 <= i < |names[1..]|
      ensures names[1..][i] in files && files[names[1..][i]].content == Encoded(FirstItems(items, b + 1 + i))
    {
      var j := i + 1;
      assert names[1..][i] == names[j] && b + j == b + 1 + i;
    }
  }

  lemma {:induction false} PrefixesInOrder(files: Dir, items: nat -> Item, names: seq<Name>, b: nat)
    requires HaveGrowing(files, items, names, b) && forall x :: x in names ==> x in files
    ensures FileByFile(files, names) == Prefixes(items, b, b + |names| - 1)
  {
    if names == [] {
      assert Prefixes(items, b, b - 1) == [];
    } else {
      GrowingTail(files, items, names, b);
      PrefixesInOrder(files, items, names[1..], b + 1);
      var n := b + |names| - 1;
      assert Prefixes(items, b, n) == FirstItems(items, b) + Prefixes(items, b + 1, n);
    }
  }

  lemma {:induction false} ReplaysPrefixes(b: BufferState, items: nat -> Item, clock: seq<nat>, names: seq<Name>, from: nat, env: FlushEnv)
    requires names == BatchNames(clock) && Increasing(clock) && AllNamesAgree(clock)
    requires HoldsPrefixes(b.files, items, names, from)
    requires env.readOk && env.unreadable == {} && AllAccepted(env.replies, |clock|)
    ensures FlushBuffer(b, env).replayed == Prefixes(items, from, from + |names| - 1)
  {
    FlushBufferOldestFirst(b, clock, env);
    PrefixesInOrder(b.files, items, names, from);
  }

  /** An outage from its first Send to the flush that ends it, to the last data point: when the
      snapshot names agree with the clock, that flush sends the n items directly, then the first b
      of them again, then the first b+1, and so on up to all n. */
  lemma {:induction false} OutageEndsInOrder(batchSize: nat, maxSize: int, items: nat -> Item, envs: nat -> FlushEnv,
                                             n: nat, env: FlushEnv)
    requires batchSize >= 1 && n >= 1 && Offline(batchSize, maxSize, items, envs, n)
    requires Increasing(Clock(envs, batchSize, n)) && AllNamesAgree(Clock(envs, batchSize, n))
    requires GoesThrough(FirstItems(items, n), env.net) && BackOnline(env, n)
    ensures var o := Flush(SendAll(batchSize, maxSize, items, envs, n), maxSize, env);
      o.direct == FirstItems(items, n) && o.replayed == Prefixes(items, batchSize, n)
  {
    var s := SendAll(batchSize, maxSize, items, envs, n);
    SnapshotGrowth(batchSize, maxSize, items, envs, n);
    SnapshotContents(batchSize, maxSize, items, envs, n);
    FirstLength(items, n);
    ClockLength(envs, batchSize, n);
    var clock := Clock(envs, batchSize, n);
    EndsInOrder(s, batchSize, maxSize, items, clock, BatchNames(clock), n, env);
  }

  lemma {:induction false} EndsInOrder(s: Store, b: nat, maxSize: int, items: nat -> Item, clock: seq<nat>, names: seq<Name>, n: nat,
                    env: FlushEnv)
    requires b >= 1 && |s.queue| == n && n >= 1 && Combined(s.queue) == FirstItems(items, n)
    requires |names| == Snapshots(n, b) && HoldsPrefixes(s.buf.files, items, names, b)
    requires names == BatchNames(clock) && Increasing(clock) && AllNamesAgree(clock)
    requires GoesThrough(FirstItems(items, n), env.net) && BackOnline(env, n)
    ensures var o := Flush(s, maxSize, env); o.direct == FirstItems(items, n) && o.replayed == Prefixes(items, b, n)
  {
    ReplaysPrefixes(s.buf, items, clock, names, b, env);
    EndsWith(s, maxSize, FirstItems(items, n), env);
    if n < b { assert Prefixes(items, b, b - 1) == [] == Prefixes(items, b, n); }
  }

  lemma {:induction false} EndsWith(s: Store, maxSize: int, data: seq<Item>, env: FlushEnv)
    requires s.queue != [] && Combined(s.queue) == data && GoesThrough(data, env.net)
    ensures var o := Flush(s, maxSize, env); o.direct == data && o.replayed == FlushBuffer(s.buf, env).replayed
  {
    FlushExactly(s, maxSize, env);
  }
}
