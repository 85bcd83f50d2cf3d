/** What a backlog looks like: its growth while the server is unreachable, and its replay order. */
module Backlog {
  import opened FileNames
  import opened BufferSpec
  import opened SenderSpec

  // ----- growth -----

  /** The state after n sends; the i-th sends items(i), answered by envs(i). */
  ghost function SendAll(batchSize: int, maxSize: int, items: nat -> Item, envs: nat -> FlushEnv, n: nat): Store {
    if n == 0 then Store([], BufferState(map[], 0))
    else Send(SendAll(batchSize, maxSize, items, envs, n - 1), batchSize, maxSize, items(n - 1), envs(n - 1)).store
  }

  function FirstItems(items: nat -> Item, n: nat): seq<Item> {
    if n == 0 then [] else FirstItems(items, n - 1) + [items(n - 1)]
  }

  /** Every flush of the run fails to send and manages to write its snapshot under a new name. */
  ghost predicate Offline(batchSize: int, maxSize: int, items: nat -> Item, envs: nat -> FlushEnv, n: nat) {
    n == 0 ||
    (&& Offline(batchSize, maxSize, items, envs, n - 1)
     && FailsAndStores(SendAll(batchSize, maxSize, items, envs, n - 1), batchSize, maxSize, items(n - 1), envs(n - 1)))
  }

  ghost predicate FailsAndStores(s: Store, batchSize: int, maxSize: int, item: Item, env: FlushEnv) {
    var o := Send(s, batchSize, maxSize, item, env);
    (o.result.NotFlushed? || o.result.Kept?) && BatchName(env.now) !in s.buf.files
  }

  /** The number of snapshots after n sends with batch size b, and the data points in them. */
  function Snapshots(n: nat, b: int): nat { if n < b then 0 else n - b + 1 }

  function PointsStored(n: nat, b: int): int
    requires b >= 1
  {
    if n < b then 0 else PointsStored(n - 1, b) + n
  }

  lemma {:induction false} PointsClosedForm(n: nat, b: int)
    requires 1 <= b <= n + 1
    ensures 2 * PointsStored(n, b) == (n - b + 1) * (n + b)
  {
    if n >= b {
      PointsClosedForm(n - 1, b);
      var k := n - b;
      assert (n - b + 1) * (n + b) == k * (n + b) + (n + b);
      assert k * (n + b) == k * (n - 1 + b) + k;
    }
  }

  /** How often x occurs in a snapshot. */
  function CountOf(x: Item): File -> nat {
    (f: File) => multiset(ItemsOf(f))[x]
  }

  /** One failing Send: the item is queued; at the batch size the whole queue becomes one more file. */
  lemma {:induction false} OneMore(s: Store, batchSize: int, maxSize: int, item: Item, env: FlushEnv)
    requires FailsAndStores(s, batchSize, maxSize, item, env)
    ensures var z := Send(s, batchSize, maxSize, item, env).store;
      && |z.queue| == |s.queue| + 1
      && Combined(z.queue) == Combined(s.queue) + [item]
      && |z.buf.files| == |s.buf.files| + (if |z.queue| >= batchSize then 1 else 0)
      && Sum(z.buf.files, Points) ==
           Sum(s.buf.files, Points) + (if |z.queue| >= batchSize then |Combined(s.queue)| + 1 else 0)
  {
    var q := s.queue + [Batch([item])];
    CombinedConcat(s.queue, [Batch([item])]);
    assert Combined([Batch([item])]) == [item] + Combined([]);
    if |q| >= batchSize {
      var f := File(env.bytes, env.modTime, Encoded(Combined(q)));
      SumInsert(s.buf.files, BatchName(env.now), f, Points);
    }
  }

  /** The state after n failing sends: all n items queued and, from the batch size b on, one
      snapshot per send, each repeating the whole queue: n-b+1 files, b + (b+1) + ... + n points. */
  ghost predicate Grown(z: Store, items: seq<Item>, batchSize: nat)
    requires batchSize >= 1
  {
    && |z.queue| == |items| && Combined(z.queue) == items
    && |z.buf.files| == Snapshots(|items|, batchSize)
    && Sum(z.buf.files, Points) == PointsStored(|items|, batchSize)
  }

  lemma {:induction false} GrowsByOne(s: Store, batchSize: nat, maxSize: int, items: seq<Item>, item: Item, env: FlushEnv)
    requires batchSize >= 1 && Grown(s, items, batchSize)
    requires FailsAndStores(s, batchSize, maxSize, item, env)
    ensures Grown(Send(s, batchSize, maxSize, item, env).store, items + [item], batchSize)
  {
    OneMore(s, batchSize, maxSize, item, env);
  }

  /** While every direct send fails and every snapshot is written, the backlog of a process that
      started with nothing grows by a copy of the whole queue with every send. */
  lemma {:induction false} SnapshotGrowth(batchSize: nat, maxSize: int, items: nat -> Item, envs: nat -> FlushEnv, n: nat)
    requires batchSize >= 1 && Offline(batchSize, maxSize, items, envs, n)
    ensures Grown(SendAll(batchSize, maxSize, items, envs, n), FirstItems(items, n), batchSize)
  {
    if n > 0 {
      SnapshotGrowth(batchSize, maxSize, items, envs, n - 1);
      GrowsByOne(SendAll(batchSize, maxSize, items, envs, n - 1), batchSize, maxSize,
                 FirstItems(items, n - 1), items(n - 1), envs(n - 1));
    }
  }

  // ----- what the first successful flush repeats -----

  /** How often x occurs in the snapshots of n failing sends with batch size b. */
  function Copies(items: nat -> Item, n: nat, b: nat, x: Item): nat {
    if n == 0 || n < b then 0 else Copies(items, n - 1, b, x) + multiset(FirstItems(items, n))[x]
  }

  /** One failing Send at the batch size stores one more copy of each queued item. */
  lemma {:induction false} OneMoreCopy(s: Store, batchSize: int, maxSize: int, item: Item, env: FlushEnv, x: Item)
    requires FailsAndStores(s, batchSize, maxSize, item, env)
    ensures var z := Send(s, batchSize, maxSize, item, env).store;
      Sum(z.buf.files, CountOf(x)) ==
        Sum(s.buf.files, CountOf(x)) + (if |z.queue| >= batchSize then multiset(Combined(z.queue))[x] else 0)
  {
    var q := s.queue + [Batch([item])];
    if |q| >= batchSize {
      SumInsert(s.buf.files, BatchName(env.now), File(env.bytes, env.modTime, Encoded(Combined(q))), CountOf(x));
    }
  }

  lemma {:induction false} CopiesGrow(s: Store, batchSize: nat, maxSize: int, items: nat -> Item, n: nat, env: FlushEnv, x: Item)
    requires batchSize >= 1 && n >= 1 && Grown(s, FirstItems(items, n - 1), batchSize)
    requires Sum(s.buf.files, CountOf(x)) == Copies(items, n - 1, batchSize, x)
    requires FailsAndStores(s, batchSize, maxSize, items(n - 1), env)
    ensures Sum(Send(s, batchSize, maxSize, items(n - 1), env).store.buf.files, CountOf(x)) == Copies(items, n, batchSize, x)
  {
    OneMoreCopy(s, batchSize, maxSize, items(n - 1), env, x);
    OneMore(s, batchSize, maxSize, items(n - 1), env);
    FirstLength(items, n - 1);
  }

  lemma {:induction false} FirstLength(items: nat -> Item, n: nat)
    ensures |FirstItems(items, n)| == n
  {
    if n > 0 { FirstLength(items, n - 1); }
  }

  lemma {:induction false} SnapshotCopies(batchSize: nat, maxSize: int, items: nat -> Item, envs: nat -> FlushEnv, n: nat, x: Item)
    requires batchSize >= 1 && Offline(batchSize, maxSize, items, envs, n)
    ensures Sum(SendAll(batchSize, maxSize, items, envs, n).buf.files, CountOf(x)) == Copies(items, n, batchSize, x)
  {
    if n > 0 {
      SnapshotCopies(batchSize, maxSize, items, envs, n - 1, x);
      SnapshotGrowth(batchSize, maxSize, items, envs, n - 1);
      CopiesGrow(SendAll(batchSize, maxSize, items, envs, n - 1), batchSize, maxSize, items, n, envs(n - 1), x);
    }
  }

  ghost predicate AllTrue(replies: seq<bool>) {
    forall i :: 0 <= i < |replies| ==> replies[i]
  }

  /** A replay that is never refused sends every data point of every file once. */
  lemma {:induction false} ReplayTotals(files: Dir, names: seq<Name>, replies: seq<bool>, x: Item)
    requires forall n :: n in names ==> n in files
    requires |replies| >= |names| && AllTrue(replies)
    ensures var r := Replay(Readable(files, names, {}), replies);
      && r.finished
      && |r.acked| == SumOver(files, names, Points)
      && multiset(r.acked)[x] == SumOver(files, names, CountOf(x))
  {
    if names != [] {
      var c := files[names[0]].content;
      var rest := Readable(files, names[1..], {});
      assert Readable(files, names, {}) == [c] + rest;
      assert ([c] + rest)[1..] == rest;
      ReplayTotals(files, names[1..], if c.Encoded? then replies[1..] else replies, x);
    }
  }

  /** Every answer of the environment is the good one. */
  ghost predicate BackOnline(env: FlushEnv, n: nat) {
    env.readOk && env.unreadable == {} && env.clearOk && env.stuck == {} && |env.replies| >= n && AllTrue(env.replies)
  }

  /** flushBuffer then sends every stored data point once and empties the directory. */
  lemma {:induction false} FlushBufferSendsAll(b: BufferState, env: FlushEnv, x: Item)
    requires BackOnline(env, |b.files|)
    ensures var f := FlushBuffer(b, env);
      && f.buf.files == map[] && |f.replayed| == Sum(b.files, Points)
      && multiset(f.replayed)[x] == Sum(b.files, CountOf(x))
  {
    var names := Listing(b.files.Keys);
    ListingIsSorted(b.files.Keys);
    ListingLength(b.files.Keys);
    ReadableInOrder(b.files, names);
    ReplayTotals(b.files, names, env.replies, x);
    SumOverListing(b.files, b.files, Points);
    SumOverListing(b.files, b.files, CountOf(x));
    assert |b.files.Keys| == |b.files|;
    if b.files == map[] {
      assert names == [];
    } else {
      assert Least(b.files.Keys) in names;
      assert b.files - (b.files.Keys - {}) == map[];
    }
  }

  /** After n offline sends, the first flush that works delivers the n items directly and then every
      snapshot again: n + b + (b+1) + ... + n data points for n items, each item once more for every
      snapshot it is in.  It leaves the queue and the directory empty. */
  lemma {:induction false} FirstFlushRepeats(batchSize: nat, maxSize: int, items: nat -> Item, envs: nat -> FlushEnv, n: nat, env: FlushEnv, x: Item)
    requires batchSize >= 1 && n >= 1 && Offline(batchSize, maxSize, items, envs, n)
    requires Retry(env.net, Marshals(FirstItems(items, n)), 0, MAX_RETRIES).result == Delivered && BackOnline(env, n)
    ensures var o := Flush(SendAll(batchSize, maxSize, items, envs, n), maxSize, env);
      && o.result.Sent? && o.direct == FirstItems(items, n)
      && |o.direct| + |o.replayed| == n + PointsStored(n, batchSize)
      && multiset(o.direct)[x] + multiset(o.replayed)[x] ==
           multiset(FirstItems(items, n))[x] + Copies(items, n, batchSize, x)
      && o.store.queue == [] && o.store.buf.files == map[]
  {
    SnapshotGrowth(batchSize, maxSize, items, envs, n);
    SnapshotCopies(batchSize, maxSize, items, envs, n, x);
    FirstLength(items, n);
    WorkingFlush(SendAll(batchSize, maxSize, items, envs, n), batchSize, maxSize, FirstItems(items, n), env, x);
  }

  lemma {:induction false} WorkingFlush(z: Store, batchSize: nat, maxSize: int, items: seq<Item>, env: FlushEnv, x: Item)
    requires batchSize >= 1 && items != [] && Grown(z, items, batchSize)
    requires Retry(env.net, Marshals(items), 0, MAX_RETRIES).result == Delivered && BackOnline(env, |items|)
    ensures var o := Flush(z, maxSize, env);
      && o.result.Sent? && o.direct == items && o.store.queue == [] && o.store.buf.files == map[]
      && |o.replayed| == PointsStored(|items|, batchSize)
      && multiset(o.replayed)[x] == Sum(z.buf.files, CountOf(x))
  {
    FlushBufferSendsAll(z.buf, env, x);
  }

  lemma {:induction false} CountInFirst(items: nat -> Item, n: nat, k: nat, i: nat)
    requires k <= n && i < n
    requires forall p: nat, q: nat :: p < q < n ==> items(p) != items(q)
    ensures multiset(FirstItems(items, k))[items(i)] == if i < k then 1 else 0
    decreases k
  {
    if k > 0 {
      CountInFirst(items, n, k - 1, i);
      assert i != k - 1 ==> items(i) != items(k - 1);
    }
  }

  /** When the items differ, the i-th of them is in n - max(b, i+1) + 1 snapshots, so the first
      flush that works delivers it that many times more than once. */
  lemma {:induction false} CopiesOfOneItem(items: nat -> Item, n: nat, k: nat, b: nat, i: nat)
    requires b >= 1 && k <= n && i < n
    requires forall p: nat, q: nat :: p < q < n ==> items(p) != items(q)
    ensures var first := if b < i + 1 then i + 1 else b;
      Copies(items, k, b, items(i)) == if k < first then 0 else k - first + 1
    decreases k
  {
    if k > 0 {
      CopiesOfOneItem(items, n, k - 1, b, i);
      CountInFirst(items, n, k, i);
    }
  }

  /** So in an outage of n sends of different items the i-th item (from 0) is delivered once by the
      direct send and once for each of the n - max(b, i+1) + 1 snapshots that hold it. */
  lemma {:induction false} DeliveriesPerItem(batchSize: nat, maxSize: int, items: nat -> Item, envs: nat -> FlushEnv, n: nat, env: FlushEnv, i: nat)
    requires batchSize >= 1 && i < n && Offline(batchSize, maxSize, items, envs, n)
    requires Retry(env.net, Marshals(FirstItems(items, n)), 0, MAX_RETRIES).result == Delivered && BackOnline(env, n)
    requires forall p: nat, q: nat :: p < q < n ==> items(p) != items(q)
    ensures var o := Flush(SendAll(batchSize, maxSize, items, envs, n), maxSize, env);
      var first := if batchSize < i + 1 then i + 1 else batchSize;
      multiset(o.direct)[items(i)] + multiset(o.replayed)[items(i)] == 1 + (if n < first then 0 else n - first + 1)
  {
    FirstFlushRepeats(batchSize, maxSize, items, envs, n, env, items(i));
    CountInFirst(items, n, n, i);
    CopiesOfOneItem(items, n, n, batchSize, i);
  }

  // ----- replay order -----

  lemma {:induction false} ReadableInOrder(files: Dir, names: seq<Name>)
    requires forall x :: x in names ==> x in files
    ensures |Readable(files, names, {})| == |names|
    ensures forall i :: 0 <= i < |names| ==> Readable(files, names, {})[i] == files[names[i]].content
  {
    if names != [] {
      ReadableInOrder(files, names[1..]);
    }
  }

  /** The snapshots come back in the order of the clock readings they were taken at. */
  ghost predicate ReplaysInOrder(files: Dir, clock: seq<nat>)
    requires forall x :: x in BatchNames(clock) ==> x in files
  {
    && |ReadableFiles(files, {})| == |clock|
    && forall i :: 0 <= i < |clock| ==> ReadableFiles(files, {})[i] == files[BatchNames(clock)[i]].content
  }

  /** First in, first out: if the buffer holds exactly the snapshots taken at increasing clock
      readings and the names of these agree with the clock, ReadAll, and so the replay, yields them
      in the order they were written. */
  lemma {:induction false} ReplayOldestFirst(files: Dir, clock: seq<nat>)
    requires Increasing(clock) && AllNamesAgree(clock)
    requires forall x :: x in files <==> x in BatchNames(clock)
    ensures ReplaysInOrder(files, clock)
  {
    ListingIsWriteOrder(clock, files.Keys);
    ReadableInOrder(files, BatchNames(clock));
  }

  ghost predicate DistinctContents(files: Dir) {
    forall m, n :: m in files && n in files && m != n ==> files[m].content != files[n].content
  }

  /** And only then, when no two snapshots are alike. */
  lemma {:induction false} ReplayOldestFirstExactly(files: Dir, clock: seq<nat>)
    requires Increasing(clock) && DistinctContents(files)
    requires forall x :: x in files <==> x in BatchNames(clock)
    ensures ReplaysInOrder(files, clock) <==> AllNamesAgree(clock)
  {
    if AllNamesAgree(clock) {
      ReplayOldestFirst(files, clock);
    } else if ReplaysInOrder(files, clock) {
      var names, list := BatchNames(clock), Listing(files.Keys);
      ListingIsSorted(files.Keys);
      ReadableInOrder(files, list);
      forall i | 0 <= i < |names| ensures list[i] == names[i] {
        assert names[i] in names && list[i] in files;
        assert files[list[i]].content == files[names[i]].content;
      }
      assert list == names;
      ListingIsWriteOrder(clock, files.Keys);
    }
  }
}
