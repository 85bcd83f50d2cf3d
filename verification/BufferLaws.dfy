/** What Prune achieves, and what the size account means over whole runs. */
module BufferLaws {
  import opened FileNames
  import opened BufferSpec

  // ----- Prune -----

  /** Removal of every file of `order` that is not stuck, without looking at the limit. */
  function Drop(b: BufferState, order: seq<FileInfo>, stuck: set<Name>): BufferState
    decreases |order|
  {
    if order == [] then b
    else if order[0].name in stuck then Drop(b, order[1..], stuck)
    else Drop(BufferState(b.files - {order[0].name}, b.size - order[0].size), order[1..], stuck)
  }

  lemma {:induction false} DropSnoc(b: BufferState, order: seq<FileInfo>, last: FileInfo, stuck: set<Name>)
    ensures var d := Drop(b, order, stuck);
            Drop(b, order + [last], stuck) ==
            if last.name in stuck then d else BufferState(d.files - {last.name}, d.size - last.size)
    decreases |order|
  {
    if order == [] {
      assert [] + [last] == [last];
    } else {
      assert (order + [last])[1..] == order[1..] + [last];
      if order[0].name in stuck {
        DropSnoc(b, order[1..], last, stuck);
      } else {
        DropSnoc(BufferState(b.files - {order[0].name}, b.size - order[0].size), order[1..], last, stuck);
      }
    }
  }

  /** The loop takes the shortest prefix that brings the account within the limit. */
  lemma {:induction false} EvictIsPrefix(b: BufferState, maxSize: int, order: seq<FileInfo>, stuck: set<Name>)
    returns (k: nat)
    ensures k <= |order|
    ensures Evict(b, maxSize, order, stuck) == Drop(b, order[..k], stuck)
    ensures k == |order| || Drop(b, order[..k], stuck).size <= maxSize
    ensures forall j :: 0 <= j < k ==> Drop(b, order[..j], stuck).size > maxSize
    decreases |order|
  {
    if order == [] || b.size <= maxSize {
      return 0;
    }
    var c := if order[0].name in stuck then b else BufferState(b.files - {order[0].name}, b.size - order[0].size);
    var m := EvictIsPrefix(c, maxSize, order[1..], stuck);
    k := m + 1;
    forall j | 0 < j <= k ensures Drop(b, order[..j], stuck) == Drop(c, order[1..][..j - 1], stuck) {
      assert order[..j][1..] == order[1..][..j - 1];
    }
  }

  /** `n` is among the first k catalogued files and can be removed. */
  ghost predicate Taken(order: seq<FileInfo>, stuck: set<Name>, k: nat, n: Name)
    requires k <= |order|
  {
    n !in stuck && exists i :: 0 <= i < k && order[i].name == n
  }

  /** Dropping the first k catalogued files removes exactly the removable ones among them and
      charges exactly their sizes. */
  lemma {:induction false} DropEffect(b: BufferState, order: seq<FileInfo>, noInfo: set<Name>, stuck: set<Name>, k: nat)
    requires Catalogues(order, b.files, noInfo) && k <= |order|
    ensures var d := Drop(b, order[..k], stuck);
      && d.files.Keys <= b.files.Keys
      && d.files == b.files - (b.files.Keys - d.files.Keys)
      && (forall n :: n in b.files ==> (n !in d.files <==> Taken(order, stuck, k, n)))
      && b.size - d.size == Sum(b.files, Bytes) - Sum(d.files, Bytes)
    decreases k
  {
    if k > 0 {
      var last := order[k - 1];
      assert order[..k] == order[..k - 1] + [last];
      DropEffect(b, order, noInfo, stuck, k - 1);
      DropSnoc(b, order[..k - 1], last, stuck);
      var d := Drop(b, order[..k - 1], stuck);
      assert forall n :: Taken(order, stuck, k, n) <==> Taken(order, stuck, k - 1, n) || (n == last.name && n !in stuck);
      if last.name !in stuck {
        assert last.name in d.files && d.files[last.name] == b.files[last.name];
        SumRemove(d.files, last.name, Bytes);
      }
    }
  }

  /** What the removal loop leaves: it takes the removable files among the first k. */
  lemma {:induction false} EvictTakes(b: BufferState, maxSize: int, order: seq<FileInfo>, noInfo: set<Name>, stuck: set<Name>)
    returns (k: nat)
    requires Catalogues(order, b.files, noInfo)
    ensures k <= |order|
    ensures var c := Evict(b, maxSize, order, stuck);
      && c == Drop(b, order[..k], stuck)
      && b.size - c.size == Sum(b.files, Bytes) - Sum(c.files, Bytes)
      && c.files.Keys <= b.files.Keys
      && c.files == b.files - (b.files.Keys - c.files.Keys)
      && (forall n :: n in b.files ==> (n !in c.files <==> Taken(order, stuck, k, n)))
      && (k == |order| || c.size <= maxSize)
    ensures forall j :: 0 <= j < k ==> Drop(b, order[..j], stuck).size > maxSize
  {
    k := EvictIsPrefix(b, maxSize, order, stuck);
    DropEffect(b, order, noInfo, stuck, k);
  }

  /** Prune on a directory whose account is exact: the account stays exact; the limit is met unless
      only unremovable files are left; no removed file is newer than a kept removable one; and the
      newest removed file was needed, since putting it back would exceed the limit. */
  lemma {:induction false} PruneIsOldestFirst(b: BufferState, maxSize: int, order: seq<FileInfo>, noInfo: set<Name>, stuck: set<Name>)
    requires Catalogues(order, b.files, noInfo) && OldestFirst(order)
    requires b.size == Sum(b.files, Bytes)
    ensures var c := AfterPrune(b, maxSize, true, order, stuck);
      && c.size == Sum(c.files, Bytes)
      && c.files == b.files - (b.files.Keys - c.files.Keys)
      && (c.size <= maxSize || c.files.Keys <= stuck + noInfo)
      && (forall r, k :: r in b.files && r !in c.files && k in c.files && k !in stuck && k !in noInfo ==>
            b.files[r].modTime <= b.files[k].modTime)
      && (c.files != b.files ==> exists last :: NewestNeeded(b, c, maxSize, last))
  {
    PruneKeepsAccount(b, maxSize, order, noInfo, stuck);
    PruneMeetsLimit(b, maxSize, order, noInfo, stuck);
    PruneTakesOldest(b, maxSize, order, noInfo, stuck);
    PruneTakesNoMore(b, maxSize, order, noInfo, stuck);
  }

  lemma {:induction false} PruneKeepsAccount(b: BufferState, maxSize: int, order: seq<FileInfo>, noInfo: set<Name>, stuck: set<Name>)
    requires Catalogues(order, b.files, noInfo) && b.size == Sum(b.files, Bytes)
    ensures var c := Evict(b, maxSize, order, stuck);
      c.size == Sum(c.files, Bytes) && c.files == b.files - (b.files.Keys - c.files.Keys)
  {
    var k := EvictTakes(b, maxSize, order, noInfo, stuck);
  }

  lemma {:induction false} PruneMeetsLimit(b: BufferState, maxSize: int, order: seq<FileInfo>, noInfo: set<Name>, stuck: set<Name>)
    requires Catalogues(order, b.files, noInfo)
    ensures var c := Evict(b, maxSize, order, stuck); c.size <= maxSize || c.files.Keys <= stuck + noInfo
  {
    var c := Evict(b, maxSize, order, stuck);
    var k := EvictTakes(b, maxSize, order, noInfo, stuck);
    if c.size > maxSize { KeptAreRefused(b, c, order, noInfo, stuck); }
  }

  lemma {:induction false} PruneTakesOldest(b: BufferState, maxSize: int, order: seq<FileInfo>, noInfo: set<Name>, stuck: set<Name>)
    requires Catalogues(order, b.files, noInfo) && OldestFirst(order)
    ensures var c := Evict(b, maxSize, order, stuck);
      && c.files.Keys <= b.files.Keys
      && (forall r, n :: r in b.files && r !in c.files && n in c.files && n !in stuck && n !in noInfo ==>
            b.files[r].modTime <= b.files[n].modTime)
  {
    var k := EvictTakes(b, maxSize, order, noInfo, stuck);
    RemovedAreOlder(b, Evict(b, maxSize, order, stuck), order, noInfo, stuck, k);
  }

  lemma {:induction false} PruneTakesNoMore(b: BufferState, maxSize: int, order: seq<FileInfo>, noInfo: set<Name>, stuck: set<Name>)
    requires Catalogues(order, b.files, noInfo) && OldestFirst(order)
    ensures var c := Evict(b, maxSize, order, stuck); c.files != b.files ==> exists last :: NewestNeeded(b, c, maxSize, last)
  {
    var c := Evict(b, maxSize, order, stuck);
    var k := EvictTakes(b, maxSize, order, noInfo, stuck);
    if c.files != b.files {
      var n :| n in b.files.Keys - c.files.Keys;
      assert Taken(order, stuck, k, n);
      NewestIsNeeded(b, c, maxSize, order, noInfo, stuck, k);
    }
  }

  lemma {:induction false} KeptAreRefused(b: BufferState, c: BufferState, order: seq<FileInfo>, noInfo: set<Name>, stuck: set<Name>)
    requires Catalogues(order, b.files, noInfo)
    requires c.files.Keys <= b.files.Keys
    requires forall n :: n in b.files ==> (n !in c.files <==> Taken(order, stuck, |order|, n))
    ensures c.files.Keys <= stuck + noInfo
  {
    forall n | n in c.files && n !in noInfo ensures n in stuck {
      assert InfoOf(b.files, n) in order;
    }
  }

  lemma {:induction false} RemovedAreOlder(b: BufferState, c: BufferState, order: seq<FileInfo>, noInfo: set<Name>, stuck: set<Name>, k: nat)
    requires Catalogues(order, b.files, noInfo) && OldestFirst(order) && k <= |order|
    requires c.files.Keys <= b.files.Keys
    requires forall n :: n in b.files ==> (n !in c.files <==> Taken(order, stuck, k, n))
    ensures forall r, n :: r in b.files && r !in c.files && n in c.files && n !in stuck && n !in noInfo ==>
              b.files[r].modTime <= b.files[n].modTime
  {
    forall r, n | r in b.files && r !in c.files && n in c.files && n !in stuck && n !in noInfo
      ensures b.files[r].modTime <= b.files[n].modTime
    {
      assert Taken(order, stuck, k, r);
      var i :| 0 <= i < k && order[i].name == r;
      var j :| 0 <= j < |order| && order[j] == InfoOf(b.files, n);
      assert i < j;
    }
  }

  /** `last` was removed, no removed file is newer, and the limit would not be met with it. */
  ghost predicate NewestNeeded(b: BufferState, c: BufferState, maxSize: int, last: Name) {
    && last in b.files && last !in c.files
    && c.size + b.files[last].size > maxSize
    && forall r :: r in b.files && r !in c.files ==> b.files[r].modTime <= b.files[last].modTime
  }

  /** The last of the first k entries that can be removed. */
  lemma {:induction false} LastTaken(order: seq<FileInfo>, stuck: set<Name>, k: nat) returns (i: nat)
    requires k <= |order| && exists n :: Taken(order, stuck, k, n)
    ensures i < k && order[i].name !in stuck
    ensures forall j :: i < j < k ==> order[j].name in stuck
    decreases k
  {
    i := k - 1;
    if order[i].name in stuck {
      var n :| Taken(order, stuck, k, n);
      assert Taken(order, stuck, k - 1, n);
      i := LastTaken(order, stuck, k - 1);
    }
  }

  /** The last removal was needed: before it the account was above the limit. */
  lemma {:induction false} LastWasNeeded(b: BufferState, maxSize: int, order: seq<FileInfo>, stuck: set<Name>, k: nat, i: nat)
    requires i < k <= |order| && order[i].name !in stuck
    requires forall j :: i < j < k ==> order[j].name in stuck
    requires Drop(b, order[..k - 1], stuck).size > maxSize
    ensures Drop(b, order[..k], stuck).size + order[i].size > maxSize
  {
    assert order[..k] == order[..k - 1] + [order[k - 1]];
    DropSnoc(b, order[..k - 1], order[k - 1], stuck);
  }

  lemma {:induction false} NewestIsNeeded(b: BufferState, c: BufferState, maxSize: int, order: seq<FileInfo>,
                       noInfo: set<Name>, stuck: set<Name>, k: nat)
    requires Catalogues(order, b.files, noInfo) && OldestFirst(order) && k <= |order|
    requires exists n :: Taken(order, stuck, k, n)
    requires c == Drop(b, order[..k], stuck)
    requires forall n :: n in b.files ==> (n !in c.files <==> Taken(order, stuck, k, n))
    requires forall j :: 0 <= j < k ==> Drop(b, order[..j], stuck).size > maxSize
    ensures exists last :: NewestNeeded(b, c, maxSize, last)
  {
    var i := LastTaken(order, stuck, k);
    LastWasNeeded(b, maxSize, order, stuck, k, i);
    NewestOfTaken(b, c, order, noInfo, stuck, k, i);
    assert NewestNeeded(b, c, maxSize, order[i].name);
  }

  lemma {:induction false} NewestOfTaken(b: BufferState, c: BufferState, order: seq<FileInfo>,
                      noInfo: set<Name>, stuck: set<Name>, k: nat, i: nat)
    requires Catalogues(order, b.files, noInfo) && OldestFirst(order) && i < k <= |order|
    requires order[i].name !in stuck && forall j :: i < j < k ==> order[j].name in stuck
    requires forall n :: n in b.files ==> (n !in c.files <==> Taken(order, stuck, k, n))
    ensures var last := order[i].name;
      && last in b.files && last !in c.files && b.files[last].size == order[i].size
      && forall r :: r in b.files && r !in c.files ==> b.files[r].modTime <= b.files[last].modTime
  {
    var last := order[i].name;
    assert order[i] == InfoOf(b.files, last);
    assert Taken(order, stuck, k, last);
    forall r | r in b.files && r !in c.files ensures b.files[r].modTime <= b.files[last].modTime {
      assert Taken(order, stuck, k, r);
      var j :| 0 <= j < k && order[j].name == r;
      assert j <= i && order[j] == InfoOf(b.files, r);
    }
  }

  // ----- the account over whole runs -----

  /** One operation of the buffer with the answers of the operating system. */
  datatype Op =
    | Write(name: Name, items: seq<Item>, bytes: nat, modTime: int, diskOk: bool)
    | Clear(listOk: bool, stuck: set<Name>)
    | Prune(listOk: bool, noInfo: set<Name>, order: seq<FileInfo>, stuck: set<Name>)

  /** `leftover` are the files on disk that the last Clear could not remove, or that a failed
      initial scan did not count. */
  datatype Account = Account(b: BufferState, leftover: set<Name>, cleared: bool)

  /** New: the account starts at the scanned total, or at zero when the scan fails. */
  ghost function Opened(files: Dir, scanOk: bool): Account {
    if scanOk then Account(BufferState(files, Sum(files, Bytes)), {}, false)
    else Account(BufferState(files, 0), files.Keys, false)
  }

  ghost predicate Allowed(a: Account, op: Op) {
    match op
    case Write(name, _, _, _, _) => name !in a.b.files
    case Clear(_, _) => true
    case Prune(_, noInfo, order, _) => Catalogues(order, a.b.files, noInfo) && OldestFirst(order)
  }

  function Apply(a: Account, maxSize: int, op: Op): Account {
    match op
    case Write(name, items, bytes, modTime, diskOk) =>
      var r := WriteOutcome(a.b, maxSize, items, bytes, diskOk);
      a.(b := AfterWrite(a.b, name, File(bytes, modTime, Encoded(items)), r))
    case Clear(listOk, stuck) =>
      var c := AfterClear(a.b, listOk, stuck);
      if listOk then Account(c, c.files.Keys, true) else a
    case Prune(listOk, _, order, stuck) =>
      a.(b := AfterPrune(a.b, maxSize, listOk, order, stuck))
  }

  function Run(a: Account, maxSize: int, ops: seq<Op>): Account
    decreases |ops|
  {
    if ops == [] then a else Run(Apply(a, maxSize, ops[0]), maxSize, ops[1..])
  }

  ghost predicate AllowedRun(a: Account, maxSize: int, ops: seq<Op>)
    decreases |ops|
  {
    ops == [] || (Allowed(a, ops[0]) && AllowedRun(Apply(a, maxSize, ops[0]), maxSize, ops[1..]))
  }

  ghost predicate Exact(a: Account, maxSize: int, start: int) {
    && a.leftover <= a.b.files.Keys
    && a.b.size == Sum(a.b.files - a.leftover, Bytes)
    && a.b.size <= (if maxSize < start then start else maxSize)
    && (a.cleared || a.leftover != {} || start <= maxSize ==> a.b.size <= maxSize)
  }

  lemma {:induction false} ApplyKeepsExact(a: Account, maxSize: int, start: int, op: Op)
    requires maxSize >= 0 && Exact(a, maxSize, start) && Allowed(a, op)
    ensures Exact(Apply(a, maxSize, op), maxSize, start)
    ensures op.Prune? && Apply(a, maxSize, op) != a ==> !a.cleared && start > maxSize
  {
    match op
    case Write(name, items, bytes, modTime, diskOk) =>
      if WriteOutcome(a.b, maxSize, items, bytes, diskOk) == Stored {
        var f := File(bytes, modTime, Encoded(items));
        SumInsert(a.b.files - a.leftover, name, f, Bytes);
        assert a.b.files[name := f] - a.leftover == (a.b.files - a.leftover)[name := f];
      }
    case Clear(listOk, stuck) =>
      if listOk {
        var c := AfterClear(a.b, listOk, stuck);
        assert c.files - c.files.Keys == map[];
      }
    case Prune(listOk, noInfo, order, stuck) =>
      if listOk && a.b.size > maxSize {
        assert a.b.files - a.leftover == a.b.files;
        PruneIsOldestFirst(a.b, maxSize, order, noInfo, stuck);
        var c := AfterPrune(a.b, maxSize, listOk, order, stuck);
        assert c.files - a.leftover == c.files;
        SumMonotone(a.b.files, a.b.files.Keys - c.files.Keys, Bytes);
      }
  }

  lemma {:induction false} RunKeepsExact(a: Account, maxSize: int, start: int, ops: seq<Op>)
    requires maxSize >= 0 && Exact(a, maxSize, start) && AllowedRun(a, maxSize, ops)
    ensures Exact(Run(a, maxSize, ops), maxSize, start)
    decreases |ops|
  {
    if ops != [] {
      ApplyKeepsExact(a, maxSize, start, ops[0]);
      RunKeepsExact(Apply(a, maxSize, ops[0]), maxSize, start, ops[1..]);
    }
  }

  /** In every run from any directory, the account is the exact total of the files that are not
      leftovers; hence it is never negative, never above the true total, never above the larger of
      the limit and the starting total, and equal to the true total while there are no leftovers. */
  lemma {:induction false} AccountIsExact(files: Dir, scanOk: bool, maxSize: int, ops: seq<Op>)
    requires maxSize >= 0 && AllowedRun(Opened(files, scanOk), maxSize, ops)
    ensures var start := Opened(files, scanOk).b.size; var a := Run(Opened(files, scanOk), maxSize, ops);
      && a.b.size == Sum(a.b.files - a.leftover, Bytes)
      && 0 <= a.b.size <= (if maxSize < start then start else maxSize)
      && a.b.size <= Sum(a.b.files, Bytes)
      && (a.leftover == {} ==> a.b.size == Sum(a.b.files, Bytes))
  {
    var o := Opened(files, scanOk);
    assert files - files.Keys == map[];
    assert files - {} == files;
    RunKeepsExact(o, maxSize, o.b.size, ops);
    var a := Run(o, maxSize, ops);
    SumMonotone(a.b.files, a.leftover, Bytes);
    if a.leftover == {} { assert a.b.files - a.leftover == a.b.files; }
  }

  /** Prune changes something only in a process that started oversized and has not cleared yet. */
  lemma {:induction false} PruneNeedsOversizedStart(files: Dir, scanOk: bool, maxSize: int, ops: seq<Op>, op: Op)
    requires maxSize >= 0 && op.Prune?
    requires AllowedRun(Opened(files, scanOk), maxSize, ops)
    requires Allowed(Run(Opened(files, scanOk), maxSize, ops), op)
    ensures var a := Run(Opened(files, scanOk), maxSize, ops);
      Apply(a, maxSize, op) != a ==> scanOk && !a.cleared && Sum(files, Bytes) > maxSize
  {
    var o := Opened(files, scanOk);
    assert files - files.Keys == map[];
    assert files - {} == files;
    RunKeepsExact(o, maxSize, o.b.size, ops);
    ApplyKeepsExact(Run(o, maxSize, ops), maxSize, o.b.size, op);
  }

  /** The limit bounds the files on disk as long as nothing is left over. */
  lemma {:induction false} LimitHoldsWithoutLeftovers(files: Dir, maxSize: int, ops: seq<Op>)
    requires maxSize >= 0 && Sum(files, Bytes) <= maxSize && AllowedRun(Opened(files, true), maxSize, ops)
    ensures var a := Run(Opened(files, true), maxSize, ops);
      a.leftover == {} ==> Sum(a.b.files, Bytes) <= maxSize
  {
    AccountIsExact(files, true, maxSize, ops);
  }

  /** It does not bound them otherwise: for every positive limit there is a run from an empty directory,
      with one removal failing, after which the files take more than the limit. */
  lemma {:induction false} LimitExceededAfterFailedRemoval(maxSize: int) returns (ops: seq<Op>)
    requires maxSize >= 1
    ensures AllowedRun(Opened(map[], true), maxSize, ops)
    ensures Sum(Run(Opened(map[], true), maxSize, ops).b.files, Bytes) == maxSize + 1
  {
    var full, one := Write("a", [], maxSize, 0, true), Write("b", [], 1, 1, true);
    var clear := Clear(true, {"a"});
    ops := [full, clear, one];
    var o := Opened(map[], true);
    var f, g := File(maxSize, 0, Encoded([])), File(1, 1, Encoded([]));
    var a1 := Apply(o, maxSize, full);
    var a2 := Apply(a1, maxSize, clear);
    var a3 := Apply(a2, maxSize, one);
    assert a2.b == BufferState(map["a" := f], 0);
    assert a3.b.files == map["a" := f]["b" := g];
    SumInsert(map[], "a", f, Bytes);
    SumInsert(map["a" := f], "b", g, Bytes);
    assert ops[1..] == [clear, one] && [clear, one][1..] == [one] && [one][1..] == [];
    assert Run(o, maxSize, ops) == Run(a1, maxSize, [clear, one]) == Run(a2, maxSize, [one]) == Run(a3, maxSize, []);
    assert AllowedRun(a2, maxSize, [one]) && AllowedRun(a1, maxSize, [clear, one]);
  }

  lemma {:induction false} ZeroLimitHolds(a: Account, ops: seq<Op>)
    requires a.b.size == 0 && Sum(a.b.files, Bytes) == 0 && AllowedRun(a, 0, ops)
    ensures Sum(Run(a, 0, ops).b.files, Bytes) == 0
    decreases |ops|
  {
    if ops != [] {
      var z := Apply(a, 0, ops[0]);
      if ops[0].Write? && z != a {
        SumInsert(a.b.files, ops[0].name, z.b.files[ops[0].name], Bytes);
      } else if ops[0].Clear? && ops[0].listOk {
        SumMonotone(a.b.files, a.b.files.Keys - ops[0].stuck, Bytes);
      }
      ZeroLimitHolds(z, ops[1..]);
    }
  }

  /** Some run from an empty directory goes over the limit exactly when the limit is not zero; an
      empty directory is itself over a negative one. */
  lemma {:induction false} LimitCanBeExceededExactly(maxSize: int)
    ensures (exists ops :: AllowedRun(Opened(map[], true), maxSize, ops) &&
               Sum(Run(Opened(map[], true), maxSize, ops).b.files, Bytes) > maxSize) <==> maxSize != 0
  {
    var o := Opened(map[], true);
    if maxSize == 0 {
      forall ops | AllowedRun(o, maxSize, ops) ensures Sum(Run(o, maxSize, ops).b.files, Bytes) <= maxSize {
        ZeroLimitHolds(o, ops);
      }
    } else if maxSize < 0 {
      assert AllowedRun(o, maxSize, []) && Run(o, maxSize, []) == o;
    } else {
      var ops := LimitExceededAfterFailedRemoval(maxSize);
    }
  }

  // ----- exactly when the limit bounds the directory -----

  /** The bytes in files that the account does not know of. */
  ghost function LeftoverBytes(a: Account): nat {
    Sum(a.b.files - (a.b.files.Keys - a.leftover), Bytes)
  }

  /** Every Clear of the run removes every file it lists. */
  ghost predicate RemovalsSucceed(a: Account, maxSize: int, ops: seq<Op>)
    decreases |ops|
  {
    ops == [] ||
    (&& (ops[0].Clear? && ops[0].listOk ==> ops[0].stuck !! a.b.files.Keys)
     && RemovalsSucceed(Apply(a, maxSize, ops[0]), maxSize, ops[1..]))
  }

  ghost predicate BoundsDisk(a: Account, maxSize: int) {
    forall ops :: AllowedRun(a, maxSize, ops) && RemovalsSucceed(a, maxSize, ops) ==>
      Sum(Run(a, maxSize, ops).b.files, Bytes) <= maxSize
  }

  lemma {:induction false} DiskTotal(a: Account, maxSize: int, start: int)
    requires Exact(a, maxSize, start)
    ensures Sum(a.b.files, Bytes) == a.b.size + LeftoverBytes(a)
  {
    SumSplit(a.b.files, a.leftover, Bytes);
  }

  /** Without leftover bytes and within the limit, a step whose removals succeed stays so. */
  lemma {:induction false} StepStaysWithin(a: Account, maxSize: int, start: int, op: Op)
    requires maxSize >= 0 && Exact(a, maxSize, start) && Allowed(a, op)
    requires a.b.size <= maxSize && LeftoverBytes(a) == 0
    requires op.Clear? && op.listOk ==> op.stuck !! a.b.files.Keys
    ensures var z := Apply(a, maxSize, op); z.b.size <= maxSize && LeftoverBytes(z) == 0
  {
    var z := Apply(a, maxSize, op);
    match op
    case Write(name, _, _, _, _) =>
      if z != a {
        assert z.b.files - (z.b.files.Keys - a.leftover) == a.b.files - (a.b.files.Keys - a.leftover);
      }
    case Clear(listOk, stuck) =>
      if listOk {
        assert z.b.files == map[];
        assert z.b.files - (z.b.files.Keys - z.leftover) == map[];
      }
    case Prune(_, _, _, _) =>
  }

  lemma {:induction false} RunStaysWithin(a: Account, maxSize: int, start: int, ops: seq<Op>)
    requires maxSize >= 0 && Exact(a, maxSize, start)
    requires AllowedRun(a, maxSize, ops) && RemovalsSucceed(a, maxSize, ops)
    requires a.b.size <= maxSize && LeftoverBytes(a) == 0
    ensures Sum(Run(a, maxSize, ops).b.files, Bytes) <= maxSize
    decreases |ops|
  {
    if ops == [] {
      DiskTotal(a, maxSize, start);
    } else {
      StepStaysWithin(a, maxSize, start, ops[0]);
      ApplyKeepsExact(a, maxSize, start, ops[0]);
      RunStaysWithin(Apply(a, maxSize, ops[0]), maxSize, start, ops[1..]);
    }
  }

  /** With leftover bytes, filling the account up to its limit exceeds it on disk. */
  lemma {:induction false} FillingExceeds(a: Account, maxSize: int, start: int) returns (op: Op)
    requires Exact(a, maxSize, start) && a.b.size <= maxSize && LeftoverBytes(a) > 0
    ensures AllowedRun(a, maxSize, [op]) && RemovalsSucceed(a, maxSize, [op])
    ensures Sum(Run(a, maxSize, [op]).b.files, Bytes) > maxSize
  {
    var t := UnusedName(a.b.files.Keys);
    op := Write(BatchName(t), [], maxSize - a.b.size, 0, true);
    var z := Apply(a, maxSize, op);
    var f := File(maxSize - a.b.size, 0, Encoded([]));
    assert z.b.files == a.b.files[BatchName(t) := f];
    SumInsert(a.b.files, BatchName(t), f, Bytes);
    DiskTotal(a, maxSize, start);
    assert [op][1..] == [];
    assert Run(a, maxSize, [op]) == Run(z, maxSize, []);
    assert AllowedRun(z, maxSize, []) && RemovalsSucceed(z, maxSize, []);
  }

  /** After any run, every continuation whose removals succeed keeps the directory within the limit
      if and only if the account is within it and the leftover files hold no bytes. */
  lemma {:induction false} LimitBoundsDiskExactly(files: Dir, scanOk: bool, maxSize: int, before: seq<Op>)
    requires maxSize >= 0 && AllowedRun(Opened(files, scanOk), maxSize, before)
    ensures var a := Run(Opened(files, scanOk), maxSize, before);
      BoundsDisk(a, maxSize) <==> a.b.size <= maxSize && LeftoverBytes(a) == 0
  {
    var o := Opened(files, scanOk);
    var a := Run(o, maxSize, before);
    OpenedIsExact(files, scanOk, maxSize);
    RunKeepsExact(o, maxSize, o.b.size, before);
    if a.b.size > maxSize {
      DiskTotal(a, maxSize, o.b.size);
      assert AllowedRun(a, maxSize, []) && RemovalsSucceed(a, maxSize, []) && Run(a, maxSize, []) == a;
    } else if LeftoverBytes(a) > 0 {
      var op := FillingExceeds(a, maxSize, o.b.size);
    } else {
      forall ops | AllowedRun(a, maxSize, ops) && RemovalsSucceed(a, maxSize, ops)
        ensures Sum(Run(a, maxSize, ops).b.files, Bytes) <= maxSize
      {
        RunStaysWithin(a, maxSize, o.b.size, ops);
      }
    }
  }

  lemma {:induction false} OpenedIsExact(files: Dir, scanOk: bool, maxSize: int)
    requires maxSize >= 0
    ensures Exact(Opened(files, scanOk), maxSize, Opened(files, scanOk).b.size)
    ensures Opened(files, scanOk).b == BufferState(files, if scanOk then Sum(files, Bytes) else 0)
  {
    assert files - files.Keys == map[];
    assert files - {} == files;
  }

  /** Writing under a name already in use (two writes at one clock reading) overcounts by exactly
      the size of the snapshot that is replaced. */
  lemma {:induction false} NameReuseOvercounts(b: BufferState, name: Name, f: File)
    requires name in b.files
    ensures var c := AfterWrite(b, name, f, Stored);
      c.size - Sum(c.files, Bytes) == b.size - Sum(b.files, Bytes) + b.files[name].size
  {
    SumRemove(b.files, name, Bytes);
    SumInsert(b.files - {name}, name, f, Bytes);
    assert b.files[name := f] == (b.files - {name})[name := f];
  }

  /** With a negative limit the account can go below zero: one file that survives a Clear and is
      pruned afterwards is subtracted from an account that no longer holds it. */
  lemma {:induction false} NegativeLimitUnderflows(maxSize: int) returns (files: Dir, ops: seq<Op>)
    requires maxSize < 0
    ensures AllowedRun(Opened(files, true), maxSize, ops)
    ensures Run(Opened(files, true), maxSize, ops).b.size < 0
  {
    var f := File(1, 0, Garbage);
    files := map["a" := f];
    var clear := Clear(true, {"a"});
    var prune := Prune(true, {}, [FileInfo("a", 0, 1)], {});
    ops := [clear, prune];
    var o := Opened(files, true);
    var a := Apply(o, maxSize, clear);
    assert a.b == BufferState(files, 0);
    assert Catalogues(prune.order, files, {});
    var z := Apply(a, maxSize, prune);
    assert Evict(a.b, maxSize, prune.order, {}) ==
           Evict(BufferState(a.b.files - {"a"}, -1), maxSize, [], {});
    assert z.b.size == -1;
    assert ops[1..] == [prune] && [prune][1..] == [];
    assert Run(o, maxSize, ops) == Run(a, maxSize, [prune]) == Run(z, maxSize, []);
    assert AllowedRun(a, maxSize, [prune]);
  }

  /** The account stays non-negative in all runs exactly when the limit is not negative. */
  lemma {:induction false} NonNegativeExactlyWhenLimitIs(maxSize: int)
    ensures maxSize >= 0 <==>
            forall files, ops :: AllowedRun(Opened(files, true), maxSize, ops) ==>
              Run(Opened(files, true), maxSize, ops).b.size >= 0
  {
    if maxSize >= 0 {
      forall files, ops | AllowedRun(Opened(files, true), maxSize, ops)
        ensures Run(Opened(files, true), maxSize, ops).b.size >= 0
      {
        AccountIsExact(files, true, maxSize, ops);
      }
    } else {
      var files, ops := NegativeLimitUnderflows(maxSize);
    }
  }
}
