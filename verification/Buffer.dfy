/** The telemetry buffer: a directory that outlives the process, and the object that accounts for
    it.  Every method holds the buffer's mutex from start to end, so each is one atomic step. */
module Buffer {
  import opened FileNames
  import opened BufferSpec

  /** The buffer directory.  It is shared by all processes that ever run on the machine. */
  class Directory {
    var files: Dir

    constructor (files: Dir)
      ensures this.files == files
    {
      this.files := files;
    }
  }

  /** The entries of a directory as os.ReadDir returns them. */
  method ReadDir(d: Directory) returns (names: seq<Name>)
    ensures names == Listing(d.files.Keys)
  {
    names := [];
    var todo := d.files.Keys;
    while todo != {}
      invariant names + Listing(todo) == Listing(d.files.Keys)
      decreases todo
    {
      var least := FirstOf(todo);
      LeastIsUnique(least, Least(todo), todo);
      assert names + Listing(todo) == (names + [least]) + Listing(todo - {least});
      names, todo := names + [least], todo - {least};
    }
    assert names + [] == names;
  }

  method FirstOf(names: set<Name>) returns (m: Name)
    requires names != {}
    ensures IsLeast(m, names)
  {
    m :| m in names;
    var todo := names - {m};
    while todo != {}
      invariant m in names && todo <= names
      invariant forall x :: x in names && x !in todo && x != m ==> Less(m, x)
      decreases todo
    {
      var x :| x in todo;
      LessIsTotal(x, m);
      if Less(x, m) {
        forall y | y in names && y !in todo && y != x ensures Less(x, y) {
          if y != m { LessIsTransitive(x, m, y); }
        }
        m := x;
      }
      todo := todo - {x};
    }
  }

  // ----- the exchange sort of Prune -----

  ghost predicate Permutes(s: seq<FileInfo>, t: seq<FileInfo>) {
    multiset(s) == multiset(t)
  }

  /** The first i entries are in place: each is no newer than anything at or after it. */
  ghost predicate InPlace(s: seq<FileInfo>, i: nat) {
    forall p, q :: 0 <= p < i && p <= q < |s| ==> s[p].modTime <= s[q].modTime
  }

  /** Entry i is no newer than the entries between i and j. */
  ghost predicate OldestOf(s: seq<FileInfo>, i: nat, j: nat) {
    i < |s| && j <= |s| && forall q :: i <= q < j ==> s[i].modTime <= s[q].modTime
  }

  lemma {:induction false} ExchangeKeeps(s: seq<FileInfo>, t: seq<FileInfo>, i: nat, j: nat)
    requires i < j < |s| && InPlace(s, i) && OldestOf(s, i, j) && s[i].modTime > s[j].modTime
    requires t == s[i := s[j]][j := s[i]]
    ensures InPlace(t, i) && OldestOf(t, i, j + 1) && Permutes(s, t)
  {
    forall p, q | 0 <= p < i && p <= q < |t| ensures t[p].modTime <= t[q].modTime {
      assert t[p] == s[p] && t[q] == (if q == i then s[j] else if q == j then s[i] else s[q]);
    }
  }

  lemma {:induction false} InPlaceNext(s: seq<FileInfo>, i: nat)
    requires InPlace(s, i) && OldestOf(s, i, |s|)
    ensures InPlace(s, i + 1)
  {
  }

  /** The nested exchange loop: afterwards the entries are the same, oldest first. */
  method ExchangeSort(a: array<FileInfo>)
    modifies a
    ensures OldestFirst(a[..])
    ensures Permutes(a[..], old(a[..]))
  {
    var i := 0;
    while i < a.Length - 1
      invariant 0 <= i && (a.Length > 0 ==> i <= a.Length - 1)
      invariant Permutes(a[..], old(a[..]))
      invariant InPlace(a[..], i)
    {
      var j := i + 1;
      while j < a.Length
        invariant i < j <= a.Length
        invariant Permutes(a[..], old(a[..]))
        invariant InPlace(a[..], i)
        invariant OldestOf(a[..], i, j)
      {
        ghost var before := a[..];
        if a[i].modTime > a[j].modTime {
          a[i], a[j] := a[j], a[i];
          ExchangeKeeps(before, a[..], i, j);
        }
        j := j + 1;
      }
      InPlaceNext(a[..], i);
      i := i + 1;
    }
  }

  class Buffer {
    const dir: Directory
    const maxSize: int
    var currentSize: int

    /** The directory together with the account. */
    function State(): BufferState
      reads this, dir
    {
      BufferState(dir.files, currentSize)
    }

    /** New: the account is the scanned total, or zero when the scan fails. */
    constructor (dir: Directory, maxSize: int, scanOk: bool)
      ensures this.dir == dir && this.maxSize == maxSize
      ensures currentSize == if scanOk then Sum(dir.files, Bytes) else 0
    {
      this.dir, this.maxSize := dir, maxSize;
      this.currentSize := 0;
      new;
      if scanOk {
        CalculateSize();
      }
    }

    method CalculateSize()
      modifies this
      ensures currentSize == Sum(dir.files, Bytes)
    {
      var todo := ReadDir(dir);
      SumOverListing(dir.files, dir.files, Bytes);
      var total := 0;
      while todo != []
        invariant forall n :: n in todo ==> n in dir.files
        invariant total + SumOver(dir.files, todo, Bytes) == Sum(dir.files, Bytes)
        decreases |todo|
      {
        total := total + dir.files[todo[0]].size;
        todo := todo[1..];
      }
      currentSize := total;
    }

    /** Write: stores one snapshot under the clock's name, or says why not and changes nothing. */
    method Write(items: seq<Item>, bytes: nat, now: nat, modTime: int, diskOk: bool) returns (r: WriteResult)
      modifies this, dir
      ensures r == WriteOutcome(old(State()), maxSize, items, bytes, diskOk)
      ensures State() == AfterWrite(old(State()), BatchName(now), File(bytes, modTime, Encoded(items)), r)
    {
      if !Marshals(items) {
        return MarshalFailed;
      }
      if currentSize + bytes > maxSize {
        return BufferFull;
      }
      if !diskOk {
        return DiskFailed;
      }
      dir.files := dir.files[BatchName(now) := File(bytes, modTime, Encoded(items))];
      currentSize := currentSize + bytes;
      return Stored;
    }

    /** ReadAll: the readable snapshots in listing order, unless the listing fails. */
    method ReadAll(listOk: bool, unreadable: set<Name>) returns (ok: bool, batches: seq<Content>)
      ensures ok == listOk
      ensures ok ==> batches == ReadableFiles(dir.files, unreadable)
    {
      batches := [];
      if !listOk {
        return false, batches;
      }
      var todo := ReadDir(dir);
      ListingIsSorted(dir.files.Keys);
      ghost var all := ReadableFiles(dir.files, unreadable);
      while todo != []
        invariant forall n :: n in todo ==> n in dir.files
        invariant batches + Readable(dir.files, todo, unreadable) == all
        decreases |todo|
      {
        ReadStep(batches, dir.files, todo, unreadable);
        if todo[0] !in unreadable {
          batches := batches + [dir.files[todo[0]].content];
        }
        todo := todo[1..];
      }
      assert batches == all;
      return true, batches;
    }

    /** Clear: removes every listed file it can and zeroes the account. */
    method Clear(listOk: bool, stuck: set<Name>) returns (ok: bool)
      modifies this, dir
      ensures ok == listOk
      ensures State() == AfterClear(old(State()), listOk, stuck)
    {
      if !listOk {
        return false;
      }
      var todo := ReadDir(dir);
      ghost var before := dir.files;
      while todo != []
        invariant RemoveAll(dir.files, todo, stuck) == RemoveAll(before, Listing(before.Keys), stuck)
        modifies dir
        decreases |todo|
      {
        if todo[0] !in stuck {
          dir.files := dir.files - {todo[0]};
        }
        todo := todo[1..];
      }
      ClearsListing(before, stuck);
      currentSize := 0;
      return true;
    }

    /** Prune: removes oldest files until the account is within the limit.  `order` is the sorted
        catalogue the removal loop walks. */
    method Prune(listOk: bool, noInfo: set<Name>, stuck: set<Name>) returns (ok: bool, ghost order: seq<FileInfo>)
      modifies this, dir
      ensures ok == (old(currentSize) <= maxSize || listOk)
      ensures old(currentSize) > maxSize && listOk ==>
                Catalogues(order, old(dir.files), noInfo) && OldestFirst(order)
      ensures State() == AfterPrune(old(State()), maxSize, listOk, order, stuck)
    {
      order := [];
      if currentSize <= maxSize {
        return true, order;
      }
      if !listOk {
        return false, order;
      }
      var infos := Catalogue(dir, noInfo);
      var a := new FileInfo[|infos|](i requires 0 <= i < |infos| => infos[i]);
      assert a[..] == infos;
      ExchangeSort(a);
      order := a[..];
      PermutedCatalogue(infos, order, dir.files, noInfo);
      RemoveOldest(a, stuck);
      return true, order;
    }

    /** The removal loop of Prune. */
    method RemoveOldest(a: array<FileInfo>, stuck: set<Name>)
      modifies this, dir
      ensures State() == Evict(old(State()), maxSize, a[..], stuck)
    {
      var i := 0;
      ghost var before := State();
      while i < a.Length && currentSize > maxSize
        invariant 0 <= i <= a.Length
        invariant Evict(State(), maxSize, a[i..], stuck) == Evict(before, maxSize, a[..], stuck)
        decreases a.Length - i
      {
        assert a[i..][0] == a[i] && a[i..][1..] == a[i + 1..];
        if a[i].name !in stuck {
          dir.files := dir.files - {a[i].name};
          currentSize := currentSize - a[i].size;
        }
        i := i + 1;
      }
    }
  }

  lemma {:induction false} ReadStep(batches: seq<Content>, files: Dir, todo: seq<Name>, unreadable: set<Name>)
    requires todo != [] && forall n :: n in todo ==> n in files
    ensures batches + Readable(files, todo, unreadable) ==
            (if todo[0] in unreadable then batches else batches + [files[todo[0]].content])
            + Readable(files, todo[1..], unreadable)
  {
  }

  lemma {:induction false} InfoStep(infos: seq<FileInfo>, files: Dir, todo: seq<Name>, noInfo: set<Name>)
    requires todo != [] && forall n :: n in todo ==> n in files
    ensures infos + Infos(files, todo, noInfo) ==
            (if todo[0] in noInfo then infos else infos + [InfoOf(files, todo[0])]) + Infos(files, todo[1..], noInfo)
  {
  }

  /** Collects name, modification time and size of every file whose Info call succeeds. */
  method Catalogue(d: Directory, noInfo: set<Name>) returns (infos: seq<FileInfo>)
    ensures Catalogues(infos, d.files, noInfo)
  {
    var todo := ReadDir(d);
    ListingIsSorted(d.files.Keys);
    infos := [];
    ghost var all := Infos(d.files, todo, noInfo);
    while todo != []
      invariant forall n :: n in todo ==> n in d.files
      invariant infos + Infos(d.files, todo, noInfo) == all
      decreases |todo|
    {
      InfoStep(infos, d.files, todo, noInfo);
      if todo[0] !in noInfo {
        infos := infos + [InfoOf(d.files, todo[0])];
      }
      todo := todo[1..];
    }
    assert infos == all;
    InfosCatalogue(d.files, noInfo);
  }

  // ----- a permutation of a catalogue is a catalogue -----

  lemma {:induction false} PermutedCatalogue(s: seq<FileInfo>, t: seq<FileInfo>, files: Dir, noInfo: set<Name>)
    requires Catalogues(s, files, noInfo) && Permutes(t, s)
    ensures Catalogues(t, files, noInfo)
  {
    forall x ensures x in t <==> x in s {
      assert x in multiset(t) <==> x in multiset(s);
    }
    forall i | 0 <= i < |t|
      ensures t[i].name in files && t[i].name !in noInfo && t[i] == InfoOf(files, t[i].name)
    {
      assert t[i] in s;
    }
    PermutedDistinct(s, t);
  }

  lemma {:induction false} PermutedDistinct(s: seq<FileInfo>, t: seq<FileInfo>)
    requires DistinctNames(s) && Permutes(t, s)
    ensures DistinctNames(t)
  {
    forall i, j | 0 <= i < j < |t| ensures t[i].name != t[j].name {
      assert t[i] in multiset(t) && t[j] in multiset(t);
      assert t[i] in s && t[j] in s;
      OnceIfDistinct(s, t[i]);
      TwiceIfRepeated(t, i, j);
    }
  }

  lemma {:induction false} OnceIfDistinct(s: seq<FileInfo>, x: FileInfo)
    requires DistinctNames(s)
    ensures multiset(s)[x] <= 1
  {
    if s != [] {
      assert s == [s[0]] + s[1..];
      OnceIfDistinct(s[1..], x);
      if x == s[0] { assert x !in s[1..]; }
    }
  }

  lemma {:induction false} TwiceIfRepeated(t: seq<FileInfo>, i: nat, j: nat)
    requires i < j < |t|
    ensures t[i] == t[j] ==> multiset(t)[t[i]] >= 2
  {
    assert t == t[..j] + ([t[j]] + t[j + 1..]);
    assert t[i] in t[..j];
  }
}
