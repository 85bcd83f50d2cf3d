/** What the telemetry buffer stores, and what each of its operations does, as values.

    The buffer is a flat directory of snapshot files that outlives the process, plus an in-memory
    account of its size.  Everything the operating system may refuse is a parameter: the names
    whose read or removal fails, whether listing succeeds, whether a write succeeds. */
module BufferSpec {
  import opened FileNames

  /** One telemetry datum.  `marshals` is false for a value json.Marshal rejects. */
  datatype Item = Item(id: nat, marshals: bool)

  /** File contents: an encoded batch, or bytes that do not decode to one. */
  datatype Content = Encoded(items: seq<Item>) | Garbage

  datatype File = File(size: nat, modTime: int, content: Content)

  type Name = string
  type Dir = map<Name, File>

  /** The directory together with `currentSize`. */
  datatype BufferState = BufferState(files: Dir, size: int)

  predicate Marshals(items: seq<Item>) {
    forall i :: 0 <= i < |items| ==> items[i].marshals
  }

  function ItemsOf(f: File): seq<Item> {
    match f.content
    case Encoded(items) => items
    case Garbage => []
  }

  ghost predicate OnDisk(files: Dir, x: Item) {
    exists n :: n in files && x in ItemsOf(files[n])
  }

  // ----- sums over a directory -----

  function Bytes(f: File): nat { f.size }
  function Points(f: File): nat { |ItemsOf(f)| }

  /** The sum of a weight over all files. */
  ghost function Sum(files: Dir, w: File -> nat): nat {
    if files == map[] then 0
    else
      var n := Least(files.Keys);
      w(files[n]) + Sum(files - {n}, w)
  }

  lemma {:induction false} SumRemove(files: Dir, n: Name, w: File -> nat)
    requires n in files
    ensures Sum(files, w) == w(files[n]) + Sum(files - {n}, w)
    decreases files
  {
    var m := Least(files.Keys);
    if m != n {
      SumRemove(files - {m}, n, w);
      assert n in files - {m};
      assert files - {m} - {n} == files - {n} - {m};
      SumRemove(files - {n}, m, w);
    }
  }

  lemma {:induction false} SumInsert(files: Dir, n: Name, f: File, w: File -> nat)
    requires n !in files
    ensures Sum(files[n := f], w) == Sum(files, w) + w(f)
  {
    SumRemove(files[n := f], n, w);
    assert files[n := f] - {n} == files;
  }

  lemma {:induction false} SumMonotone(files: Dir, gone: set<Name>, w: File -> nat)
    ensures Sum(files - gone, w) <= Sum(files, w)
    decreases gone
  {
    if gone == {} {
      assert files - gone == files;
    } else {
      var n :| n in gone;
      SumMonotone(files, gone - {n}, w);
      var rest := files - (gone - {n});
      if n in rest {
        SumRemove(rest, n, w);
        assert rest - {n} == files - gone;
      } else {
        assert rest == files - gone;
      }
    }
  }

  lemma {:induction false} SumUnion(left: Dir, right: Dir, w: File -> nat)
    requires left.Keys !! right.Keys
    ensures Sum(left + right, w) == Sum(left, w) + Sum(right, w)
    decreases left
  {
    if left == map[] {
      assert left + right == right;
    } else {
      var n := Least(left.Keys);
      SumUnion(left - {n}, right, w);
      SumRemove(left + right, n, w);
      assert left + right - {n} == (left - {n}) + right;
    }
  }

  /** Files outside and inside a set of names make up the whole. */
  lemma {:induction false} SumSplit(files: Dir, part: set<Name>, w: File -> nat)
    ensures Sum(files, w) == Sum(files - part, w) + Sum(files - (files.Keys - part), w)
  {
    SumUnion(files - part, files - (files.Keys - part), w);
    assert (files - part) + (files - (files.Keys - part)) == files;
  }

  /** The walk of calculateSize: the same total, name by name. */
  ghost function SumOver(files: Dir, names: seq<Name>, w: File -> nat): nat
    requires forall n :: n in names ==> n in files
  {
    if names == [] then 0 else w(files[names[0]]) + SumOver(files, names[1..], w)
  }

  lemma {:induction false} SumOverListing(files: Dir, part: Dir, w: File -> nat)
    requires forall n :: n in part ==> n in files && part[n] == files[n]
    ensures (forall n :: n in Listing(part.Keys) ==> n in files) &&
            SumOver(files, Listing(part.Keys), w) == Sum(part, w)
    decreases part
  {
    ListingIsSorted(part.Keys);
    if part != map[] {
      var n := Least(part.Keys);
      assert (part - {n}).Keys == part.Keys - {n};
      SumOverListing(files, part - {n}, w);
      assert Listing(part.Keys)[1..] == Listing(part.Keys - {n});
    }
  }

  // ----- Write -----

  datatype WriteResult = Stored | MarshalFailed | BufferFull | DiskFailed

  function WriteOutcome(b: BufferState, maxSize: int, items: seq<Item>, bytes: nat, diskOk: bool): WriteResult {
    if !Marshals(items) then MarshalFailed
    else if b.size + bytes > maxSize then BufferFull
    else if !diskOk then DiskFailed
    else Stored
  }

  function AfterWrite(b: BufferState, name: Name, f: File, r: WriteResult): BufferState {
    if r == Stored then BufferState(b.files[name := f], b.size + f.size) else b
  }

  // ----- ReadAll -----

  /** The contents of the listed files that can be read, in listing order. */
  function Readable(files: Dir, names: seq<Name>, unreadable: set<Name>): seq<Content>
    requires forall n :: n in names ==> n in files
  {
    if names == [] then []
    else
      (if names[0] in unreadable then [] else [files[names[0]].content])
      + Readable(files, names[1..], unreadable)
  }

  /** A file that can be read is among the contents. */
  lemma {:induction false} ReadableHas(files: Dir, names: seq<Name>, unreadable: set<Name>, n: Name)
    requires forall x :: x in names ==> x in files
    requires n in names && n !in unreadable
    ensures files[n].content in Readable(files, names, unreadable)
  {
    if names[0] != n {
      ReadableHas(files, names[1..], unreadable, n);
    }
  }

  /** ... and nothing else is. */
  lemma {:induction false} ReadableFrom(files: Dir, names: seq<Name>, unreadable: set<Name>, c: Content)
    requires forall x :: x in names ==> x in files
    requires c in Readable(files, names, unreadable)
    ensures exists n :: n in names && n !in unreadable && files[n].content == c
  {
    if names[0] in unreadable || files[names[0]].content != c {
      ReadableFrom(files, names[1..], unreadable, c);
    }
  }

  /** ReadAll: the contents of all readable files, in name order. */
  ghost function ReadableFiles(files: Dir, unreadable: set<Name>): seq<Content> {
    ListingIsSorted(files.Keys);
    Readable(files, Listing(files.Keys), unreadable)
  }

  /** ReadAll returns exactly the contents of the files that can be read. */
  lemma {:induction false} ReadableFilesAre(files: Dir, unreadable: set<Name>)
    ensures forall c :: c in ReadableFiles(files, unreadable) <==>
              exists n :: n in files && n !in unreadable && files[n].content == c
  {
    ListingIsSorted(files.Keys);
    var names := Listing(files.Keys);
    forall n | n in files && n !in unreadable ensures files[n].content in Readable(files, names, unreadable) {
      ReadableHas(files, names, unreadable, n);
    }
    forall c | c in Readable(files, names, unreadable)
      ensures exists n :: n in files && n !in unreadable && files[n].content == c
    {
      ReadableFrom(files, names, unreadable, c);
    }
  }

  function Without(names: seq<Name>, gone: set<Name>): seq<Name> {
    if names == [] then [] else (if names[0] in gone then [] else [names[0]]) + Without(names[1..], gone)
  }

  lemma {:induction false} WithoutHas(names: seq<Name>, gone: set<Name>)
    ensures forall x :: x in Without(names, gone) <==> x in names && x !in gone
  {
    if names != [] { WithoutHas(names[1..], gone); }
  }

  lemma {:induction false} WithoutIsSorted(names: seq<Name>, gone: set<Name>)
    requires Sorted(names)
    ensures Sorted(Without(names, gone))
  {
    if names != [] {
      var rest := Without(names[1..], gone);
      WithoutIsSorted(names[1..], gone);
      WithoutHas(names[1..], gone);
      forall x | x in rest ensures Less(names[0], x) {
        var i :| 0 <= i < |names[1..]| && names[1..][i] == x;
        assert names[i + 1] == x;
      }
    }
  }

  lemma {:induction false} ReadableDrops(files: Dir, names: seq<Name>, unreadable: set<Name>)
    requires forall x :: x in names ==> x in files
    requires forall x :: x in Without(names, unreadable) ==> x in files - unreadable
    ensures Readable(files, names, unreadable) == Readable(files - unreadable, Without(names, unreadable), {})
  {
    if names != [] {
      var rest := Without(names[1..], unreadable);
      ReadableDrops(files, names[1..], unreadable);
      if names[0] in unreadable {
        assert Without(names, unreadable) == rest;
      } else {
        assert Without(names, unreadable) == [names[0]] + rest && ([names[0]] + rest)[1..] == rest;
        assert (files - unreadable)[names[0]] == files[names[0]];
      }
    }
  }

  /** A file that cannot be read is to ReadAll as if it were not there. */
  lemma {:induction false} UnreadableIsAbsent(files: Dir, unreadable: set<Name>)
    ensures ReadableFiles(files, unreadable) == ReadableFiles(files - unreadable, {})
  {
    var names := Listing(files.Keys);
    ListingIsSorted(files.Keys);
    WithoutHas(names, unreadable);
    WithoutIsSorted(names, unreadable);
    SortedIsListing(Without(names, unreadable), (files - unreadable).Keys);
    ReadableDrops(files, names, unreadable);
  }

  // ----- Clear -----

  /** The removal loop of Clear. */
  function RemoveAll(files: Dir, names: seq<Name>, stuck: set<Name>): Dir {
    if names == [] then files
    else RemoveAll(if names[0] in stuck then files else files - {names[0]}, names[1..], stuck)
  }

  lemma {:induction false} RemoveAllEffect(files: Dir, names: seq<Name>, stuck: set<Name>)
    ensures var r := RemoveAll(files, names, stuck);
      && (forall n :: n in r <==> n in files && (n in stuck || n !in names))
      && (forall n :: n in r ==> r[n] == files[n])
  {
    if names != [] {
      var next := if names[0] in stuck then files else files - {names[0]};
      RemoveAllEffect(next, names[1..], stuck);
      assert forall n :: n in names <==> n == names[0] || n in names[1..];
    }
  }

  /** Clear: every listed file goes unless its removal fails; the account is zeroed either way. */
  function AfterClear(b: BufferState, listOk: bool, stuck: set<Name>): BufferState {
    if listOk then BufferState(b.files - (b.files.Keys - stuck), 0) else b
  }

  /** The removal loop over the whole listing leaves exactly the files whose removal fails. */
  lemma {:induction false} ClearsListing(files: Dir, stuck: set<Name>)
    ensures RemoveAll(files, Listing(files.Keys), stuck) == files - (files.Keys - stuck)
  {
    ListingIsSorted(files.Keys);
    RemoveAllEffect(files, Listing(files.Keys), stuck);
  }

  // ----- Prune -----

  datatype FileInfo = FileInfo(name: Name, modTime: int, size: nat)

  function InfoOf(files: Dir, n: Name): FileInfo
    requires n in files
  {
    FileInfo(n, files[n].modTime, files[n].size)
  }

  ghost predicate OldestFirst(s: seq<FileInfo>) {
    forall i, j :: 0 <= i <= j < |s| ==> s[i].modTime <= s[j].modTime
  }

  ghost predicate DistinctNames(order: seq<FileInfo>) {
    forall i, j :: 0 <= i < j < |order| ==> order[i].name != order[j].name
  }

  /** `order` describes exactly the files of `files` whose Info call succeeds, each once. */
  ghost predicate Catalogues(order: seq<FileInfo>, files: Dir, noInfo: set<Name>) {
    && (forall i :: 0 <= i < |order| ==>
          order[i].name in files && order[i].name !in noInfo && order[i] == InfoOf(files, order[i].name))
    && (forall n :: n in files && n !in noInfo ==> InfoOf(files, n) in order)
    && DistinctNames(order)
  }

  /** The collecting loop of Prune. */
  function Infos(files: Dir, names: seq<Name>, noInfo: set<Name>): seq<FileInfo>
    requires forall n :: n in names ==> n in files
  {
    if names == [] then []
    else (if names[0] in noInfo then [] else [InfoOf(files, names[0])]) + Infos(files, names[1..], noInfo)
  }

  lemma {:induction false} InfosAre(files: Dir, names: seq<Name>, noInfo: set<Name>)
    requires Sorted(names) && forall n :: n in names ==> n in files
    ensures var r := Infos(files, names, noInfo);
      && (forall i :: 0 <= i < |r| ==> r[i].name in names && r[i].name !in noInfo && r[i] == InfoOf(files, r[i].name))
      && (forall n :: n in names && n !in noInfo ==> InfoOf(files, n) in r)
      && DistinctNames(r)
  {
    if names != [] {
      InfosAre(files, names[1..], noInfo);
      forall n | n in names[1..] ensures n != names[0] {
        LessIsStrict(n, names[0]);
      }
    }
  }

  /** The collecting loop over the listing catalogues the directory. */
  lemma {:induction false} InfosCatalogue(files: Dir, noInfo: set<Name>)
    ensures (forall n :: n in Listing(files.Keys) ==> n in files) &&
            Catalogues(Infos(files, Listing(files.Keys), noInfo), files, noInfo)
  {
    ListingIsSorted(files.Keys);
    InfosAre(files, Listing(files.Keys), noInfo);
  }

  /** The removal loop of Prune. */
  function Evict(b: BufferState, maxSize: int, order: seq<FileInfo>, stuck: set<Name>): BufferState
    decreases |order|
  {
    if order == [] || b.size <= maxSize then b
    else if order[0].name in stuck then Evict(b, maxSize, order[1..], stuck)
    else Evict(BufferState(b.files - {order[0].name}, b.size - order[0].size), maxSize, order[1..], stuck)
  }

  /** Prune: nothing within the limit or when the directory cannot be listed, else the loop. */
  function AfterPrune(b: BufferState, maxSize: int, listOk: bool, order: seq<FileInfo>, stuck: set<Name>): BufferState {
    if b.size <= maxSize || !listOk then b else Evict(b, maxSize, order, stuck)
  }
}
