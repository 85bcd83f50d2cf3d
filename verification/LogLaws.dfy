/** What rotation keeps, what a logger keeps over whole runs, and when it locks itself up. */
module LogLaws {
  import opened FileNames
  import opened LogSpec

  /** The content of a path as a list of at most one element. */
  function Get(files: Files, p: string): seq<seq<Line>> {
    if p in files then [files[p]] else []
  }

  // ----- the shift, for any directory -----

  /** The loop moves every backup up by one; a slot is left empty when nothing moves into it,
      except the last, which then keeps what it had. */
  lemma {:induction false} ShiftSlot(files: Files, base: string, k: int, i: nat)
    ensures Get(Shift(files, base, k, {}), Backup(base, i)) ==
            if i == 0 || k < 1 || i > k + 1 then Get(files, Backup(base, i))
            else if i == 1 then []
            else if Get(files, Backup(base, i - 1)) != [] then Get(files, Backup(base, i - 1))
            else if i == k + 1 then Get(files, Backup(base, i))
            else []
    decreases k
  {
    if k >= 1 {
      ShiftSlot(Rename(files, Backup(base, k), Backup(base, k + 1), {}), base, k - 1, i);
      BackupsDiffer(base, k, k + 1);
      BackupsDiffer(base, i, k);
      BackupsDiffer(base, i, k + 1);
      if i >= 1 {
        BackupsDiffer(base, i - 1, k);
        BackupsDiffer(base, i - 1, k + 1);
      }
    }
  }

  lemma {:induction false} ShiftOther(files: Files, base: string, k: int, p: string)
    requires forall i: nat :: 1 <= i <= k + 1 ==> p != Backup(base, i)
    ensures Get(Shift(files, base, k, {}), p) == Get(files, p)
    decreases k
  {
    if k >= 1 {
      var j: nat := k;
      assert p != Backup(base, j) && p != Backup(base, j + 1);
      ShiftOther(Rename(files, Backup(base, k), Backup(base, k + 1), {}), base, k - 1, p);
    }
  }

  lemma {:induction false} RotatedSlot(files: Files, base: string, n: int, i: nat)
    requires base in files && i >= 1
    ensures Get(Rotated(files, base, n, {}), Backup(base, i)) ==
            if i == 1 then [files[base]]
            else if i > n then Get(files, Backup(base, i))
            else if Get(files, Backup(base, i - 1)) != [] then Get(files, Backup(base, i - 1))
            else if i == n then Get(files, Backup(base, i))
            else []
    ensures base !in Rotated(files, base, n, {})
  {
    ShiftSlot(files, base, n - 1, i);
    forall j: nat ensures base != Backup(base, j) { BackupsDiffer(base, j, j); }
    ShiftOther(files, base, n - 1, base);
    BackupsDiffer(base, i, 1);
  }

  /** Backups .1 to .k exist and no others among the first m. */
  ghost predicate Contiguous(files: Files, base: string, k: nat, m: nat) {
    forall i: nat :: 1 <= i <= m ==> (Backup(base, i) in files <==> i <= k)
  }

  function Min(a: nat, b: nat): nat { if a < b then a else b }

  /** Rotation shift: with a contiguous chain .1 to .k, a rotation leaves exactly the first
      max(1,N) elements of [current] followed by the old chain, again contiguous, removes the
      current file, and touches no other path; for every N. */
  lemma {:induction false} RotationShift(files: Files, base: string, n: int, k: nat)
    requires base in files && k <= Slots(n) && Contiguous(files, base, k, Slots(n))
    ensures var r := Rotated(files, base, n, {}); var k' := Min(k + 1, Slots(n));
      && base !in r
      && Contiguous(r, base, k', Slots(n))
      && (forall i: nat :: 1 <= i <= k' ==>
            (Backup(base, i) in r && r[Backup(base, i)] == (if i == 1 then files[base] else files[Backup(base, i - 1)])))
      && (forall p :: p != base && (forall i: nat :: 1 <= i <= Slots(n) ==> p != Backup(base, i)) ==>
            Get(r, p) == Get(files, p))
  {
    var r := Rotated(files, base, n, {});
    RotatedSlot(files, base, n, 1);
    forall i: nat | 1 <= i <= Slots(n)
      ensures Backup(base, i) in r <==> i <= Min(k + 1, Slots(n))
      ensures i <= Min(k + 1, Slots(n)) ==>
        (Backup(base, i) in r && r[Backup(base, i)] == (if i == 1 then files[base] else files[Backup(base, i - 1)]))
    {
      RotatedSlot(files, base, n, i);
    }
    forall p | p != base && (forall i: nat :: 1 <= i <= Slots(n) ==> p != Backup(base, i))
      ensures Get(r, p) == Get(files, p)
    {
      ShiftOther(files, base, n - 1, p);
      var one: nat := 1;
      assert p != Backup(base, one);
    }
  }

  // ----- whole runs -----

  /** What happens to a logger; SetLevel needs the same mutex as a log call. */
  datatype Event = Logs(level: Level, line: Line, env: DiskEnv) | SetsLevel(level: Level)

  const GOOD := DiskEnv({}, true)

  function Apply(s: LogState, c: Config, e: Event): LogState {
    match e
    case Logs(level, line, env) => LogCall(s, c, level, line, env).0
    case SetsLevel(level) => if s.held then s else s.(level := level)
  }

  function Events(s: LogState, c: Config, es: seq<Event>): LogState
    decreases |es|
  {
    if es == [] then s else Events(Apply(s, c, es[0]), c, es[1..])
  }

  function LevelOf(level: Level, e: Event): Level {
    if e.SetsLevel? then e.level else level
  }

  /** The logger's level after a run of events, as long as the lock is free. */
  function LevelAfter(level: Level, es: seq<Event>): Level
    decreases |es|
  {
    if es == [] then level else LevelAfter(LevelOf(level, es[0]), es[1..])
  }

  function PassedBy(level: Level, e: Event): seq<Line> {
    if e.Logs? && Rank(e.level) >= Rank(level) then [e.line] else []
  }

  /** The lines that pass the filter, which SetLevel may move. */
  function PassingLines(level: Level, es: seq<Event>): seq<Line>
    decreases |es|
  {
    if es == [] then [] else PassedBy(level, es[0]) + PassingLines(LevelOf(level, es[0]), es[1..])
  }

  /** Every rename and every open of the run succeeds. */
  ghost predicate DiskWorks(es: seq<Event>) {
    forall i :: 0 <= i < |es| && es[i].Logs? ==> es[i].env == GOOD
  }

  ghost predicate StaysHigh(level: Level, es: seq<Event>) {
    Rank(level) > Rank(INFO) && forall i :: 0 <= i < |es| && es[i].SetsLevel? ==> Rank(es[i].level) > Rank(INFO)
  }

  function Flatten(chunks: seq<seq<Line>>): seq<Line> {
    if chunks == [] then [] else chunks[0] + Flatten(chunks[1..])
  }

  lemma {:induction false} FlattenConcat(a: seq<seq<Line>>, b: seq<seq<Line>>)
    ensures Flatten(a + b) == Flatten(a) + Flatten(b)
  {
    if a == [] {
      assert a + b == b;
    } else {
      assert (a + b)[1..] == a[1..] + b;
      FlattenConcat(a[1..], b);
    }
  }

  /** All lines written so far are the rotated-out `chunks` followed by the current file; the
      backups are the newest chunks, newest first; the counter is the current file's length. */
  ghost predicate Coherent(s: LogState, c: Config, written: seq<Line>, chunks: seq<seq<Line>>) {
    && s.open && !s.held && c.base in s.files
    && written == Flatten(chunks) + s.files[c.base]
    && s.size == Bytes(s.files[c.base])
    && Backups(s.files, c.base, chunks, Slots(c.maxBackups))
  }

  lemma {:induction false} AppendKeeps(s: LogState, c: Config, written: seq<Line>, chunks: seq<seq<Line>>, line: Line)
    requires Coherent(s, c, written, chunks)
    ensures Coherent(s.(files := Appended(s, c.base, line), size := s.size + |line|), c, written + [line], chunks)
  {
    var files := Appended(s, c.base, line);
    BytesSnoc(s.files[c.base], line);
    forall i: nat ensures Backup(c.base, i) in files <==> Backup(c.base, i) in s.files
      ensures Backup(c.base, i) in files ==> files[Backup(c.base, i)] == s.files[Backup(c.base, i)]
    {
      BackupsDiffer(c.base, i, i);
    }
    assert written + [line] == Flatten(chunks) + (s.files[c.base] + [line]);
  }

  /** The backups are the newest chunks, newest first. */
  ghost predicate Backups(files: Files, base: string, chunks: seq<seq<Line>>, m: nat) {
    && Contiguous(files, base, Min(|chunks|, m), m)
    && (forall i: nat :: 1 <= i <= Min(|chunks|, m) ==>
          Backup(base, i) in files && files[Backup(base, i)] == chunks[|chunks| - i])
  }

  /** One slot of a directory whose backups are the newest chunks. */
  lemma {:induction false} BackedUp(files: Files, base: string, chunks: seq<seq<Line>>, m: nat, j: nat)
    requires Backups(files, base, chunks, m) && 1 <= j <= m
    ensures Get(files, Backup(base, j)) == if j <= |chunks| then [chunks[|chunks| - j]] else []
  {
    assert Backup(base, j) in files <==> j <= Min(|chunks|, m);
  }

  lemma {:induction false} RotatedBackup(files: Files, base: string, n: int, chunks: seq<seq<Line>>, i: nat)
    requires base in files && Backups(files, base, chunks, Slots(n)) && 1 <= i <= Slots(n)
    ensures var more := chunks + [files[base]];
      Get(Rotated(files, base, n, {}), Backup(base, i)) == if i <= |more| then [more[|more| - i]] else []
  {
    var more := chunks + [files[base]];
    RotatedSlot(files, base, n, i);
    if i > 1 {
      var j: nat := i - 1;
      BackedUp(files, base, chunks, Slots(n), j);
      BackedUp(files, base, chunks, Slots(n), i);
      if i <= |more| { assert more[|more| - i] == chunks[|chunks| - j]; }
    }
  }

  lemma {:induction false} RotateBackups(files: Files, base: string, n: int, chunks: seq<seq<Line>>)
    requires base in files && Backups(files, base, chunks, Slots(n))
    ensures base !in Rotated(files, base, n, {})
    ensures Backups(Rotated(files, base, n, {}), base, chunks + [files[base]], Slots(n))
  {
    var r := Rotated(files, base, n, {});
    RotatedSlot(files, base, n, 1);
    forall i: nat | 1 <= i <= Slots(n)
      ensures Get(r, Backup(base, i)) == if i <= |chunks| + 1 then [(chunks + [files[base]])[|chunks| + 1 - i]] else []
    {
      RotatedBackup(files, base, n, chunks, i);
    }
  }

  lemma {:induction false} CreateKeepsBackups(files: Files, base: string, chunks: seq<seq<Line>>, m: nat)
    requires Backups(files, base, chunks, m)
    ensures Backups(Created(files, base), base, chunks, m)
  {
    forall i: nat ensures Backup(base, i) != base { BackupsDiffer(base, i, i); }
  }

  lemma {:induction false} RotateKeeps(s: LogState, c: Config, written: seq<Line>, chunks: seq<seq<Line>>)
    requires Coherent(s, c, written, chunks)
    ensures Coherent(s.(files := Created(Rotated(s.files, c.base, c.maxBackups, {}), c.base), size := 0),
                     c, written, chunks + [s.files[c.base]])
  {
    var current := s.files[c.base];
    RotateBackups(s.files, c.base, c.maxBackups, chunks);
    CreateKeepsBackups(Rotated(s.files, c.base, c.maxBackups, {}), c.base, chunks + [current], Slots(c.maxBackups));
    FlattenConcat(chunks, [current]);
    assert Flatten([current]) == current + Flatten([]);
    assert written == Flatten(chunks + [current]) + [];
  }

  /** One call of a logger above INFO whose renames and reopen work keeps the history, returns, and
      leaves the size counter below the limit or at zero. */
  lemma {:induction false} CallKeeps(s: LogState, c: Config, written: seq<Line>, chunks: seq<seq<Line>>, level: Level, line: Line)
    returns (chunks': seq<seq<Line>>)
    requires Coherent(s, c, written, chunks) && Rank(s.level) > Rank(INFO)
    ensures var (z, r) := LogCall(s, c, level, line, GOOD);
      && z.level == s.level && r != Blocked
      && Coherent(z, c, written + PassedBy(s.level, Logs(level, line, GOOD)), chunks')
      && (r == Returned ==> z.size < c.maxSize || z.size == 0)
  {
    chunks' := chunks;
    assert written + [] == written;
    if Rank(level) >= Rank(s.level) {
      AppendKeeps(s, c, written, chunks, line);
      var w := s.(files := Appended(s, c.base, line), size := s.size + |line|);
      if w.size >= c.maxSize {
        RotateKeeps(w, c, written + [line], chunks);
        chunks' := chunks + [w.files[c.base]];
      }
    }
  }

  /** So does every run of calls and SetLevels that stays above INFO. */
  lemma {:induction false} RunKeeps(s: LogState, c: Config, written: seq<Line>, chunks: seq<seq<Line>>, es: seq<Event>)
    returns (chunks': seq<seq<Line>>)
    requires Coherent(s, c, written, chunks) && DiskWorks(es) && StaysHigh(s.level, es)
    ensures Coherent(Events(s, c, es), c, written + PassingLines(s.level, es), chunks')
    decreases |es|
  {
    if es == [] {
      assert written + [] == written;
      return chunks;
    }
    var now := PassedBy(s.level, es[0]);
    var next := chunks;
    if es[0].Logs? {
      next := CallKeeps(s, c, written, chunks, es[0].level, es[0].line);
    } else {
      assert written + now == written;
    }
    var t := Apply(s, c, es[0]);
    chunks' := RunKeeps(t, c, written + now, next, es[1..]);
    assert written + now + PassingLines(t.level, es[1..]) == written + PassingLines(s.level, es);
  }

  // ----- the lock -----

  /** A call on a free logger locks itself up exactly when it passes the filter, reaches the size,
      gets its new file open, and the logger's level lets the rotation message through. */
  lemma {:induction false} BlocksExactlyWhen(s: LogState, c: Config, level: Level, line: Line, env: DiskEnv)
    requires !s.held
    ensures LogCall(s, c, level, line, env).1 == Blocked <==>
              && Rank(level) >= Rank(s.level) && s.size + |line| >= c.maxSize
              && env.reopenOk && Rank(s.level) <= Rank(INFO)
    ensures LogCall(s, c, level, line, env).0.held <==> LogCall(s, c, level, line, env).1 == Blocked
  {
  }

  /** The configured level names that let the rotation message through, and so lock the logger up,
      are all but four; an unknown or empty name is one of them. */
  lemma {:induction false} LockingLevelNames(name: string)
    ensures Rank(ParseLevel(name)) <= Rank(INFO) <==>
            name != "warning" && name != "warn" && name != "error" && name != "fatal"
  {
  }

  /** Once locked up, a logger never writes again and nothing can free it. */
  lemma {:induction false} LockedForEver(s: LogState, c: Config, es: seq<Event>)
    requires s.held
    ensures Events(s, c, es) == s
    decreases |es|
  {
    if es != [] { LockedForEver(s, c, es[1..]); }
  }

  /** A logger whose level stays above INFO never locks up, whatever the disk does. */
  lemma {:induction false} NeverLocksAboveInfo(s: LogState, c: Config, es: seq<Event>)
    requires !s.held && StaysHigh(s.level, es)
    ensures !Events(s, c, es).held
    decreases |es|
  {
    if es != [] {
      assert Rank(Apply(s, c, es[0]).level) > Rank(INFO);
      NeverLocksAboveInfo(Apply(s, c, es[0]), c, es[1..]);
    }
  }

  // ----- runs at or below INFO -----

  /** Event i would rotate: it passes the filter, the bytes so far reach the size, and the new file
      opens. */
  ghost predicate ReopensAt(s: LogState, c: Config, es: seq<Event>, i: nat)
    requires i < |es|
  {
    && es[i].Logs? && es[i].env.reopenOk
    && Rank(es[i].level) >= Rank(LevelAfter(s.level, es[..i]))
    && s.size + Bytes(PassingLines(s.level, es[..i + 1])) >= c.maxSize
  }

  ghost predicate StaysLow(s: LogState, es: seq<Event>) {
    Rank(s.level) <= Rank(INFO) && forall i :: 0 <= i < |es| && es[i].SetsLevel? ==> Rank(es[i].level) <= Rank(INFO)
  }

  /** Before any such event the lock is free, the level is the last one set, and the counter holds
      all bytes that passed, also after rotations whose reopen failed. */
  lemma {:induction false} FreeUntilReopen(s: LogState, c: Config, es: seq<Event>, n: nat)
    requires !s.held && StaysLow(s, es) && n <= |es|
    requires forall i: nat :: i < n ==> !ReopensAt(s, c, es, i)
    ensures var t := Events(s, c, es[..n]);
      && !t.held && t.level == LevelAfter(s.level, es[..n]) && Rank(t.level) <= Rank(INFO)
      && t.size == s.size + Bytes(PassingLines(s.level, es[..n]))
    decreases n
  {
    if n > 0 {
      var last: nat := n - 1;
      FreeUntilReopen(s, c, es, last);
      assert es[..n] == es[..last] + [es[last]];
      EventsSnoc(s, c, es[..last], es[last]);
      PassingSnoc(s.level, es[..last], es[last]);
      PassingBytesSnoc(s.level, es[..last], es[last]);
      assert !ReopensAt(s, c, es, last);
      FreeStep(Events(s, c, es[..last]), c, es[last]);
    }
  }

  lemma {:induction false} FreeStep(t: LogState, c: Config, e: Event)
    requires !t.held && Rank(t.level) <= Rank(INFO)
    requires var passed := PassedBy(t.level, e);
      passed != [] && e.env.reopenOk ==> t.size + Bytes(passed) < c.maxSize
    ensures var z := Apply(t, c, e);
      !z.held && z.level == LevelOf(t.level, e) && z.size == t.size + Bytes(PassedBy(t.level, e))
  {
    if PassedBy(t.level, e) != [] {
      BytesSnoc([], e.line);
      assert [] + [e.line] == [e.line];
    }
  }

  lemma {:induction false} EventsSnoc(s: LogState, c: Config, es: seq<Event>, e: Event)
    ensures Events(s, c, es + [e]) == Apply(Events(s, c, es), c, e)
    decreases |es|
  {
    if es == [] {
      assert es + [e] == [e] && [e][1..] == [];
    } else {
      assert (es + [e])[1..] == es[1..] + [e];
      EventsSnoc(Apply(s, c, es[0]), c, es[1..], e);
    }
  }

  lemma {:induction false} PassingSnoc(level: Level, es: seq<Event>, e: Event)
    ensures LevelAfter(level, es + [e]) == LevelOf(LevelAfter(level, es), e)
    ensures PassingLines(level, es + [e]) == PassingLines(level, es) + PassedBy(LevelAfter(level, es), e)
    decreases |es|
  {
    if es == [] {
      assert es + [e] == [e] && [e][1..] == [];
    } else {
      assert (es + [e])[1..] == es[1..] + [e];
      PassingSnoc(LevelOf(level, es[0]), es[1..], e);
    }
  }

  lemma {:induction false} PassingBytesSnoc(level: Level, es: seq<Event>, e: Event)
    ensures Bytes(PassingLines(level, es + [e])) == Bytes(PassingLines(level, es)) +
              Bytes(PassedBy(LevelAfter(level, es), e))
  {
    var lines := PassingLines(level, es);
    PassingSnoc(level, es, e);
    if PassedBy(LevelAfter(level, es), e) == [] {
      assert lines + [] == lines;
    } else {
      BytesSnoc(lines, e.line);
    }
  }

  lemma {:induction false} EventsConcat(s: LogState, c: Config, a: seq<Event>, b: seq<Event>)
    ensures Events(s, c, a + b) == Events(Events(s, c, a), c, b)
    decreases |a|
  {
    if a == [] {
      assert a + b == b;
    } else {
      assert (a + b)[1..] == a[1..] + b;
      EventsConcat(Apply(s, c, a[0]), c, a[1..], b);
    }
  }

  /** The state in which a call locks up: one shift of the directory with the line appended, and a
      new file. */
  function LockedBy(t: LogState, c: Config, e: Event): LogState
    requires e.Logs?
  {
    t.(files := Created(Rotated(Appended(t, c.base, e.line), c.base, c.maxBackups, e.env.stuck), c.base),
       open := true, size := 0, held := true)
  }

  lemma {:induction false} ReopenStep(t: LogState, c: Config, e: Event)
    requires !t.held && Rank(t.level) <= Rank(INFO)
    requires e.Logs? && e.env.reopenOk && Rank(e.level) >= Rank(t.level) && t.size + |e.line| >= c.maxSize
    ensures Apply(t, c, e) == LockedBy(t, c, e)
  {
  }

  /** The first rotation whose reopen succeeds makes its shift and blocks for ever: the whole rest of
      the run leaves the logger in that state. */
  lemma {:induction false} FirstReopenLocks(s: LogState, c: Config, es: seq<Event>, i: nat)
    requires !s.held && StaysLow(s, es) && i < |es| && ReopensAt(s, c, es, i)
    requires forall j: nat :: j < i ==> !ReopensAt(s, c, es, j)
    ensures var t := Events(s, c, es[..i]); !t.held && Events(s, c, es) == LockedBy(t, c, es[i])
  {
    FreeUntilReopen(s, c, es, i);
    var t := Events(s, c, es[..i]);
    assert es[..i + 1] == es[..i] + [es[i]];
    PassingBytesSnoc(s.level, es[..i], es[i]);
    EventsSnoc(s, c, es[..i], es[i]);
    ReopenStep(t, c, es[i]);
    assert es == es[..i + 1] + es[i + 1..];
    EventsConcat(s, c, es[..i + 1], es[i + 1..]);
    LockedForEver(LockedBy(t, c, es[i]), c, es[i + 1..]);
  }

  lemma {:induction false} FirstReopen(s: LogState, c: Config, es: seq<Event>, n: nat) returns (i: nat)
    requires n < |es| && ReopensAt(s, c, es, n)
    ensures i <= n && ReopensAt(s, c, es, i)
    ensures forall j: nat :: j < i ==> !ReopensAt(s, c, es, j)
    decreases n
  {
    if j: nat :| j < n && ReopensAt(s, c, es, j) {
      i := FirstReopen(s, c, es, j);
    } else {
      i := n;
    }
  }

  /** For every run whose level stays at or below INFO, whatever renames and opens fail and whatever
      the starting size: the logger ends locked up if and only if some call passed the filter with
      the size reached and got its new file open.  So no run completes a rotation. */
  lemma {:induction false} LocksExactlyAtFirstReopen(s: LogState, c: Config, es: seq<Event>)
    requires !s.held && StaysLow(s, es)
    ensures Events(s, c, es).held <==> exists i: nat :: i < |es| && ReopensAt(s, c, es, i)
  {
    if n: nat :| n < |es| && ReopensAt(s, c, es, n) {
      var i := FirstReopen(s, c, es, n);
      FirstReopenLocks(s, c, es, i);
    } else {
      FreeUntilReopen(s, c, es, |es|);
      assert es[..|es|] == es;
    }
  }

  // ----- ... on a disk that works -----

  /** The directory after a rotation of a current file that `lines` were appended to. */
  function RotatedAfter(s: LogState, c: Config, lines: seq<Line>): Files
    requires c.base in s.files
  {
    Created(Rotated(s.files[c.base := s.files[c.base] + lines], c.base, c.maxBackups, {}), c.base)
  }

  ghost predicate RotatedOnce(s: LogState, c: Config, lines: seq<Line>, z: Files)
    requires c.base in s.files
  {
    exists k :: 0 < k <= |lines| && z == RotatedAfter(s, c, lines[..k])
  }

  lemma {:induction false} RotatedLater(s: LogState, t: LogState, c: Config, line: Line, rest: seq<Line>, k: nat)
    requires c.base in s.files && t.files == s.files[c.base := s.files[c.base] + [line]] && k <= |rest|
    ensures RotatedAfter(t, c, rest[..k]) == RotatedAfter(s, c, ([line] + rest)[..k + 1])
  {
    assert ([line] + rest)[..k + 1] == [line] + rest[..k];
    assert t.files[c.base] + rest[..k] == s.files[c.base] + ([line] + rest[..k]);
    assert t.files[c.base := t.files[c.base] + rest[..k]] == s.files[c.base := t.files[c.base] + rest[..k]];
  }

  /** When in addition every rename and open works and the logger starts below the limit, the
      backups stay as they were until it locks up, and it does so exactly when the bytes in the
      file reach the limit.  At that point one shift has been made and nothing follows it. */
  lemma {:induction false} LocksExactlyAtLimit(s: LogState, c: Config, es: seq<Event>)
    requires !s.held && s.open && c.base in s.files && s.size < c.maxSize
    requires StaysLow(s, es) && DiskWorks(es)
    ensures var z := Events(s, c, es); var lines := PassingLines(s.level, es);
      && (z.held <==> s.size + Bytes(lines) >= c.maxSize)
      && (!z.held ==> z.files == s.files[c.base := s.files[c.base] + lines])
      && (z.held ==> RotatedOnce(s, c, lines, z.files))
    decreases |es|
  {
    var lines := PassingLines(s.level, es);
    if es == [] {
      assert s.files[c.base] + [] == s.files[c.base];
      assert s.files[c.base := s.files[c.base]] == s.files;
    } else {
      var t := Apply(s, c, es[0]);
      var rest := PassingLines(LevelOf(s.level, es[0]), es[1..]);
      if PassedBy(s.level, es[0]) == [] {
        assert lines == rest;
        LocksExactlyAtLimit(t, c, es[1..]);
      } else {
        var line := es[0].line;
        assert lines == [line] + rest && lines[1..] == rest;
        if s.size + |line| >= c.maxSize {
          LockedForEver(t, c, es[1..]);
          assert lines[..1] == [line];
          assert t.files == RotatedAfter(s, c, lines[..1]);
        } else {
          LocksExactlyAtLimit(t, c, es[1..]);
          StillBelow(s, t, c, line, rest, Events(t, c, es[1..]));
        }
      }
    }
  }

  /** A line that leaves the file below the limit changes nothing else. */
  lemma {:induction false} StillBelow(s: LogState, t: LogState, c: Config, line: Line, rest: seq<Line>, z: LogState)
    requires c.base in s.files && t.files == s.files[c.base := s.files[c.base] + [line]]
    requires !z.held ==> z.files == t.files[c.base := t.files[c.base] + rest]
    requires z.held ==> RotatedOnce(t, c, rest, z.files)
    ensures !z.held ==> z.files == s.files[c.base := s.files[c.base] + ([line] + rest)]
    ensures z.held ==> RotatedOnce(s, c, [line] + rest, z.files)
  {
    assert t.files[c.base] + rest == s.files[c.base] + ([line] + rest);
    if z.held {
      var k :| 0 < k <= |rest| && z.files == RotatedAfter(t, c, rest[..k]);
      RotatedLater(s, t, c, line, rest, k);
    }
  }
}
