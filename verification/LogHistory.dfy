/** What the rotated files keep of everything written: over any number of processes, killed
    anywhere, and for any answers of the disk. */
module LogHistory {
  import opened LogSpec
  import opened LogLaws
  import opened LogRenames

  // ----- runs, for any answers of the disk -----

  predicate Passes(s: LogState, level: Level) {
    Rank(level) >= Rank(s.level) && !s.held
  }

  /** The line that the event adds to the log: none when it is filtered, when the logger has locked
      itself up, or when its file is closed since a reopen failed. */
  function WrittenBy(s: LogState, e: Event): seq<Line> {
    if e.Logs? && Passes(s, e.level) && s.open then [e.line] else []
  }

  function Written(s: LogState, c: Config, es: seq<Event>): seq<Line>
    decreases |es|
  {
    if es == [] then [] else WrittenBy(s, es[0]) + Written(Apply(s, c, es[0]), c, es[1..])
  }

  /** The renames of the rotation that a call makes, down to slot `to`, are harmless. */
  ghost predicate HarmlessCall(s: LogState, c: Config, level: Level, line: Line, to: nat, stuck: set<string>) {
    Passes(s, level) && s.size + |line| >= c.maxSize ==>
      HarmlessMoves(Appended(s, c.base, line), c.base, Slots(c.maxBackups), Slots(c.maxBackups) - 1, to, stuck)
  }

  ghost predicate HarmlessRun(s: LogState, c: Config, es: seq<Event>)
    decreases |es|
  {
    es == [] ||
    (&& (es[0].Logs? ==> HarmlessCall(s, c, es[0].level, es[0].line, 0, es[0].env.stuck))
     && HarmlessRun(Apply(s, c, es[0]), c, es[1..]))
  }

  lemma {:induction false} AppendedRetained(s: LogState, base: string, line: Line, n: nat)
    ensures Retained(Appended(s, base, line), base, n) == Retained(s.files, base, n) + (if s.open then [line] else [])
  {
    var z := Appended(s, base, line);
    forall j: nat | 1 <= j <= n ensures LinesAt(z, Slot(base, j)) == LinesAt(s.files, Slot(base, j)) {
      SlotsDiffer(base, j, 0);
    }
    SpanFrame(z, s.files, base, n, 1);
    SpanSplit(z, base, n, 1, 0);
    SpanSplit(s.files, base, n, 1, 0);
    assert Span(z, base, 0, 0) == LinesAt(z, base);
    assert Span(s.files, base, 0, 0) == LinesAt(s.files, base);
    Assoc(Span(s.files, base, n, 1), LinesAt(s.files, base), if s.open then [line] else []);
  }

  lemma {:induction false} CreatedRetained(files: Files, base: string, n: nat)
    ensures Retained(Created(files, base), base, n) == Retained(files, base, n)
  {
    SpanFrame(Created(files, base), files, base, n, 0);
  }

  /** One call, or one cut off after some renames. */
  lemma {:induction false} CallKeepsSuffix(s: LogState, c: Config, level: Level, line: Line, to: nat, stuck: set<string>)
    requires Passes(s, level) && HarmlessCall(s, c, level, line, to, stuck)
    ensures var n := Slots(c.maxBackups); var w := Appended(s, c.base, line);
      var z := if s.size + |line| < c.maxSize then w else Moves(w, c.base, n - 1, to, stuck);
      IsSuffix(Retained(z, c.base, n), Retained(s.files, c.base, n) + (if s.open then [line] else []))
  {
    var n := Slots(c.maxBackups);
    AppendedRetained(s, c.base, line, n);
    if s.size + |line| >= c.maxSize {
      HarmlessMovesKeep(Appended(s, c.base, line), c.base, n, n - 1, to, stuck);
    }
  }

  /** A full call leaves the retained lines of its write and its renames. */
  lemma {:induction false} CallRetained(s: LogState, c: Config, level: Level, line: Line, env: DiskEnv)
    requires Passes(s, level)
    ensures var n := Slots(c.maxBackups); var w := Appended(s, c.base, line);
      var z := if s.size + |line| < c.maxSize then w else Moves(w, c.base, n - 1, 0, env.stuck);
      Retained(LogCall(s, c, level, line, env).0.files, c.base, n) == Retained(z, c.base, n)
  {
    var w := Appended(s, c.base, line);
    RotatedIsMoves(w, c.base, c.maxBackups, env.stuck);
    CreatedRetained(Rotated(w, c.base, c.maxBackups, env.stuck), c.base, Slots(c.maxBackups));
  }

  lemma {:induction false} EventKeepsSuffix(s: LogState, c: Config, e: Event)
    requires e.Logs? ==> HarmlessCall(s, c, e.level, e.line, 0, e.env.stuck)
    ensures var n := Slots(c.maxBackups);
      IsSuffix(Retained(Apply(s, c, e).files, c.base, n), Retained(s.files, c.base, n) + WrittenBy(s, e))
  {
    if e.Logs? && Passes(s, e.level) {
      CallKeepsSuffix(s, c, e.level, e.line, 0, e.env.stuck);
      CallRetained(s, c, e.level, e.line, e.env);
    } else {
      var all := Retained(s.files, c.base, Slots(c.maxBackups));
      assert all + [] == all;
    }
  }

  lemma {:induction false} RunKeepsSuffix(s: LogState, c: Config, es: seq<Event>)
    requires HarmlessRun(s, c, es)
    ensures var n := Slots(c.maxBackups);
      IsSuffix(Retained(Events(s, c, es).files, c.base, n), Retained(s.files, c.base, n) + Written(s, c, es))
    decreases |es|
  {
    if es != [] {
      var n, t := Slots(c.maxBackups), Apply(s, c, es[0]);
      EventKeepsSuffix(s, c, es[0]);
      RunKeepsSuffix(t, c, es[1..]);
      SuffixChain(Retained(Events(s, c, es).files, c.base, n), Retained(t.files, c.base, n), Retained(s.files, c.base, n),
                  WrittenBy(s, es[0]), Written(t, c, es[1..]));
    }
  }

  lemma {:induction false} SuffixChain(z: seq<Line>, t: seq<Line>, s: seq<Line>, first: seq<Line>, more: seq<Line>)
    requires IsSuffix(t, s + first) && IsSuffix(z, t + more)
    ensures IsSuffix(z, s + (first + more))
  {
    SuffixAppend(t, s + first, more);
    SuffixTrans(z, t + more, s + first + more);
    assert s + first + more == s + (first + more);
  }

  // ----- over any number of processes -----

  /** A process ends between two calls, or is killed inside one: after its write and the renames
      down to slot `to`, none at all if `to` is large. */
  datatype End = Quits | Killed(level: Level, line: Line, to: nat, stuck: set<string>)

  datatype Process = Process(level: Level, es: seq<Event>, end: End)

  function AtEnd(s: LogState, c: Config, end: End): Files {
    if end.Quits? || Rank(end.level) < Rank(s.level) || s.held then s.files
    else
      var w := Appended(s, c.base, end.line);
      if s.size + |end.line| < c.maxSize then w else Moves(w, c.base, Slots(c.maxBackups) - 1, end.to, end.stuck)
  }

  function WrittenAtEnd(s: LogState, end: End): seq<Line> {
    if end.Killed? && Passes(s, end.level) && s.open then [end.line] else []
  }

  /** The logger of a process before its end. */
  function LastState(files: Files, c: Config, p: Process): LogState {
    Events(NewLogger(files, c, p.level), c, p.es)
  }

  function Lives(files: Files, c: Config, ps: seq<Process>): Files
    decreases |ps|
  {
    if ps == [] then files else Lives(AtEnd(LastState(files, c, ps[0]), c, ps[0].end), c, ps[1..])
  }

  function WrittenInLife(files: Files, c: Config, p: Process): seq<Line> {
    Written(NewLogger(files, c, p.level), c, p.es) + WrittenAtEnd(LastState(files, c, p), p.end)
  }

  function WrittenInLives(files: Files, c: Config, ps: seq<Process>): seq<Line>
    decreases |ps|
  {
    if ps == [] then []
    else WrittenInLife(files, c, ps[0]) + WrittenInLives(AtEnd(LastState(files, c, ps[0]), c, ps[0].end), c, ps[1..])
  }

  ghost predicate HarmlessEnd(s: LogState, c: Config, end: End) {
    end.Killed? ==> HarmlessCall(s, c, end.level, end.line, end.to, end.stuck)
  }

  ghost predicate HarmlessLife(files: Files, c: Config, p: Process) {
    HarmlessRun(NewLogger(files, c, p.level), c, p.es) && HarmlessEnd(LastState(files, c, p), c, p.end)
  }

  ghost predicate HarmlessLives(files: Files, c: Config, ps: seq<Process>)
    decreases |ps|
  {
    ps == [] ||
    (HarmlessLife(files, c, ps[0]) && HarmlessLives(AtEnd(LastState(files, c, ps[0]), c, ps[0].end), c, ps[1..]))
  }

  lemma {:induction false} LifeKeepsSuffix(files: Files, c: Config, p: Process)
    requires HarmlessLife(files, c, p)
    ensures var n := Slots(c.maxBackups);
      IsSuffix(Retained(AtEnd(LastState(files, c, p), c, p.end), c.base, n),
               Retained(files, c.base, n) + WrittenInLife(files, c, p))
  {
    var n := Slots(c.maxBackups);
    var s, z := NewLogger(files, c, p.level), LastState(files, c, p);
    CreatedRetained(files, c.base, n);
    RunKeepsSuffix(s, c, p.es);
    if p.end.Killed? && Passes(z, p.end.level) {
      CallKeepsSuffix(z, c, p.end.level, p.end.line, p.end.to, p.end.stuck);
    }
    SuffixChain(Retained(AtEnd(z, c, p.end), c.base, n), Retained(z.files, c.base, n), Retained(files, c.base, n),
                Written(s, c, p.es), WrittenAtEnd(z, p.end));
  }

  /** Log history, for any directory, any levels, any answers of the disk, and any number of
      processes, killed anywhere: the backups oldest to newest and the current file are a suffix of
      what was there and everything written, as long as every rename is harmless. */
  lemma {:induction false} HarmlessHistory(files: Files, c: Config, ps: seq<Process>)
    requires HarmlessLives(files, c, ps)
    ensures var n := Slots(c.maxBackups);
      IsSuffix(Retained(Lives(files, c, ps), c.base, n),
               Retained(files, c.base, n) + WrittenInLives(files, c, ps))
    decreases |ps|
  {
    if ps != [] {
      var n, next := Slots(c.maxBackups), AtEnd(LastState(files, c, ps[0]), c, ps[0].end);
      LifeKeepsSuffix(files, c, ps[0]);
      HarmlessHistory(next, c, ps[1..]);
      SuffixChain(Retained(Lives(files, c, ps), c.base, n), Retained(next, c.base, n), Retained(files, c.base, n),
                  WrittenInLife(files, c, ps[0]), WrittenInLives(next, c, ps[1..]));
    }
  }

  /** Two backups of one line each and an empty current file. */
  function TwoFull(base: string, a: Line, b: Line): Files {
    map[base := [], Backup(base, 2) := [a], Backup(base, 1) := [b]]
  }

  /** Otherwise it need not be: with .1 stuck, the current file replaces .1 while .2 keeps an older
      line, and the line in between is missing. */
  lemma {:induction false} StuckBackupLeavesGap(base: string, a: Line, b: Line, line: Line)
    requires a != b && line != ""
    ensures var c := Config(base, 1, 2); var s := NewLogger(TwoFull(base, a, b), c, ERROR);
            var z := LogCall(s, c, ERROR, line, DiskEnv({Backup(base, 1)}, true)).0;
      && Retained(s.files, base, 2) == [a, b] && Retained(z.files, base, 2) == [a, line]
      && !IsSuffix(Retained(z.files, base, 2), Retained(s.files, base, 2) + [line])
  {
    var c := Config(base, 1, 2);
    var s := NewLogger(TwoFull(base, a, b), c, ERROR);
    var z := LogCall(s, c, ERROR, line, DiskEnv({Backup(base, 1)}, true)).0;
    SlotsDiffer(base, 0, 1);
    SlotsDiffer(base, 0, 2);
    SlotsDiffer(base, 1, 2);
    StuckCall(s, c, line);
    assert [] + [line] == [line];
    ThreeFiles(s.files, base, [a], [b], []);
    ThreeFiles(z.files, base, [a], [line], []);
    assert [a] + ([b] + []) == [a, b] && [a] + ([line] + []) == [a, line];
    MissingMiddle(a, b, line);
  }

  lemma {:induction false} MissingMiddle(a: Line, b: Line, line: Line)
    requires a != b
    ensures !IsSuffix([a, line], [a, b] + [line])
  {
    assert ([a, b] + [line])[1..][0] == b;
  }

  lemma {:induction false} StuckCall(s: LogState, c: Config, line: Line)
    requires s.open && !s.held && s.level == ERROR && c.base in s.files && s.size + |line| >= c.maxSize && c.maxBackups == 2
    ensures LogCall(s, c, ERROR, line, DiskEnv({Backup(c.base, 1)}, true)).0.files ==
            s.files[Backup(c.base, 1) := s.files[c.base] + [line]][c.base := []]
  {
    StuckRotation(Appended(s, c.base, line), c.base);
    SlotsDiffer(c.base, 0, 1);
  }

  lemma {:induction false} StuckRotation(files: Files, base: string)
    requires base in files
    ensures Rotated(files, base, 2, {Backup(base, 1)}) == files[Backup(base, 1) := files[base]] - {base}
  {
    assert Shift(files, base, 1, {Backup(base, 1)}) == files;
    SlotsDiffer(base, 0, 1);
  }

  lemma {:induction false} ThreeFiles(files: Files, base: string, two: seq<Line>, one: seq<Line>, current: seq<Line>)
    requires LinesAt(files, Backup(base, 2)) == two && LinesAt(files, Backup(base, 1)) == one && LinesAt(files, base) == current
    ensures Retained(files, base, 2) == two + (one + current)
  {
    assert Span(files, base, 0, 0) == current + Span(files, base, -1, 0);
    assert Span(files, base, 1, 0) == one + Span(files, base, 0, 0);
  }

  // ----- on a disk that works, above INFO -----

  /** The logger's file is open, its lock free, and its counter exact. */
  ghost predicate Sound(s: LogState, c: Config) {
    s.open && !s.held && c.base in s.files && s.size == Bytes(s.files[c.base])
  }

  ghost predicate WithinLimit(s: LogState, c: Config) {
    s.size < c.maxSize || s.size == 0
  }

  lemma {:induction false} WorkingCallIsHarmless(s: LogState, c: Config, level: Level, line: Line, to: nat)
    ensures HarmlessCall(s, c, level, line, to, {})
  {
    var n := Slots(c.maxBackups);
    StuckTogetherIsHarmless(Appended(s, c.base, line), c.base, n, n - 1, to, {});
  }

  lemma {:induction false} WorkingCallIsSound(s: LogState, c: Config, level: Level, line: Line)
    requires Sound(s, c) && Rank(s.level) > Rank(INFO)
    ensures var (z, r) := LogCall(s, c, level, line, GOOD);
      Sound(z, c) && z.level == s.level && (r == Filtered || WithinLimit(z, c))
  {
    if Rank(level) >= Rank(s.level) {
      BytesSnoc(s.files[c.base], line);
      RotatedSlot(Appended(s, c.base, line), c.base, c.maxBackups, 1);
    }
  }

  /** Every run above INFO on a working disk writes exactly the lines that pass the filter. */
  lemma {:induction false} WorkingRun(s: LogState, c: Config, es: seq<Event>)
    requires Sound(s, c) && DiskWorks(es) && StaysHigh(s.level, es)
    ensures HarmlessRun(s, c, es) && Written(s, c, es) == PassingLines(s.level, es)
    ensures var z := Events(s, c, es);
      && Sound(z, c) && z.level == LevelAfter(s.level, es) && Rank(z.level) > Rank(INFO)
      && (WithinLimit(s, c) || PassingLines(s.level, es) != [] ==> WithinLimit(z, c))
    decreases |es|
  {
    if es != [] {
      if es[0].Logs? {
        WorkingCallIsHarmless(s, c, es[0].level, es[0].line, 0);
        WorkingCallIsSound(s, c, es[0].level, es[0].line);
      }
      WorkingRun(Apply(s, c, es[0]), c, es[1..]);
    }
  }

  ghost predicate WorkingEnd(end: End) {
    end.Killed? ==> end.stuck == {}
  }

  ghost predicate WorkingLives(ps: seq<Process>) {
    forall i :: 0 <= i < |ps| ==> DiskWorks(ps[i].es) && StaysHigh(ps[i].level, ps[i].es) && WorkingEnd(ps[i].end)
  }

  /** The lines of a process that pass the filter, by its levels alone. */
  function PassingInLife(p: Process): seq<Line> {
    PassingLines(p.level, p.es) +
    if p.end.Killed? then PassedBy(LevelAfter(p.level, p.es), Logs(p.end.level, p.end.line, GOOD)) else []
  }

  function PassingInLives(ps: seq<Process>): seq<Line> {
    if ps == [] then [] else PassingInLife(ps[0]) + PassingInLives(ps[1..])
  }

  lemma {:induction false} WorkingLivesWrite(files: Files, c: Config, ps: seq<Process>)
    requires WorkingLives(ps)
    ensures HarmlessLives(files, c, ps) && WrittenInLives(files, c, ps) == PassingInLives(ps)
    decreases |ps|
  {
    if ps != [] {
      var p, z := ps[0], LastState(files, c, ps[0]);
      WorkingRun(NewLogger(files, c, p.level), c, p.es);
      if p.end.Killed? {
        WorkingCallIsHarmless(z, c, p.end.level, p.end.line, p.end.to);
      }
      WorkingLivesWrite(AtEnd(z, c, p.end), c, ps[1..]);
    }
  }

  /** On a working disk, for every directory to start from, every number of processes above INFO,
      each killed anywhere, and every run of one more: the backups oldest to newest and the current
      file are a suffix of what was there and every line that passed the filter, the lock is free,
      the counter is exact, and it is below the limit or zero once a line has passed. */
  lemma {:induction false} LogHistory(files: Files, c: Config, ps: seq<Process>, level: Level, es: seq<Event>)
    requires WorkingLives(ps) && DiskWorks(es) && StaysHigh(level, es)
    ensures var z := Events(NewLogger(Lives(files, c, ps), c, level), c, es);
      && IsSuffix(Retained(z.files, c.base, Slots(c.maxBackups)),
                  Retained(files, c.base, Slots(c.maxBackups)) + (PassingInLives(ps) + PassingLines(level, es)))
      && Sound(z, c) && (PassingLines(level, es) != [] ==> WithinLimit(z, c))
  {
    var n, before := Slots(c.maxBackups), Lives(files, c, ps);
    var s := NewLogger(before, c, level);
    WorkingLivesWrite(files, c, ps);
    HarmlessHistory(files, c, ps);
    WorkingRun(s, c, es);
    RunKeepsSuffix(s, c, es);
    CreatedRetained(before, c.base, n);
    SuffixChain(Retained(Events(s, c, es).files, c.base, n), Retained(before, c.base, n), Retained(files, c.base, n),
                PassingInLives(ps), PassingLines(level, es));
  }

  // ----- the chain, file by file -----

  /** The backups .k to .1 of a directory, oldest first. */
  function Chunks(files: Files, base: string, k: nat): (r: seq<seq<Line>>) {
    seq(k, j requires 0 <= j < k => LinesAt(files, Backup(base, k - j)))
  }

  lemma {:induction false} RestartKeeps(s: LogState, c: Config, written: seq<Line>, chunks: seq<seq<Line>>, level: Level)
    requires Coherent(s, c, written, chunks)
    ensures Coherent(NewLogger(s.files, c, level), c, written, chunks)
  {
  }

  lemma {:induction false} LifeKeepsChain(files: Files, c: Config, written: seq<Line>, chunks: seq<seq<Line>>, p: Process, level: Level)
    returns (chunks': seq<seq<Line>>)
    requires Coherent(NewLogger(files, c, level), c, written, chunks)
    requires DiskWorks(p.es) && StaysHigh(p.level, p.es) && p.end.Quits?
    ensures Coherent(NewLogger(AtEnd(LastState(files, c, p), c, p.end), c, level), c, written + PassingInLife(p), chunks')
  {
    chunks' := RunKeeps(NewLogger(files, c, p.level), c, written, chunks, p.es);
    RestartKeeps(LastState(files, c, p), c, written + PassingLines(p.level, p.es), chunks', level);
    assert PassingInLife(p) == PassingLines(p.level, p.es);
  }

  lemma {:induction false} LivesKeepChain(files: Files, c: Config, written: seq<Line>, chunks: seq<seq<Line>>,
                                          ps: seq<Process>, level: Level)
    returns (chunks': seq<seq<Line>>)
    requires Coherent(NewLogger(files, c, level), c, written, chunks)
    requires WorkingLives(ps) && forall i :: 0 <= i < |ps| ==> ps[i].end.Quits?
    ensures Coherent(NewLogger(Lives(files, c, ps), c, level), c, written + PassingInLives(ps), chunks')
    decreases |ps|
  {
    if ps == [] {
      assert written + [] == written;
      chunks' := chunks;
    } else {
      var first := PassingInLife(ps[0]);
      var next := LifeKeepsChain(files, c, written, chunks, ps[0], level);
      chunks' := LivesKeepChain(AtEnd(LastState(files, c, ps[0]), c, ps[0].end), c, written + first, next, ps[1..], level);
      assert (written + first) + PassingInLives(ps[1..]) == written + (first + PassingInLives(ps[1..]));
    }
  }

  lemma {:induction false} ChainStarts(files: Files, c: Config, k: nat, level: Level)
    requires k <= Slots(c.maxBackups) && Contiguous(files, c.base, k, Slots(c.maxBackups))
    ensures Coherent(NewLogger(files, c, level), c, Flatten(Chunks(files, c.base, k)) + LinesAt(files, c.base),
                     Chunks(files, c.base, k))
  {
    var chunks, m := Chunks(files, c.base, k), Slots(c.maxBackups);
    forall i: nat | 1 <= i <= Min(|chunks|, m)
      ensures Backup(c.base, i) in files && files[Backup(c.base, i)] == chunks[|chunks| - i]
    {
      assert Backup(c.base, i) in files <==> i <= k;
      assert chunks[k - i] == LinesAt(files, Backup(c.base, k - (k - i)));
    }
    CreateKeepsBackups(files, c.base, chunks, m);
  }

  /** When no process is killed inside a call, the chain stays contiguous too: started from backups
      .1 to .k, the backups after any number of working processes are, newest first, the newest of
      the chunks into which rotation has cut all lines. */
  lemma {:induction false} ChainHistory(files: Files, c: Config, k: nat, ps: seq<Process>, level: Level, es: seq<Event>)
    returns (chunks: seq<seq<Line>>)
    requires k <= Slots(c.maxBackups) && Contiguous(files, c.base, k, Slots(c.maxBackups))
    requires WorkingLives(ps) && (forall i :: 0 <= i < |ps| ==> ps[i].end.Quits?)
    requires DiskWorks(es) && StaysHigh(level, es)
    ensures var start := Flatten(Chunks(files, c.base, k)) + LinesAt(files, c.base);
      Coherent(Events(NewLogger(Lives(files, c, ps), c, level), c, es), c,
               start + PassingInLives(ps) + PassingLines(level, es), chunks)
  {
    var start := Flatten(Chunks(files, c.base, k)) + LinesAt(files, c.base);
    ChainStarts(files, c, k, level);
    var before := LivesKeepChain(files, c, start, Chunks(files, c.base, k), ps, level);
    chunks := RunKeeps(NewLogger(Lives(files, c, ps), c, level), c, start + PassingInLives(ps), before, es);
  }
}
