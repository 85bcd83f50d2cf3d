/** Which lines a logger with a given level name writes, and what it does while its file is closed. */
module LogLevels {
  import opened LogSpec
  import opened LogLaws

  // ----- level names -----

  /** The five levels, from the least to the most severe. */
  const LEVELS: seq<Level> := [DEBUG, INFO, WARNING, ERROR, FATAL]

  /** The levels that a logger of the given name writes: from that level on. */
  function LetsThrough(name: string): seq<Level> {
    if name == "debug" then LEVELS
    else if name == "warning" || name == "warn" then LEVELS[2..]
    else if name == "error" then LEVELS[3..]
    else if name == "fatal" then LEVELS[4..]
    else LEVELS[1..]
  }

  lemma {:induction false} LetsThroughIsFilter(name: string, level: Level)
    ensures level in LetsThrough(name) <==> Rank(level) >= Rank(ParseLevel(name))
  {
    assert LEVELS[0] == DEBUG && LEVELS[1] == INFO && LEVELS[2] == WARNING && LEVELS[3] == ERROR && LEVELS[4] == FATAL;
    assert LEVELS[1..] == [INFO, WARNING, ERROR, FATAL] && LEVELS[2..] == [WARNING, ERROR, FATAL];
    assert LEVELS[3..] == [ERROR, FATAL] && LEVELS[4..] == [FATAL];
  }

  /** A call is filtered exactly when its level is not among those of the configured name, for a new
      logger and for one whose level was set by name. */
  lemma {:induction false} FilteredByName(files: Files, s: LogState, c: Config, name: string, level: Level, line: Line, env: DiskEnv)
    requires !s.held
    ensures LogCall(Configured(files, c, name), c, level, line, env).1 == Filtered <==> level !in LetsThrough(name)
    ensures LogCall(Relevelled(s, name), c, level, line, env).1 == Filtered <==> level !in LetsThrough(name)
  {
    LetsThroughIsFilter(name, level);
  }

  /** A filtered call changes nothing; one that is let through and stays below the limit appends its
      line to the current file, counts it, and changes nothing else. */
  lemma {:induction false} WritesByName(s: LogState, c: Config, name: string, level: Level, line: Line, env: DiskEnv)
    requires !s.held && s.open && c.base in s.files && s.size + |line| < c.maxSize
    ensures var t := Relevelled(s, name); var (z, r) := LogCall(t, c, level, line, env);
      if level in LetsThrough(name) then
        && r == Returned && z == t.(files := z.files, size := s.size + |line|)
        && z.files.Keys == s.files.Keys
        && z.files[c.base] == s.files[c.base] + [line]
        && (forall p :: p in s.files && p != c.base ==> z.files[p] == s.files[p])
      else
        r == Filtered && z == t
  {
    LetsThroughIsFilter(name, level);
  }

  /** On a locked-up logger a call whose level is let through never returns, and no call changes
      anything; SetLevel does not either. */
  lemma {:induction false} LockedCallsWait(s: LogState, c: Config, other: string, name: string, level: Level, line: Line, env: DiskEnv)
    requires s.held && s.level == ParseLevel(name)
    ensures LogCall(s, c, level, line, env) == (s, if level in LetsThrough(name) then Blocked else Filtered)
    ensures Relevelled(s, other) == s
  {
    LetsThroughIsFilter(name, level);
  }

  /** What callers do: log at a level, or set the level by name. */
  datatype Said = Says(level: Level, line: Line, env: DiskEnv) | Sets(name: string)

  function EventOf(x: Said): Event {
    match x
    case Says(level, line, env) => Logs(level, line, env)
    case Sets(name) => SetsLevel(ParseLevel(name))
  }

  function EventsOf(xs: seq<Said>): seq<Event> {
    if xs == [] then [] else [EventOf(xs[0])] + EventsOf(xs[1..])
  }

  /** The lines whose level is let through by the name in force when they are logged. */
  function Selected(name: string, xs: seq<Said>): seq<Line>
    decreases |xs|
  {
    if xs == [] then []
    else if xs[0].Sets? then Selected(xs[0].name, xs[1..])
    else (if xs[0].level in LetsThrough(name) then [xs[0].line] else []) + Selected(name, xs[1..])
  }

  /** The lines that pass in a run are a function of the names alone. */
  lemma {:induction false} PassingByName(name: string, xs: seq<Said>)
    ensures PassingLines(ParseLevel(name), EventsOf(xs)) == Selected(name, xs)
    decreases |xs|
  {
    if xs != [] {
      var es := EventsOf(xs);
      assert es[0] == EventOf(xs[0]) && es[1..] == EventsOf(xs[1..]);
      if xs[0].Says? { LetsThroughIsFilter(name, xs[0].level); }
      PassingByName(if xs[0].Sets? then xs[0].name else name, xs[1..]);
      assert xs[0].Sets? ==> [] + Selected(xs[0].name, xs[1..]) == Selected(name, xs);
    }
  }

  // ----- while the file is closed -----

  /** Every file of z was a file of s, possibly under another name, or under this one. */
  ghost predicate NothingNew(s: Files, z: Files) {
    forall p :: p in z ==> exists q :: q in s && s[q] == z[p]
  }

  lemma {:induction false} NothingNewTrans(s: Files, t: Files, z: Files)
    requires NothingNew(s, t) && NothingNew(t, z)
    ensures NothingNew(s, z)
  {
    forall p | p in z ensures exists q :: q in s && s[q] == z[p] {
      var q :| q in t && t[q] == z[p];
    }
  }

  lemma {:induction false} RenameNothingNew(s: Files, files: Files, from: string, to: string, stuck: set<string>)
    requires NothingNew(s, files)
    ensures NothingNew(s, Rename(files, from, to, stuck))
  {
    var z := Rename(files, from, to, stuck);
    forall p | p in z ensures exists q :: q in s && s[q] == z[p] {
      assert if p == to && z != files then from in files && z[p] == files[from] else p in files && z[p] == files[p];
    }
  }

  lemma {:induction false} ShiftNothingNew(s: Files, files: Files, base: string, i: int, stuck: set<string>)
    requires NothingNew(s, files)
    ensures NothingNew(s, Shift(files, base, i, stuck))
    decreases i
  {
    if i >= 1 {
      RenameNothingNew(s, files, Backup(base, i), Backup(base, i + 1), stuck);
      ShiftNothingNew(s, Rename(files, Backup(base, i), Backup(base, i + 1), stuck), base, i - 1, stuck);
    }
  }

  /** A rotation whose reopen fails leaves the file closed and the counter as it was.  Until a reopen
      succeeds no line reaches any file, however many pass; the counter goes on counting them. */
  lemma {:induction false} ClosedWritesNothing(s: LogState, c: Config, es: seq<Event>)
    requires !s.held && !s.open && s.size >= c.maxSize
    requires forall i :: 0 <= i < |es| && es[i].Logs? ==> !es[i].env.reopenOk
    ensures var z := Events(s, c, es);
      && !z.held && !z.open && NothingNew(s.files, z.files)
      && z.size == s.size + Bytes(PassingLines(s.level, es))
    decreases |es|
  {
    if es != [] {
      var t := Apply(s, c, es[0]);
      ClosedStep(s, c, es[0]);
      ClosedWritesNothing(t, c, es[1..]);
      NothingNewTrans(s.files, t.files, Events(t, c, es[1..]).files);
      BytesConcat(PassedBy(s.level, es[0]), PassingLines(t.level, es[1..]));
    }
  }

  lemma {:induction false} BytesConcat(a: seq<Line>, b: seq<Line>)
    ensures Bytes(a + b) == Bytes(a) + Bytes(b)
  {
    if a == [] {
      assert a + b == b;
    } else {
      assert (a + b)[1..] == a[1..] + b;
      BytesConcat(a[1..], b);
    }
  }

  lemma {:induction false} ClosedStep(s: LogState, c: Config, e: Event)
    requires !s.held && !s.open && s.size >= c.maxSize && (e.Logs? ==> !e.env.reopenOk)
    ensures var z := Apply(s, c, e);
      && !z.held && !z.open && z.level == LevelOf(s.level, e) && NothingNew(s.files, z.files)
      && z.size == s.size + Bytes(PassedBy(s.level, e))
  {
    if PassedBy(s.level, e) != [] {
      assert Bytes([e.line]) == |e.line| + Bytes([e.line][1..]);
      ShiftNothingNew(s.files, s.files, c.base, c.maxBackups - 1, e.env.stuck);
      RenameNothingNew(s.files, Shift(s.files, c.base, c.maxBackups - 1, e.env.stuck), c.base, Backup(c.base, 1), e.env.stuck);
    }
  }

  /** A rotation leaves the file open exactly when its reopen works, and only then with the counter
      at zero; whether the file was open before makes no difference. */
  lemma {:induction false} OpenExactlyAfterReopen(s: LogState, c: Config, level: Level, line: Line, env: DiskEnv)
    requires !s.held && Rank(level) >= Rank(s.level) && s.size + |line| >= c.maxSize
    ensures var z := LogCall(s, c, level, line, env).0;
      z.open == env.reopenOk && z.size == (if env.reopenOk then 0 else s.size + |line|) && z.level == s.level
  {
  }
}
