/** The rotating log: file names, the rotation chain, and one call of `log`, as values.

    A file is its sequence of lines.  The answers of the disk to one rotation are the set of paths
    whose rename fails and whether the new file opens. */
module LogSpec {
  import opened FileNames

  datatype Level = DEBUG | INFO | WARNING | ERROR | FATAL

  function Rank(l: Level): nat {
    match l case DEBUG => 0 case INFO => 1 case WARNING => 2 case ERROR => 3 case FATAL => 4
  }

  /** parseLevel: unknown names mean INFO. */
  function ParseLevel(s: string): Level {
    match s
    case "debug" => DEBUG
    case "info" => INFO
    case "warning" => WARNING
    case "warn" => WARNING
    case "error" => ERROR
    case "fatal" => FATAL
    case _ => INFO
  }

  type Line = string
  type Files = map<string, seq<Line>>

  function Bytes(lines: seq<Line>): nat {
    if lines == [] then 0 else |lines[0]| + Bytes(lines[1..])
  }

  lemma {:induction false} BytesSnoc(lines: seq<Line>, l: Line)
    ensures Bytes(lines + [l]) == Bytes(lines) + |l|
  {
    if lines != [] {
      assert (lines + [l])[1..] == lines[1..] + [l];
      BytesSnoc(lines[1..], l);
    }
  }

  // ----- paths -----

  function Backup(base: string, i: nat): string {
    base + "." + Decimal(i)
  }

  lemma {:induction false} BackupsDiffer(base: string, i: nat, j: nat)
    ensures Backup(base, i) == Backup(base, j) ==> i == j
    ensures Backup(base, i) != base
  {
    assert Backup(base, i)[|base| + 1..] == Decimal(i);
    assert Backup(base, j)[|base| + 1..] == Decimal(j);
    DecimalInjective(i, j);
  }

  // ----- rotation -----

  function Rename(files: Files, from: string, to: string, stuck: set<string>): Files {
    if from in files && from !in stuck then files[to := files[from]] - {from} else files
  }

  /** The descending loop: .i to .i+1 for i, i-1, ..., 1. */
  function Shift(files: Files, base: string, i: int, stuck: set<string>): Files
    decreases i
  {
    if i < 1 then files
    else Shift(Rename(files, Backup(base, i), Backup(base, i + 1), stuck), base, i - 1, stuck)
  }

  /** All renames of a rotation. */
  function Rotated(files: Files, base: string, maxBackups: int, stuck: set<string>): Files {
    Rename(Shift(files, base, maxBackups - 1, stuck), base, Backup(base, 1), stuck)
  }

  /** Opening for append, creating the file if it is missing. */
  function Created(files: Files, base: string): Files {
    if base in files then files else files[base := []]
  }

  /** How many backups a rotation can leave: the program always makes .1. */
  function Slots(maxBackups: int): (n: nat)
    ensures n >= 1
  {
    if maxBackups < 1 then 1 else maxBackups
  }

  // ----- one call of log -----

  datatype Config = Config(base: string, maxSize: int, maxBackups: int)

  /** `open`: the logger holds an open file at `base`.  `held`: the mutex is held by a call that
      can never release it. */
  datatype LogState = LogState(files: Files, open: bool, size: int, level: Level, held: bool)

  datatype Outcome = Filtered | Returned | Blocked

  datatype DiskEnv = DiskEnv(stuck: set<string>, reopenOk: bool)

  function Appended(s: LogState, base: string, line: Line): Files {
    if s.open then s.files[base := (if base in s.files then s.files[base] else []) + [line]] else s.files
  }

  /** log: filter, lock, write, and rotate when the size is reached.  Rotation ends by logging at
      INFO through the same mutex: that call is filtered above INFO and never returns otherwise. */
  function LogCall(s: LogState, c: Config, level: Level, line: Line, env: DiskEnv): (LogState, Outcome) {
    if Rank(level) < Rank(s.level) then (s, Filtered)
    else if s.held then (s, Blocked)
    else
      var written := s.(files := Appended(s, c.base, line), size := s.size + |line|);
      if written.size < c.maxSize then (written, Returned)
      else
        var moved := Rotated(written.files, c.base, c.maxBackups, env.stuck);
        if !env.reopenOk then (written.(files := moved, open := false), Returned)
        else
          var renewed := written.(files := Created(moved, c.base), open := true, size := 0);
          if Rank(INFO) < Rank(s.level) then (renewed, Returned) else (renewed.(held := true), Blocked)
  }

  /** NewLogger with the configured level name, on existing files. */
  function Configured(files: Files, c: Config, name: string): LogState {
    NewLogger(files, c, ParseLevel(name))
  }

  /** SetLevel, which waits for ever on a held mutex. */
  function Relevelled(s: LogState, name: string): LogState {
    if s.held then s else s.(level := ParseLevel(name))
  }

  /** NewLogger on existing files, with the level of the name. */
  function NewLogger(files: Files, c: Config, level: Level): LogState {
    var created := Created(files, c.base);
    LogState(created, true, Bytes(created[c.base]), level, false)
  }
}
