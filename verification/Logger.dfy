/** The logger object: a mutex, a file, a size counter, and a rotation that re-enters `log`. */
module Logger {
  import opened LogSpec

  class LogDir {
    var files: Files

    constructor (files: Files)
      ensures this.files == files
    {
      this.files := files;
    }

    /** os.Rename: fails when the source is missing or the system refuses. */
    method Move(from: string, to: string, stuck: set<string>)
      modifies this
      ensures files == Rename(old(files), from, to, stuck)
    {
      if from in files && from !in stuck {
        files := files[to := files[from]] - {from};
      }
    }
  }

  class Logger {
    const c: Config
    const dir: LogDir
    var mu: bool          // the mutex is held
    var open: bool
    var level: Level
    var currentSize: int

    function State(): LogState
      reads this, dir
    {
      LogState(dir.files, open, currentSize, level, mu)
    }

    constructor (dir: LogDir, c: Config, level: string)
      modifies dir
      ensures this.dir == dir && this.c == c
      ensures State() == Configured(old(dir.files), c, level)
    {
      this.dir, this.c := dir, c;
      this.level := ParseLevel(level);
      this.mu, this.open := false, true;
      this.currentSize := 0;
      new;
      dir.files := Created(dir.files, c.base);
      currentSize := Bytes(dir.files[c.base]);
    }

    /** log.  `r == Blocked` means that the call never returns: it waits for a mutex that its own
        caller, or an earlier call stuck in the same way, holds for ever. */
    method Log(lvl: Level, line: Line, env: DiskEnv) returns (r: Outcome)
      modifies this, dir
      ensures (State(), r) == LogCall(old(State()), c, lvl, line, env)
      decreases if mu then 0 else 2
    {
      if Rank(lvl) < Rank(level) {
        return Filtered;
      }
      if mu {
        return Blocked;
      }
      mu := true;
      if open {
        dir.files := dir.files[c.base := (if c.base in dir.files then dir.files[c.base] else []) + [line]];
      }
      currentSize := currentSize + |line|;
      if currentSize >= c.maxSize {
        var blocked := Rotate(env);
        if blocked {
          return Blocked;
        }
      }
      mu := false;
      return Returned;
    }

    /** rotate, called with the mutex held. */
    method Rotate(env: DiskEnv) returns (blocked: bool)
      requires mu
      modifies this, dir
      ensures mu && level == old(level)
      ensures var moved := Rotated(old(dir.files), c.base, c.maxBackups, env.stuck);
        if env.reopenOk then
          dir.files == Created(moved, c.base) && open && currentSize == 0 && blocked == (Rank(level) <= Rank(INFO))
        else
          dir.files == moved && !open && currentSize == old(currentSize) && !blocked
      decreases 1
    {
      open := false;
      var i := c.maxBackups - 1;
      while i >= 1
        invariant mu && !open && level == old(level) && currentSize == old(currentSize)
        invariant Shift(dir.files, c.base, i, env.stuck) == Shift(old(dir.files), c.base, c.maxBackups - 1, env.stuck)
      {
        dir.Move(Backup(c.base, i), Backup(c.base, i + 1), env.stuck);
        i := i - 1;
      }
      dir.Move(c.base, Backup(c.base, 1), env.stuck);
      if !env.reopenOk {
        return false;
      }
      dir.files := Created(dir.files, c.base);
      open := true;
      currentSize := 0;
      var r := Log(INFO, "Log file rotated", env);
      return r == Blocked;
    }

    /** SetLevel also takes the mutex. */
    method SetLevel(name: string) returns (r: Outcome)
      modifies this
      ensures State() == Relevelled(old(State()), name) && r == (if old(mu) then Blocked else Returned)
    {
      if mu {
        return Blocked;
      }
      level := ParseLevel(name);
      return Returned;
    }
  }
}
