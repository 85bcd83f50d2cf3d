/** The update procedure as the list of disk states it passes through; a crash leaves any of them.

    Three different paths matter: the executable, its ".old" backup and the download.  The path that
    os.Executable reports is taken to be the same in every call, before and after a swap.  A rename or
    a removal is atomic and may fail; a download is seen empty, then with what was received. */
module UpdaterSpec {
  import opened Wrappers

  datatype Path = Exe | Old | Tmp

  type Binary = string
  type Disk = map<Path, Binary>

  function Move(d: Disk, from: Path, to: Path): Disk
    requires from in d && from != to
  {
    d[to := d[from]] - {from}
  }

  /** The states a call passes through, one per effect, and whether it returned nil. */
  datatype Trail = Trail(steps: seq<Disk>, ok: bool)

  // ----- InstallUpdate and Rollback -----

  datatype InstallEnv = InstallEnv(exeKnown: bool, backupOk: bool, moveOk: bool, restoreOk: bool)

  function Install(d: Disk, env: InstallEnv): Trail {
    if !env.exeKnown || Exe !in d || !env.backupOk then Trail([], false)
    else
      var saved := Move(d, Exe, Old);
      if Tmp in saved && env.moveOk then Trail([saved, Move(saved, Tmp, Exe)], true)
      else if env.restoreOk then Trail([saved, Move(saved, Old, Exe)], false)
      else Trail([saved], false)
  }

  datatype RollbackEnv = RollbackEnv(exeKnown: bool, removeOk: bool, restoreOk: bool)

  function Rollback(d: Disk, env: RollbackEnv): Trail {
    if !env.exeKnown || Old !in d || Exe !in d || !env.removeOk then Trail([], false)
    else
      var bare := d - {Exe};
      if env.restoreOk then Trail([bare, Move(bare, Old, Exe)], true) else Trail([bare], false)
  }

  // ----- PerformUpdate -----

  datatype Check = CheckFailed | NoUpdate | Available(checksum: string)

  /** A download: no file is made, or one is made and `body` arrives, all of it or cut short. */
  datatype Download = NotCreated | Received(body: Binary, complete: bool)

  datatype UpdateEnv = UpdateEnv(
    check: Check, download: Download, openOk: bool, signatureOk: bool,
    install: InstallEnv, cleanupOk: bool)

  /** os.Remove of the download. */
  function Cleaned(d: Disk, cleanupOk: bool): seq<Disk> {
    if Tmp in d && cleanupOk then [d - {Tmp}] else []
  }

  function Verified(d: Disk, env: UpdateEnv, hash: Binary -> string): bool
    requires env.check.Available?
  {
    Tmp in d && env.openOk && hash(d[Tmp]) == env.check.checksum && env.signatureOk
  }

  /** After the download: verify, install, and remove the download whatever the outcome. */
  function Finish(d: Disk, env: UpdateEnv, hash: Binary -> string): Trail
    requires env.check.Available? && env.download.Received?
  {
    var t := if env.download.complete && Verified(d, env, hash) then Install(d, env.install) else Trail([], false);
    Trail(t.steps + Cleaned(Final(d, t.steps), env.cleanupOk), t.ok)
  }

  function Perform(d: Disk, env: UpdateEnv, hash: Binary -> string): Trail {
    match env.check
    case CheckFailed => Trail([], false)
    case NoUpdate => Trail([], true)
    case Available(_) =>
      match env.download
      case NotCreated => Trail([], false)
      case Received(body, _) =>
        var t := Finish(d[Tmp := body], env, hash);
        Trail([d[Tmp := ""], d[Tmp := body]] + t.steps, t.ok)
  }
}
