/** The updater object: a sequence of renames and removals on a disk that remembers, for proof
    only, every state it has been in. */
module Updater {
  import opened Wrappers
  import opened UpdaterSpec

  class Machine {
    var files: Disk
    ghost var trace: seq<Disk>

    ghost predicate Valid()
      reads this
    {
      trace != [] && trace[|trace| - 1] == files
    }

    constructor (files: Disk)
      ensures Valid() && this.files == files && trace == [files]
    {
      this.files := files;
      this.trace := [files];
    }

    /** os.Rename. */
    method Rename(from: Path, to: Path, allowed: bool) returns (ok: bool)
      requires Valid() && from != to
      modifies this
      ensures Valid() && ok == (old(from in files) && allowed)
      ensures ok ==> files == Move(old(files), from, to) && trace == old(trace) + [files]
      ensures !ok ==> files == old(files) && trace == old(trace)
    {
      ok := from in files && allowed;
      if ok {
        files := files[to := files[from]] - {from};
        trace := trace + [files];
      }
    }

    /** os.Remove. */
    method Remove(p: Path, allowed: bool) returns (ok: bool)
      requires Valid()
      modifies this
      ensures Valid() && ok == (old(p in files) && allowed)
      ensures ok ==> files == old(files) - {p} && trace == old(trace) + [files]
      ensures !ok ==> files == old(files) && trace == old(trace)
    {
      ok := p in files && allowed;
      if ok {
        files := files - {p};
        trace := trace + [files];
      }
    }

    /** A download: the file is created empty, then holds what was received. */
    method Receive(body: Binary)
      requires Valid()
      modifies this
      ensures Valid() && files == old(files)[Tmp := body]
      ensures trace == old(trace) + [old(files)[Tmp := ""], old(files)[Tmp := body]]
    {
      ghost var before := files;
      files := files[Tmp := ""];
      trace := trace + [files];
      files := files[Tmp := body];
      assert files == before[Tmp := body];
      trace := trace + [files];
    }
  }

  class Updater {
    const m: Machine
    const hash: Binary -> string

    constructor (m: Machine, hash: Binary -> string)
      ensures this.m == m && this.hash == hash
    {
      this.m, this.hash := m, hash;
    }

    /** The call went through exactly the states of `t`. */
    twostate predicate Followed(t: Trail)
      reads m
    {
      m.files == Final(old(m.files), t.steps) && m.trace == old(m.trace) + t.steps
    }

    method InstallUpdate(env: InstallEnv) returns (ok: bool)
      requires m.Valid()
      modifies m
      ensures m.Valid() && ok == Install(old(m.files), env).ok && Followed(Install(old(m.files), env))
    {
      if !env.exeKnown {
        return false;
      }
      var saved := m.Rename(Exe, Old, env.backupOk);
      if !saved {
        return false;
      }
      var moved := m.Rename(Tmp, Exe, env.moveOk);
      if !moved {
        var restored := m.Rename(Old, Exe, env.restoreOk);
        return false;
      }
      return true;
    }

    method Rollback(env: RollbackEnv) returns (ok: bool)
      requires m.Valid()
      modifies m
      ensures m.Valid() && ok == UpdaterSpec.Rollback(old(m.files), env).ok
      ensures Followed(UpdaterSpec.Rollback(old(m.files), env))
    {
      if !env.exeKnown || Old !in m.files {
        return false;
      }
      var removed := m.Remove(Exe, env.removeOk);
      if !removed {
        return false;
      }
      ok := m.Rename(Old, Exe, env.restoreOk);
    }

    /** VerifyUpdate: the checksum of the downloaded file, then the signature. */
    method VerifyUpdate(env: UpdateEnv) returns (ok: bool)
      requires env.check.Available?
      ensures ok == Verified(m.files, env, hash)
    {
      if Tmp !in m.files || !env.openOk {
        return false;
      }
      if hash(m.files[Tmp]) != env.check.checksum {
        return false;
      }
      return env.signatureOk;
    }

    method PerformUpdate(env: UpdateEnv) returns (ok: bool)
      requires m.Valid()
      modifies m
      ensures m.Valid() && ok == Perform(old(m.files), env, hash).ok
      ensures Followed(Perform(old(m.files), env, hash))
    {
      if env.check.CheckFailed? {
        return false;
      }
      if env.check.NoUpdate? {
        return true;
      }
      if env.download.NotCreated? {
        return false;
      }
      ghost var before := m.files;
      m.Receive(env.download.body);
      ghost var t := Finish(before[Tmp := env.download.body], env, hash);
      assert Perform(before, env, hash) == Trail([before[Tmp := ""], before[Tmp := env.download.body]] + t.steps, t.ok);
      ok := FinishUpdate(env);
    }

    /** The part of PerformUpdate after the download, with its deferred removal. */
    method FinishUpdate(env: UpdateEnv) returns (ok: bool)
      requires m.Valid() && env.check.Available? && env.download.Received?
      modifies m
      ensures m.Valid() && ok == Finish(old(m.files), env, hash).ok
      ensures Followed(Finish(old(m.files), env, hash))
    {
      ok := false;
      var good := false;
      if env.download.complete {
        good := VerifyUpdate(env);
      }
      if good {
        ok := InstallUpdate(env.install);
      }
      var gone := m.Remove(Tmp, env.cleanupOk);
    }
  }
}
