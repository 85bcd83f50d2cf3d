/** Crash safety of the binary swap, and what an update can do to a machine over time. */
module UpdaterLaws {
  import opened Wrappers
  import opened UpdaterSpec

  /** `b` can still be found, in place or as the backup. */
  predicate Kept(d: Disk, b: Binary) {
    (Exe in d && d[Exe] == b) || (Old in d && d[Old] == b)
  }

  /** Whatever fails, and wherever InstallUpdate is interrupted, the binary that was installed before
      is at the executable path or at ".old"; on success the new one is in place and the previous
      one is the backup; otherwise a returning call leaves it in place unless the restore failed. */
  lemma {:induction false} InstallIsCrashSafe(d: Disk, env: InstallEnv)
    requires Exe in d
    ensures var t := Install(d, env);
      && (forall i :: 0 <= i < |t.steps| ==> Kept(t.steps[i], d[Exe]))
      && (t.ok ==> Tmp in d && Final(d, t.steps) == map[Exe := d[Tmp], Old := d[Exe]])
      && (!t.ok ==> (Exe in Final(d, t.steps) ==> Final(d, t.steps)[Exe] == d[Exe]))
      && (Exe !in Final(d, t.steps) <==>
            env.exeKnown && env.backupOk && !(Tmp in d && env.moveOk) && !env.restoreOk)
  {
    var t := Install(d, env);
    if t.ok {
      assert forall p :: p in Final(d, t.steps) <==> p == Exe || p == Old;
    }
  }

  /** InstallUpdate gets as far as moving the executable to its backup path. */
  predicate BacksUp(d: Disk, env: InstallEnv) {
    env.exeKnown && Exe in d && env.backupOk
  }

  /** The disk after a backup that the new binary did not follow: restored, without the backup that
      was there before, or with the executable missing. */
  function NotMoved(d: Disk, restoreOk: bool): Disk
    requires Exe in d
  {
    if restoreOk then d - {Old} else d[Old := d[Exe]] - {Exe}
  }

  /** InstallUpdate succeeds exactly when the backup is made and the new binary is there and can be
      moved, whether or not there was a backup before; and what it leaves in every case. */
  lemma {:induction false} InstallExactly(d: Disk, env: InstallEnv)
    ensures var t := Install(d, env); var z := Final(d, t.steps);
      && (t.ok <==> BacksUp(d, env) && Tmp in d && env.moveOk)
      && (BacksUp(d, env) <==> t.steps != [])
      && (BacksUp(d, env) ==> t.steps[0] == d[Old := d[Exe]] - {Exe})
      && (if t.ok then z == map[Exe := d[Tmp], Old := d[Exe]]
          else if BacksUp(d, env) then z == NotMoved(d, env.restoreOk)
          else z == d)
  {
    var t := Install(d, env);
    if t.ok {
      assert forall p :: p in Final(d, t.steps) <==> p == Exe || p == Old;
    } else if BacksUp(d, env) {
      assert Move(d, Exe, Old) == d[Old := d[Exe]] - {Exe};
    }
  }

  /** The announced download arrives whole, can be opened, and has the checksum and the signature. */
  ghost predicate Delivers(env: UpdateEnv, hash: Binary -> string) {
    && env.check.Available? && env.download.Received? && env.download.complete
    && env.openOk && hash(env.download.body) == env.check.checksum && env.signatureOk
  }

  /** PerformUpdate succeeds exactly when there is no update, or one arrives, verifies and can be
      swapped in; without a download it changes nothing, and otherwise the download is first seen
      empty, then with what was received, and the call leaves what the swap left with the download
      gone exactly when the swap took it or its removal worked. */
  lemma {:induction false} PerformExactly(d: Disk, env: UpdateEnv, hash: Binary -> string)
    ensures var t := Perform(d, env, hash); var z := Final(d, t.steps);
            var swaps := Delivers(env, hash) && BacksUp(d, env.install) && env.install.moveOk;
      && (t.ok <==> env.check.NoUpdate? || swaps)
      && (env.check.Available? && env.download.Received? ==> t.steps[..2] == [d[Tmp := ""], d[Tmp := env.download.body]])
      && (if !env.check.Available? || env.download.NotCreated? then t.steps == []
          else if swaps then z == map[Exe := env.download.body, Old := d[Exe]]
          else
            var left := if Delivers(env, hash) && BacksUp(d, env.install) then NotMoved(d, env.install.restoreOk) else d;
            z == if env.cleanupOk then left - {Tmp} else left[Tmp := env.download.body])
  {
    if env.check.Available? && env.download.Received? {
      var full := d[Tmp := env.download.body];
      InstallExactly(full, env.install);
      FinishExactly(full, env, hash);
      PerformFinishes(d, env, hash);
    }
  }

  lemma {:induction false} PerformFinishes(d: Disk, env: UpdateEnv, hash: Binary -> string)
    requires env.check.Available? && env.download.Received?
    ensures var full := d[Tmp := env.download.body]; var t := Perform(d, env, hash); var f := Finish(full, env, hash);
      t.ok == f.ok && t.steps == [d[Tmp := ""], full] + f.steps && Final(d, t.steps) == Final(full, f.steps)
  {
  }

  /** After the download. */
  lemma {:induction false} FinishExactly(full: Disk, env: UpdateEnv, hash: Binary -> string)
    requires env.check.Available? && env.download.Received? && Tmp in full && full[Tmp] == env.download.body
    ensures var f := Finish(full, env, hash); var z := Final(full, f.steps);
            var t := if Delivers(env, hash) then Install(full, env.install) else Trail([], false);
      f.ok == t.ok && z == (if env.cleanupOk then Final(full, t.steps) - {Tmp} else Final(full, t.steps))
  {
  }

  /** The disk after these updates, one after the other. */
  function Updated(d: Disk, envs: seq<UpdateEnv>, hash: Binary -> string): Disk
    decreases |envs|
  {
    if envs == [] then d else Updated(Final(d, Perform(d, envs[0], hash).steps), envs[1..], hash)
  }

  /** Any number of updates in a row, each of which arrives, verifies and meets no failing rename: all
      of them are installed, and the backup is always the one before. */
  lemma {:induction false} UpdatesFollowEachOther(d: Disk, envs: seq<UpdateEnv>, hash: Binary -> string)
    requires Exe in d && envs != []
    requires forall i :: 0 <= i < |envs| ==>
      Delivers(envs[i], hash) && envs[i].install.exeKnown && envs[i].install.backupOk && envs[i].install.moveOk
    ensures forall i :: 0 <= i < |envs| ==> envs[i].download.Received?
    ensures var n := |envs|;
      Updated(d, envs, hash) ==
        map[Exe := envs[n - 1].download.body, Old := if n == 1 then d[Exe] else envs[n - 2].download.body]
    decreases |envs|
  {
    var z := Final(d, Perform(d, envs[0], hash).steps);
    PerformExactly(d, envs[0], hash);
    assert z == map[Exe := envs[0].download.body, Old := d[Exe]];
    if |envs| == 1 {
      assert envs[1..] == [] && Updated(z, [], hash) == z;
    } else {
      UpdatesFollowEachOther(z, envs[1..], hash);
      assert envs[1..][|envs| - 2] == envs[|envs| - 1];
      if |envs| > 2 { assert envs[1..][|envs| - 3] == envs[|envs| - 2]; }
    }
  }

  /** The backup survives every state of Rollback.  It succeeds exactly when both paths are
      occupied and neither step fails; then the backup is in place and no longer a backup. */
  lemma {:induction false} RollbackIsCrashSafe(d: Disk, env: RollbackEnv)
    ensures var t := Rollback(d, env);
      && (Old in d ==> forall i :: 0 <= i < |t.steps| ==> Kept(t.steps[i], d[Old]))
      && (t.ok <==> env.exeKnown && Exe in d && Old in d && env.removeOk && env.restoreOk)
      && (t.ok ==> Exe in Final(d, t.steps) && Final(d, t.steps)[Exe] == d[Old] && Old !in Final(d, t.steps))
      && (!t.ok ==> Final(d, t.steps) == d || Final(d, t.steps) == d - {Exe})
  {
  }

  /** What Rollback leaves: nothing changes unless both paths are occupied and the executable can be
      removed; then it is gone, and replaced by the backup if that can be moved. */
  lemma {:induction false} RollbackExactly(d: Disk, env: RollbackEnv)
    ensures var t := Rollback(d, env);
      if env.exeKnown && Exe in d && Old in d && env.removeOk then
        && t.steps != [] && t.steps[0] == d - {Exe}
        && Final(d, t.steps) == (if env.restoreOk then (d - {Old})[Exe := d[Old]] else d - {Exe})
      else
        t.steps == []
  {
  }

  function RolledBack(d: Disk, env: RollbackEnv): Disk {
    Final(d, Rollback(d, env).steps)
  }

  /** Rolling back a successful install restores the previous binary and uses up the backup: a
      second rollback fails and changes nothing. */
  lemma {:induction false} RollbackUndoesInstall(d: Disk, env: InstallEnv, back: RollbackEnv, again: RollbackEnv)
    requires Exe in d && Install(d, env).ok && Rollback(Final(d, Install(d, env).steps), back).ok
    ensures var z := RolledBack(Final(d, Install(d, env).steps), back);
      && z == map[Exe := d[Exe]]
      && Rollback(z, again) == Trail([], false)
  {
    InstallIsCrashSafe(d, env);
    var m := Final(d, Install(d, env).steps);
    RollbackIsCrashSafe(m, back);
    var z := RolledBack(m, back);
    assert m == map[Exe := d[Tmp], Old := d[Exe]];
    assert z == Move(m - {Exe}, Old, Exe);
    assert forall p :: p in z <==> p == Exe;
  }

  // ----- whole runs with crashes -----

  /** One call, cut off by a crash after `cut` of its effects when it has more than that. */
  datatype Event = Updates(env: UpdateEnv, cut: nat) | RollsBack(back: RollbackEnv, cut: nat)

  function TrailOf(d: Disk, e: Event, hash: Binary -> string): Trail {
    match e
    case Updates(env, _) => Perform(d, env, hash)
    case RollsBack(back, _) => Rollback(d, back)
  }

  function After(d: Disk, e: Event, hash: Binary -> string): Disk {
    var t := TrailOf(d, e, hash);
    if e.cut == 0 then d else if e.cut <= |t.steps| then t.steps[e.cut - 1] else Final(d, t.steps)
  }

  function Run(d: Disk, es: seq<Event>, hash: Binary -> string): Disk
    decreases |es|
  {
    if es == [] then d else Run(After(d, es[0], hash), es[1..], hash)
  }

  /** The server announced b's checksum in one of the events. */
  ghost predicate Announced(b: Binary, es: seq<Event>, hash: Binary -> string) {
    exists i :: 0 <= i < |es| && es[i].Updates? && es[i].env.check == Available(hash(b))
  }

  /** Some binary is in place or backed up, and both are `known` or announced. */
  ghost predicate Sound(d: Disk, known: set<Binary>, es: seq<Event>, hash: Binary -> string) {
    && (Exe in d || Old in d)
    && (Exe in d ==> d[Exe] in known || Announced(d[Exe], es, hash))
    && (Old in d ==> d[Old] in known || Announced(d[Old], es, hash))
  }

  lemma {:induction false} InstallKeepsSound(d: Disk, known: set<Binary>, es: seq<Event>, hash: Binary -> string, env: InstallEnv)
    requires Sound(d, known, es, hash) && (Tmp in d ==> Announced(d[Tmp], es, hash))
    ensures forall s :: s in Install(d, env).steps ==> Sound(s, known, es, hash)
  {
  }

  lemma {:induction false} CleaningKeepsSound(d: Disk, known: set<Binary>, es: seq<Event>, hash: Binary -> string, ok: bool)
    requires Sound(d, known, es, hash)
    ensures forall s :: s in Cleaned(d, ok) ==> Sound(s, known, es, hash)
  {
  }

  lemma {:induction false} EventKeepsSound(d: Disk, known: set<Binary>, es: seq<Event>, e: Event, hash: Binary -> string)
    requires Sound(d, known, es, hash) && e in es
    ensures forall s :: s in TrailOf(d, e, hash).steps ==> Sound(s, known, es, hash)
  {
    if e.Updates? && e.env.check.Available? && e.env.download.Received? {
      var full := d[Tmp := e.env.download.body];
      assert Sound(full, known, es, hash) && Sound(d[Tmp := ""], known, es, hash);
      var t := Trail([], false);
      if e.env.download.complete && Verified(full, e.env, hash) {
        var i :| 0 <= i < |es| && es[i] == e;
        assert Announced(full[Tmp], es, hash);
        t := Install(full, e.env.install);
        InstallKeepsSound(full, known, es, hash, e.env.install);
      }
      assert Sound(Final(full, t.steps), known, es, hash);
      CleaningKeepsSound(Final(full, t.steps), known, es, hash, e.env.cleanupOk);
    }
  }

  lemma {:induction false} RunKeepsSound(d: Disk, known: set<Binary>, all: seq<Event>, es: seq<Event>, hash: Binary -> string)
    requires Sound(d, known, all, hash) && forall e :: e in es ==> e in all
    ensures Sound(Run(d, es, hash), known, all, hash)
    decreases |es|
  {
    if es != [] {
      var t := TrailOf(d, es[0], hash);
      EventKeepsSound(d, known, all, es[0], hash);
      RunKeepsSound(After(d, es[0], hash), known, all, es[1..], hash);
    }
  }

  /** Over any number of updates and rollbacks, each possibly cut short by a crash: a machine that
      starts with an installed binary always has one in place or backed up, and every binary found
      there was there at the start or has a checksum the server announced. */
  lemma {:induction false} OnlyVerifiedBinaries(d: Disk, es: seq<Event>, hash: Binary -> string)
    requires Exe in d
    ensures var z := Run(d, es, hash);
      && (Exe in z || Old in z)
      && forall p :: p in z && p != Tmp ==> (Exe in d && z[p] == d[Exe]) || (Old in d && z[p] == d[Old]) || Announced(z[p], es, hash)
  {
    var known := {d[Exe]} + (if Old in d then {d[Old]} else {});
    RunKeepsSound(d, known, es, es, hash);
    var z := Run(d, es, hash);
    forall p | p in z && p != Tmp
      ensures (Exe in d && z[p] == d[Exe]) || (Old in d && z[p] == d[Old]) || Announced(z[p], es, hash)
    {
      assert p == Exe || p == Old;
    }
  }

  /** No executable, and the same backup as d or none like d. */
  ghost predicate Wedged(s: Disk, d: Disk) {
    Exe !in s && (Old in s <==> Old in d) && (Old in d ==> s[Old] == d[Old])
  }

  lemma {:induction false} FinishKeepsWedged(full: Disk, d: Disk, env: UpdateEnv, hash: Binary -> string)
    requires Wedged(full, d) && env.check.Available? && env.download.Received?
    ensures forall x :: x in Finish(full, env, hash).steps ==> Wedged(x, d)
  {
    assert Install(full, env.install) == Trail([], false);
    assert Finish(full, env, hash).steps == [] + Cleaned(full, env.cleanupOk) == Cleaned(full, env.cleanupOk);
  }

  lemma {:induction false} EventKeepsWedged(s: Disk, d: Disk, e: Event, hash: Binary -> string)
    requires Wedged(s, d)
    ensures forall x :: x in TrailOf(s, e, hash).steps ==> Wedged(x, d)
  {
    if e.Updates? && e.env.check.Available? && e.env.download.Received? {
      FinishKeepsWedged(s[Tmp := e.env.download.body], d, e.env, hash);
    }
  }

  /** A missing executable is for ever: no update and no rollback, completed or not, ever fills the
      path again or touches the backup. */
  lemma {:induction false} MissingExeIsForEver(s: Disk, d: Disk, es: seq<Event>, hash: Binary -> string)
    requires Wedged(s, d)
    ensures Wedged(Run(s, es, hash), d)
    decreases |es|
  {
    if es != [] {
      EventKeepsWedged(s, d, es[0], hash);
      MissingExeIsForEver(After(s, es[0], hash), d, es[1..], hash);
    }
  }
}
