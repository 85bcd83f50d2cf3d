/** What a process reads, sends for and leaves on disk at start-up, in terms of the files, the
    environment and the replies alone. */
module StartupResults {
  import opened Wrappers
  import opened Retry
  import opened StartupSpec
  import opened StartupLaws

  // ----- the reply -----

  /** Attempt k, among the first ten, is the first to get a reply, and no wait before it is cancelled. */
  ghost predicate FirstReply(env: BootEnv, k: nat) {
    k < 10 && env.reply(k).Some? && forall j: nat :: j < k ==> env.reply(j).None? && !env.cancelled(j)
  }

  function BaseURL(r: Response): string {
    if r.apiBaseURL == "" then "https://api.unitechio.space" else r.apiBaseURL
  }

  /** A bootstrap call ends with a response exactly when there is such an attempt, and with that very
      reply, its missing base URL replaced. */
  lemma {:induction false} AnswerExactly(env: BootEnv)
    ensures Answer(env).Some? <==> exists k: nat :: FirstReply(env, k)
    ensures forall k: nat :: FirstReply(env, k) ==>
      Answer(env) == Some(Response(env.reply(k).value.agentID, BaseURL(env.reply(k).value), env.reply(k).value.certificate,
                                   env.reply(k).value.privateKey, env.reply(k).value.caCert))
  {
    forall k: nat | FirstReply(env, k)
      ensures Answer(env).Some?
      ensures Answer(env) == Some(Response(env.reply(k).value.agentID, BaseURL(env.reply(k).value), env.reply(k).value.certificate,
                                           env.reply(k).value.privateKey, env.reply(k).value.caCert))
    {
      AnswerIsFirstReply(env, k);
    }
    if Answer(env).Some? {
      RetryExactly(DEFAULT, AttemptsOf(env));
      var r := Loop(DEFAULT, AttemptsOf(env), 0);
      var last: nat := r.calls - 1;
      forall j: nat | j < last ensures env.reply(j).None? && !env.cancelled(j) {
        assert !AttemptsOf(env).ok(j) && !AttemptsOf(env).cancelled(j);
      }
      assert FirstReply(env, last);
    }
  }

  // ----- the three files -----

  /** Each file is written exactly if its own write and those before it work, with the part of the
      response that belongs to it. */
  lemma {:induction false} SaveCertificatesExactly(d: Disk, r: Response, env: BootEnv)
    ensures var w := SaveCertificates(d, r, env); var z := Final(d, w.steps);
      && z.cert == (if env.certOk then Some(r.certificate) else d.cert)
      && z.key == (if env.certOk && env.keyOk then Some(r.privateKey) else d.key)
      && z.ca == (if env.certOk && env.keyOk && env.caOk then Some(r.caCert) else d.ca)
      && z.config == d.config
      && (w.result.Some? <==> env.certOk && env.keyOk && env.caOk)
  {
  }

  // ----- the stored identity -----

  /** The stored identity verifies exactly when the files can be read and form a pair whose
      certificate parses; it is then the certificate's common name. */
  lemma {:induction false} IdentityExactly(d: Disk, pemOk: bool, pair: KeyPair, name: string)
    ensures Identity(d, pemOk, pair) == Some(name) <==>
      && pemOk && d.cert.Some? && d.key.Some?
      && exists soon :: pair(d.cert.value, d.key.value) == Some(Certificate(true, name, soon))
  {
    if pemOk && d.cert.Some? && d.key.Some? && pair(d.cert.value, d.key.value).Some? {
      var c := pair(d.cert.value, d.key.value).value;
      assert c == Certificate(c.parses, c.commonName, c.expiresSoon);
    }
  }

  /** No re-bootstrap is needed exactly when all three files are there, the identity verifies, and the
      certificate paired with an empty key parses and does not expire within a day. */
  lemma {:induction false} NeedsRebootstrapExactly(d: Disk, pemOk: bool, pair: KeyPair)
    ensures !NeedsRebootstrap(d, pemOk, pair) <==>
      && d.ca.Some? && (exists name :: Identity(d, pemOk, pair) == Some(name))
      && exists name :: pair(d.cert.value, "") == Some(Certificate(true, name, false))
  {
    if Identity(d, pemOk, pair).Some? {
      assert Identity(d, pemOk, pair) == Some(Identity(d, pemOk, pair).value);
      if pair(d.cert.value, "").Some? {
        var c := pair(d.cert.value, "").value;
        assert c == Certificate(c.parses, c.commonName, c.expiresSoon);
      }
    }
  }

  // ----- a first run -----

  /** What the saved configuration says: the organisation, the reply's agent id and base URL, no
      token, and the interval and batch size from before. */
  function SavedSettings(org: string, r: Response, interval: int, batchSize: int): Settings {
    Settings(true, org, r.agentID, "", BaseURL(r), interval, batchSize)
  }

  ghost predicate AllWritten(env: BootEnv) {
    env.certOk && env.keyOk && env.caOk
  }

  /** The PEM files of z are those of d overwritten from the reply, as far as the writes worked. */
  ghost predicate Overwritten(d: Disk, z: Disk, r: Response, env: BootEnv) {
    && z.cert == (if env.certOk then Some(r.certificate) else d.cert)
    && z.key == (if env.certOk && env.keyOk then Some(r.privateKey) else d.key)
    && z.ca == (if AllWritten(env) then Some(r.caCert) else d.ca)
  }

  lemma {:induction false} BootstrapExactly(d: Disk, s: Settings, env: BootEnv, k: nat)
    requires s.orgID != "" && s.installToken != "" && env.managerOk && FirstReply(env, k)
    ensures var b := RunBootstrap(d, s, env); var r := env.reply(k).value;
      && Overwritten(d, Final(d, b.steps), r, env) && Final(d, b.steps).config == d.config
      && b.result == (if AllWritten(env) then Some(SavedSettings(s.orgID, r, s.interval, s.batchSize)) else None)
  {
    AnswerExactly(env);
    SaveCertificatesExactly(d, Answer(env).value, env);
  }

  lemma {:induction false} NoBootstrap(d: Disk, s: Settings, env: BootEnv)
    requires s.orgID == "" || s.installToken == "" || !env.managerOk || !exists k: nat :: FirstReply(env, k)
    ensures RunBootstrap(d, s, env) == Step([], None)
  {
    AnswerExactly(env);
  }

  /** What a run without a configuration file leaves: nothing unless ORG_ID and INSTALL_TOKEN are both
      set and a reply comes; then the files of that reply as far as the writes worked, and if all
      three did, a configuration for ORG_ID with the default interval of 60 s and batch size 100. */
  lemma {:induction false} FirstRunExactly(d: Disk, env: RunEnv, pair: KeyPair)
    requires RejectsEmptyKey(pair) && d.config.Missing?
    ensures var z := Final(d, Run(d, env, pair).steps); var boot := env.first;
            var asks := env.vars.orgID != "" && env.vars.token != "" && boot.managerOk;
      && ((!asks || !exists k: nat :: FirstReply(boot, k)) ==> Run(d, env, pair).steps == [])
      && forall k: nat :: asks && FirstReply(boot, k) ==>
           && Overwritten(d, z, boot.reply(k).value, boot)
           && z.config == (if AllWritten(boot) && env.firstSaveOk
                           then Saved(SavedSettings(env.vars.orgID, boot.reply(k).value, 60, 100)) else Missing)
  {
    var s := NewBootstrapConfig(env.vars);
    var o := Obtain(d, env);
    if env.vars.orgID != "" && env.vars.token != "" && env.first.managerOk && exists k: nat :: FirstReply(env.first, k) {
      forall k: nat | FirstReply(env.first, k)
        ensures Run(d, env, pair).steps == o.steps
        ensures var z := Final(d, o.steps);
          && Overwritten(d, z, env.first.reply(k).value, env.first)
          && z.config == (if AllWritten(env.first) && env.firstSaveOk
                          then Saved(SavedSettings(env.vars.orgID, env.first.reply(k).value, 60, 100)) else Missing)
      {
        BootstrapExactly(d, s, env.first, k);
        StopsAfterObtain(d, env, pair);
      }
    } else {
      NoBootstrap(d, s, env.first);
    }
  }

  /** A first run never gets past the re-bootstrap, and changes nothing there. */
  lemma {:induction false} StopsAfterObtain(d: Disk, env: RunEnv, pair: KeyPair)
    requires RejectsEmptyKey(pair) && d.config.Missing?
    ensures Run(d, env, pair).steps == Obtain(d, env).steps
  {
    var o := Obtain(d, env);
    BootstrapOutcome(d, NewBootstrapConfig(env.vars), env.first);
    if o.result.Some? {
      AlwaysRebootstraps(Final(d, o.steps), env.pemOk, pair);
      NoBootstrap(Final(d, o.steps), o.result.value.(bootstrapped := false), env.second);
    }
    assert o.steps + [] == o.steps;
  }

  // ----- a later run -----

  /** The organisation and the token in force: the file's, or the environment's where it has none. */
  function OrgOf(s: Settings, v: EnvVars): string { if s.orgID != "" then s.orgID else v.orgID }
  function TokenOf(s: Settings, v: EnvVars): string { if s.installToken != "" then s.installToken else v.token }

  /** The loaded configuration is complete, so that the process gets as far as asking the server. */
  ghost predicate Asks(s: Settings, env: RunEnv) {
    && env.configReadable && env.managerOk && env.second.managerOk
    && s.bootstrapped && s.agentID != "" && s.apiBaseURL != "" && OrgOf(s, env.vars) != "" && TokenOf(s, env.vars) != ""
    && s.interval >= 10 && 1 <= s.batchSize <= 1000
  }

  /** What a run on a saved configuration leaves and returns: nothing changes unless it is complete,
      with organisation and token possibly from the environment, and a reply comes; then the files of
      that reply are written as far as the writes work, the new configuration is saved if all three
      are, and the loop is entered with it exactly if the new identity verifies and the rest starts. */
  lemma {:induction false} LaterRunExactly(d: Disk, env: RunEnv, pair: KeyPair)
    requires RejectsEmptyKey(pair) && d.config.Saved?
    ensures var s := d.config.settings; var boot := env.second;
            var run := Run(d, env, pair); var z := Final(d, run.steps);
      && ((!Asks(s, env) || !exists k: nat :: FirstReply(boot, k)) ==> run == Step([], None))
      && forall k: nat :: Asks(s, env) && FirstReply(boot, k) ==>
           var r := boot.reply(k).value; var own := SavedSettings(OrgOf(s, env.vars), r, s.interval, s.batchSize);
           && Overwritten(d, z, r, boot)
           && z.config == (if AllWritten(boot) && env.secondSaveOk then Saved(own) else d.config)
           && (run.result == if AllWritten(boot) && env.managerAgainOk && env.policyOk
                                && Identity(z, env.pemOk, pair).Some? then Some(own) else None)
  {
    var s := Overridden(d.config.settings, env.vars);
    OverrideIs(d.config.settings, env.vars);
    AlwaysRebootstraps(d, env.pemOk, pair);
    if Asks(d.config.settings, env) {
      if exists k: nat :: FirstReply(env.second, k) {
        forall k: nat | FirstReply(env.second, k) ensures LeavesAfter(d, s, env, pair, k) {
          LaterRunWith(d, s, env, pair, k);
        }
      } else {
        NoBootstrap(d, s.(bootstrapped := false), env.second);
      }
    } else if env.configReadable && ValidRuntime(s) && env.managerOk {
      NoBootstrap(d, s.(bootstrapped := false), env.second);
    }
  }

  lemma {:induction false} OverrideIs(s: Settings, v: EnvVars)
    ensures Overridden(s, v) == s.(orgID := OrgOf(s, v), installToken := TokenOf(s, v))
  {
  }

  ghost predicate LeavesAfter(d: Disk, s: Settings, env: RunEnv, pair: KeyPair, k: nat)
    requires FirstReply(env.second, k)
  {
    Leaves(d, s, env, pair, env.second.reply(k).value, Run(d, env, pair))
  }

  ghost predicate Leaves(d: Disk, s: Settings, env: RunEnv, pair: KeyPair, r: Response, run: StartupSpec.Step<Settings>) {
    var own := SavedSettings(s.orgID, r, s.interval, s.batchSize);
    var z := Final(d, run.steps);
    && Overwritten(d, z, r, env.second)
    && z.config == (if AllWritten(env.second) && env.secondSaveOk then Saved(own) else d.config)
    && (run.result == if AllWritten(env.second) && env.managerAgainOk && env.policyOk
                         && Identity(z, env.pemOk, pair).Some? then Some(own) else None)
  }

  lemma {:induction false} ActivateWith(d: Disk, s: Settings, env: RunEnv, pair: KeyPair, k: nat)
    requires RejectsEmptyKey(pair) && s.orgID != "" && s.installToken != "" && env.second.managerOk && FirstReply(env.second, k)
    ensures Leaves(d, s, env, pair, env.second.reply(k).value, Activate(d, s, env, pair))
  {
    AlwaysRebootstraps(d, env.pemOk, pair);
    BootstrapExactly(d, s.(bootstrapped := false), env.second, k);
    var b := RunBootstrap(d, s.(bootstrapped := false), env.second);
    if b.result.Some? {
      FinalConcat(d, b.steps, SaveConfig(Final(d, b.steps), b.result.value, env.secondSaveOk));
    }
  }

  lemma {:induction false} LaterRunWith(d: Disk, s: Settings, env: RunEnv, pair: KeyPair, k: nat)
    requires RejectsEmptyKey(pair) && d.config.Saved? && s == Overridden(d.config.settings, env.vars)
    requires env.configReadable && env.managerOk && ValidRuntime(s) && s.installToken != "" && env.second.managerOk
    requires FirstReply(env.second, k)
    ensures LeavesAfter(d, s, env, pair, k)
  {
    ActivateWith(d, s, env, pair, k);
    var a := Activate(d, s, env, pair);
    assert [] + a.steps == a.steps;
    assert Run(d, env, pair) == a;
  }

  // ----- an identity that needs no renewal -----

  /** Were NeedsRebootstrap ever false, the process would change nothing and enter the loop with the
      loaded settings, if the rest starts. */
  lemma {:induction false} KeptIdentityEnters(d: Disk, env: RunEnv, pair: KeyPair)
    requires d.config.Saved? && env.configReadable && env.managerOk && !NeedsRebootstrap(d, env.pemOk, pair)
    ensures var s := d.config.settings; var run := Run(d, env, pair);
      && run.steps == []
      && (run.result.Some? <==>
            && s.bootstrapped && s.agentID != "" && s.apiBaseURL != "" && OrgOf(s, env.vars) != ""
            && s.interval >= 10 && 1 <= s.batchSize <= 1000 && env.policyOk)
      && (run.result.Some? ==>
            run.result.value == s.(orgID := OrgOf(s, env.vars), installToken := TokenOf(s, env.vars)))
  {
    OverrideIs(d.config.settings, env.vars);
    NeedsRebootstrapExactly(d, env.pemOk, pair);
  }

  // ----- one file at a time -----

  /** y differs from x in one file. */
  ghost predicate OneFile(x: Disk, y: Disk) {
    || y == x.(config := y.config) || y == x.(cert := y.cert) || y == x.(key := y.key) || y == x.(ca := y.ca)
  }

  ghost predicate FileByFile(d: Disk, steps: seq<Disk>) {
    forall i: nat :: i < |steps| ==> OneFile(Prior(d, steps, i), steps[i])
  }

  lemma {:induction false} FileByFileConcat(d: Disk, a: seq<Disk>, b: seq<Disk>)
    requires FileByFile(d, a) && FileByFile(Final(d, a), b)
    ensures FileByFile(d, a + b)
  {
    forall i: nat | i < |a + b| ensures OneFile(Prior(d, a + b, i), (a + b)[i]) {
      if i >= |a| {
        var j: nat := i - |a|;
        assert (a + b)[i] == b[j] && Prior(d, a + b, i) == Prior(Final(d, a), b, j);
      } else {
        assert (a + b)[i] == a[i] && Prior(d, a + b, i) == Prior(d, a, i);
      }
    }
  }

  lemma {:induction false} BootstrapFileByFile(d: Disk, s: Settings, env: BootEnv, save: seq<Disk>)
    requires var b := RunBootstrap(d, s, env); FileByFile(Final(d, b.steps), save)
    ensures FileByFile(d, RunBootstrap(d, s, env).steps)
    ensures FileByFile(d, RunBootstrap(d, s, env).steps + save)
  {
    var b := RunBootstrap(d, s, env);
    assert FileByFile(d, b.steps);
    FileByFileConcat(d, b.steps, save);
  }

  /** Every state a process leaves behind when it is killed differs from the one before in one file:
      the steps of a run write certificate, key, CA and configuration one at a time. */
  lemma {:induction false} RunsFileByFile(d: Disk, env: RunEnv, pair: KeyPair)
    ensures FileByFile(d, Run(d, env, pair).steps)
  {
    var o := Obtain(d, env);
    ObtainFileByFile(d, env);
    if o.result.Some? && ValidRuntime(o.result.value) && env.managerOk {
      var m := Final(d, o.steps);
      ActivateFileByFile(m, o.result.value, env, pair);
      FileByFileConcat(d, o.steps, Activate(m, o.result.value, env, pair).steps);
    }
  }

  lemma {:induction false} ObtainFileByFile(d: Disk, env: RunEnv)
    ensures FileByFile(d, Obtain(d, env).steps)
  {
    var s := NewBootstrapConfig(env.vars);
    var b := RunBootstrap(d, s, env.first);
    BootstrapFileByFile(d, s, env.first, if b.result.Some? then SaveConfig(Final(d, b.steps), b.result.value, env.firstSaveOk) else []);
  }

  lemma {:induction false} ActivateFileByFile(d: Disk, s: Settings, env: RunEnv, pair: KeyPair)
    ensures FileByFile(d, Activate(d, s, env, pair).steps)
  {
    var t := s.(bootstrapped := false);
    var b := RunBootstrap(d, t, env.second);
    BootstrapFileByFile(d, t, env.second, if b.result.Some? then SaveConfig(Final(d, b.steps), b.result.value, env.secondSaveOk) else []);
  }
}
