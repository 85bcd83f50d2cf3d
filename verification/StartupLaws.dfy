/** When the agent gets into its ticker loop, and what its disk holds over any number of processes
    and crashes. */
module StartupLaws {
  import opened Wrappers
  import opened Retry
  import opened StartupSpec

  /** The assumption on the TLS library: an empty private key never makes a pair. */
  ghost predicate RejectsEmptyKey(pair: KeyPair) {
    forall cert :: pair(cert, "").None?
  }

  /** NeedsRebootstrap is always true: its expiry check can never get past the empty key. */
  lemma {:induction false} AlwaysRebootstraps(d: Disk, pemOk: bool, pair: KeyPair)
    requires RejectsEmptyKey(pair)
    ensures NeedsRebootstrap(d, pemOk, pair)
  {
    if d.cert.Some? { assert pair(d.cert.value, "").None?; }
  }

  /** The environment only fills gaps: a value in the file wins, an empty one takes the variable. */
  lemma {:induction false} OverrideFillsGaps(s: Settings, v: EnvVars)
    ensures var t := Overridden(s, v);
      && (t.orgID == s.orgID || (s.orgID == "" && t.orgID == v.orgID))
      && (t.installToken == s.installToken || (s.installToken == "" && t.installToken == v.token))
      && (t.orgID == "" <==> s.orgID == "" && v.orgID == "")
      && (t.installToken == "" <==> s.installToken == "" && v.token == "")
      && t.(orgID := s.orgID, installToken := s.installToken) == s
      && Overridden(t, v) == t
  {
  }

  /** The disk after a bootstrap got through with response r. */
  function WithCertificates(d: Disk, r: Response): Disk {
    d.(cert := Some(r.certificate), key := Some(r.privateKey), ca := Some(r.caCert))
  }

  ghost predicate BootstrapSucceeds(s: Settings, env: BootEnv) {
    && s.orgID != "" && s.installToken != ""
    && env.managerOk && Answer(env).Some? && env.certOk && env.keyOk && env.caOk
  }

  lemma {:induction false} BootstrapOutcome(d: Disk, s: Settings, env: BootEnv)
    ensures var b := RunBootstrap(d, s, env);
      && (b.result.Some? <==> BootstrapSucceeds(s, env))
      && (b.result.Some? ==>
            && b.result.value == Marked(s, Answer(env).value.agentID, Answer(env).value.apiBaseURL)
            && b.result.value.apiBaseURL != ""
            && Final(d, b.steps) == WithCertificates(d, Answer(env).value))
  {
  }

  /** The retry loop's answer is the reply to the first attempt that got one, if that is among the
      first ten and no earlier wait is cancelled. */
  lemma {:induction false} AnswerIsFirstReply(env: BootEnv, first: nat)
    requires forall j: nat :: j < first ==> env.reply(j).None? && !env.cancelled(j)
    requires env.reply(first).Some?
    ensures Answer(env) == if first < 10 then Some(Defaulted(env.reply(first).value)) else None
  {
    var r := AttemptsOf(env);
    forall j: nat | j < first ensures !r.ok(j) && !r.cancelled(j) {}
    CallsExactly(DEFAULT, r, 0, first);
  }

  // ----- entering the loop -----

  /** `run` enters its ticker loop exactly when an existing configuration loads, passes
      ValidateRuntime, holds an install token after the environment override, and a re-bootstrap
      then completes with certificates that verify. */
  lemma {:induction false} EntersLoopExactly(d: Disk, env: RunEnv, pair: KeyPair)
    requires RejectsEmptyKey(pair)
    ensures Run(d, env, pair).result.Some? <==>
      && d.config.Saved? && env.configReadable
      && ValidRuntime(Overridden(d.config.settings, env.vars))
      && Overridden(d.config.settings, env.vars).installToken != ""
      && env.managerOk && BootstrapSucceeds(Overridden(d.config.settings, env.vars), env.second)
      && env.managerAgainOk && env.policyOk
      && Identity(WithCertificates(d, Answer(env.second).value), env.pemOk, pair).Some?
  {
    var o := Obtain(d, env);
    if d.config.Missing? {
      FirstRunNeverEnters(d, env, pair);
    } else if d.config.Saved? && o.result.Some? {
      AlwaysRebootstraps(d, env.pemOk, pair);
      BootstrapOutcome(d, o.result.value.(bootstrapped := false), env.second);
    }
  }

  /** A first run always ends in an error: the token it just cleared is needed again at once. */
  lemma {:induction false} FirstRunNeverEnters(d: Disk, env: RunEnv, pair: KeyPair)
    requires RejectsEmptyKey(pair) && d.config.Missing?
    ensures Run(d, env, pair).result.None?
  {
    var o := Obtain(d, env);
    BootstrapOutcome(d, NewBootstrapConfig(env.vars), env.first);
    if o.result.Some? {
      AlwaysRebootstraps(Final(d, o.steps), env.pemOk, pair);
    }
  }

  /** In the loop the settings are sane, except that the agent id is whatever the server sent. */
  lemma {:induction false} LoopSettings(d: Disk, env: RunEnv, pair: KeyPair)
    requires RejectsEmptyKey(pair) && Run(d, env, pair).result.Some?
    ensures var s := Run(d, env, pair).result.value;
      && s.bootstrapped && s.orgID != "" && s.apiBaseURL != "" && s.installToken == ""
      && s.interval >= 10 && 1 <= s.batchSize <= 1000
      && s.agentID == Answer(env.second).value.agentID
  {
    EntersLoopExactly(d, env, pair);
    var s := Overridden(d.config.settings, env.vars);
    AlwaysRebootstraps(d, env.pemOk, pair);
    BootstrapOutcome(d, s.(bootstrapped := false), env.second);
  }

  // ----- several processes on one disk -----

  /** One process: its environment, and how many of its disk effects happen before it is killed. */
  datatype Process = Process(env: RunEnv, cut: nat)

  function After(d: Disk, p: Process, pair: KeyPair): Disk {
    var steps := Run(d, p.env, pair).steps;
    Final(d, if p.cut < |steps| then steps[..p.cut] else steps)
  }

  function Runs(d: Disk, ps: seq<Process>, pair: KeyPair): Disk
    decreases |ps|
  {
    if ps == [] then d else Runs(After(d, ps[0], pair), ps[1..], pair)
  }

  /** What every configuration the agent itself saves satisfies, with the disk it is on: no token,
      marked as bootstrapped, all three PEM files written, and all that ValidateRuntime asks for
      except a non-empty agent id. */
  ghost predicate AgentSaved(d: Disk) {
    && d.config.Saved? && HasIdentity(d)
    && d.config.settings.installToken == ""
    && ValidRuntime(d.config.settings.(agentID := "x"))
  }

  /** The configuration is the one that was there at the start, or the agent saved it. */
  ghost predicate OriginalOrOwn(d: Disk, start: ConfigFile) {
    d.config == start || AgentSaved(d)
  }

  lemma {:induction false} BootstrapKeepsOwn(d: Disk, s: Settings, env: BootEnv, start: ConfigFile)
    requires OriginalOrOwn(d, start)
    ensures forall x :: x in RunBootstrap(d, s, env).steps ==> OriginalOrOwn(x, start)
  {
  }

  lemma {:induction false} RunKeepsOwn(d: Disk, env: RunEnv, pair: KeyPair, start: ConfigFile)
    requires RejectsEmptyKey(pair) && OriginalOrOwn(d, start)
    ensures forall x :: x in Run(d, env, pair).steps ==> OriginalOrOwn(x, start)
  {
    var o := Obtain(d, env);
    ObtainKeepsOwn(d, env, start);
    if o.result.Some? && ValidRuntime(o.result.value) {
      var m := Final(d, o.steps);
      var s := o.result.value.(bootstrapped := false);
      BootstrapKeepsOwn(m, s, env.second, start);
      BootstrapOutcome(m, s, env.second);
      AlwaysRebootstraps(m, env.pemOk, pair);
      var b := RunBootstrap(m, s, env.second);
      if b.result.Some? {
        forall x | x in SaveConfig(Final(m, b.steps), b.result.value, env.secondSaveOk) ensures AgentSaved(x) {}
      }
    }
  }

  lemma {:induction false} ObtainKeepsOwn(d: Disk, env: RunEnv, start: ConfigFile)
    requires OriginalOrOwn(d, start)
    ensures forall x :: x in Obtain(d, env).steps ==> OriginalOrOwn(x, start)
  {
    var s := NewBootstrapConfig(env.vars);
    BootstrapKeepsOwn(d, s, env.first, start);
    BootstrapOutcome(d, s, env.first);
  }

  lemma {:induction false} RunsKeepOwn(d: Disk, ps: seq<Process>, pair: KeyPair, start: ConfigFile)
    requires RejectsEmptyKey(pair) && OriginalOrOwn(d, start)
    ensures OriginalOrOwn(Runs(d, ps, pair), start)
    decreases |ps|
  {
    if ps != [] {
      RunKeepsOwn(d, ps[0].env, pair, start);
      RunsKeepOwn(After(d, ps[0], pair), ps[1..], pair, start);
    }
  }

  /** Start-up safety: after any number of processes, each possibly killed between any two disk
      effects, the configuration on disk is the original one or one that the agent saved after
      all three PEM files, without a token. */
  lemma {:induction false} SavedConfigsAreOwn(d: Disk, ps: seq<Process>, pair: KeyPair)
    requires RejectsEmptyKey(pair)
    ensures Runs(d, ps, pair).config == d.config || AgentSaved(Runs(d, ps, pair))
  {
    RunsKeepOwn(d, ps, pair, d.config);
  }

  // ----- the configuration and the files it goes with -----

  /** The configuration and all three PEM files on disk come from one and the same reply. */
  ghost predicate WrittenFrom(x: Disk, reply: Option<Response>) {
    && reply.Some? && x.config.Saved?
    && x.config.settings.agentID == reply.value.agentID && x.config.settings.apiBaseURL == reply.value.apiBaseURL
    && x == WithCertificates(x, reply.value)
  }

  function Prior(d: Disk, steps: seq<Disk>, i: nat): Disk
    requires i < |steps|
  {
    if i == 0 then d else steps[i - 1]
  }

  /** Whenever a step changes the configuration, the disk is then written from a reply of this
      process. */
  ghost predicate ConfigGoesWithFiles(d: Disk, steps: seq<Disk>, env: RunEnv) {
    forall i: nat :: i < |steps| ==>
      steps[i].config == Prior(d, steps, i).config
      || WrittenFrom(steps[i], Answer(env.first)) || WrittenFrom(steps[i], Answer(env.second))
  }

  lemma {:induction false} GoesWithFilesConcat(d: Disk, a: seq<Disk>, b: seq<Disk>, env: RunEnv)
    requires ConfigGoesWithFiles(d, a, env) && ConfigGoesWithFiles(Final(d, a), b, env)
    ensures ConfigGoesWithFiles(d, a + b, env)
  {
    forall i: nat | i < |a + b|
      ensures (a + b)[i].config == Prior(d, a + b, i).config
        || WrittenFrom((a + b)[i], Answer(env.first)) || WrittenFrom((a + b)[i], Answer(env.second))
    {
      if i >= |a| {
        var j: nat := i - |a|;
        assert (a + b)[i] == b[j] && Prior(d, a + b, i) == Prior(Final(d, a), b, j);
      } else {
        assert Prior(d, a + b, i) == Prior(d, a, i);
      }
    }
  }

  /** A bootstrap and the save after it. */
  lemma {:induction false} BootAndSave(d: Disk, s: Settings, boot: BootEnv, saveOk: bool, env: RunEnv)
    requires boot == env.first || boot == env.second
    ensures var b := RunBootstrap(d, s, boot);
      && ConfigGoesWithFiles(d, b.steps, env)
      && (b.result.Some? ==>
            && ConfigGoesWithFiles(d, b.steps + SaveConfig(Final(d, b.steps), b.result.value, saveOk), env)
            && (saveOk ==> WrittenFrom(Final(d, b.steps + SaveConfig(Final(d, b.steps), b.result.value, saveOk)), Answer(boot))))
  {
    var b := RunBootstrap(d, s, boot);
    BootstrapOutcome(d, s, boot);
    if b.result.Some? {
      GoesWithFilesConcat(d, b.steps, SaveConfig(Final(d, b.steps), b.result.value, saveOk), env);
    }
  }

  lemma {:induction false} ObtainGoesWithFiles(d: Disk, env: RunEnv)
    ensures ConfigGoesWithFiles(d, Obtain(d, env).steps, env)
  {
    BootAndSave(d, NewBootstrapConfig(env.vars), env.first, env.firstSaveOk, env);
  }

  lemma {:induction false} ActivateGoesWithFiles(d: Disk, s: Settings, env: RunEnv, pair: KeyPair)
    requires RejectsEmptyKey(pair)
    ensures var a := Activate(d, s, env, pair);
      && ConfigGoesWithFiles(d, a.steps, env)
      && (a.result.Some? && env.secondSaveOk ==> WrittenFrom(Final(d, a.steps), Answer(env.second)))
  {
    AlwaysRebootstraps(d, env.pemOk, pair);
    BootAndSave(d, s.(bootstrapped := false), env.second, env.secondSaveOk, env);
  }

  /** In every run of a process, at the step that writes a new configuration, certificate, key and
      CA on disk are those of the very reply whose agent id and base URL it carries; and a process
      that enters its loop after saving leaves the disk so. */
  lemma {:induction false} ConfigMatchesReply(d: Disk, env: RunEnv, pair: KeyPair)
    requires RejectsEmptyKey(pair)
    ensures ConfigGoesWithFiles(d, Run(d, env, pair).steps, env)
    ensures Run(d, env, pair).result.Some? && env.secondSaveOk ==>
              WrittenFrom(Final(d, Run(d, env, pair).steps), Answer(env.second))
  {
    var o := Obtain(d, env);
    ObtainGoesWithFiles(d, env);
    if o.result.Some? && ValidRuntime(o.result.value) && env.managerOk {
      var m := Final(d, o.steps);
      var a := Activate(m, o.result.value, env, pair);
      ActivateGoesWithFiles(m, o.result.value, env, pair);
      GoesWithFilesConcat(d, o.steps, a.steps, env);
      assert Final(d, o.steps + a.steps) == Final(m, a.steps);
    }
  }

  // ----- what every later start needs -----

  /** A machine set up without a configuration file: every process that ever enters the loop had
      the install token in its own environment. */
  lemma {:induction false} EveryStartNeedsTheToken(d: Disk, ps: seq<Process>, p: Process, pair: KeyPair)
    requires RejectsEmptyKey(pair) && d.config.Missing?
    requires Run(Runs(d, ps, pair), p.env, pair).result.Some?
    ensures p.env.vars.token != ""
  {
    SavedConfigsAreOwn(d, ps, pair);
    EntersLoopExactly(Runs(d, ps, pair), p.env, pair);
  }

  /** A saved configuration without an agent id, which a server reply can cause, is final: no later
      process changes the disk or enters the loop. */
  lemma {:induction false} EmptyAgentIdIsFinal(d: Disk, ps: seq<Process>, p: Process, pair: KeyPair)
    requires d.config.Saved? && d.config.settings.agentID == ""
    ensures Runs(d, ps, pair) == d
    ensures Run(d, p.env, pair) == Step([], None)
    decreases |ps|
  {
    if ps != [] {
      assert Run(d, ps[0].env, pair) == Step([], None);
      EmptyAgentIdIsFinal(d, ps[1..], p, pair);
    }
  }

  /** ... and one such reply to a first run is enough to get there. */
  lemma {:induction false} EmptyAgentIdIsReachable(d: Disk, env: RunEnv, pair: KeyPair)
    requires d.config.Missing? && BootstrapSucceeds(NewBootstrapConfig(env.vars), env.first) && env.firstSaveOk
    requires Answer(env.first).value.agentID == ""
    ensures var z := Final(d, Run(d, env, pair).steps); z.config.Saved? && z.config.settings.agentID == ""
  {
    BootstrapOutcome(d, NewBootstrapConfig(env.vars), env.first);
  }
}
