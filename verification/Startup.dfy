/** The start-up objects: a configuration that is updated in place, the identity manager, and `run`,
    on a disk that remembers, for proof only, every state it has been in. */
module Startup {
  import opened Wrappers
  import opened Retry
  import opened StartupSpec

  class Machine {
    var d: Disk
    ghost var trace: seq<Disk>

    constructor (d: Disk)
      ensures this.d == d && trace == []
    {
      this.d, this.trace := d, [];
    }

    /** One whole-file write. */
    method Put(d: Disk)
      modifies this
      ensures this.d == d && trace == old(trace) + [d]
    {
      this.d := d;
      trace := trace + [d];
    }

    /** The disk went through exactly these states. */
    twostate predicate Went(steps: seq<Disk>)
      reads this
    {
      d == Final(old(d), steps) && trace == old(trace) + steps
    }
  }

  class Config {
    var s: Settings

    constructor (s: Settings)
      ensures this.s == s
    {
      this.s := s;
    }

    /** The override part of Load. */
    method Override(v: EnvVars)
      modifies this
      ensures s == Overridden(old(s), v)
    {
      if s.orgID == "" {
        if v.orgID != "" {
          s := s.(orgID := v.orgID);
        }
      }
      if s.installToken == "" {
        if v.token != "" {
          s := s.(installToken := v.token);
        }
      }
    }

    method MarkBootstrapped(agentID: string, apiBaseURL: string)
      modifies this
      ensures s == Marked(old(s), agentID, apiBaseURL)
    {
      s := s.(bootstrapped := true);
      s := s.(agentID := agentID);
      s := s.(apiBaseURL := apiBaseURL);
      s := s.(installToken := "");
    }

    method Save(m: Machine, allowed: bool) returns (ok: bool)
      modifies m
      ensures ok == allowed && m.Went(SaveConfig(old(m.d), s, allowed))
    {
      if allowed {
        m.Put(m.d.(config := Saved(s)));
      }
      return allowed;
    }
  }

  class Manager {
    const m: Machine
    const pair: KeyPair
    var agentID: string

    constructor (m: Machine, pair: KeyPair)
      ensures this.m == m && this.pair == pair
    {
      this.m, this.pair, this.agentID := m, pair, "";
    }

    /** VerifyIdentity: also remembers the agent id of the certificate. */
    method VerifyIdentity(pemOk: bool) returns (ok: bool)
      modifies this
      ensures ok == Identity(m.d, pemOk, pair).Some?
      ensures agentID == if ok then Identity(m.d, pemOk, pair).value else old(agentID)
    {
      if !pemOk || m.d.cert.None? || m.d.key.None? {
        return false;
      }
      var c := pair(m.d.cert.value, m.d.key.value);
      if c.None? || !c.value.parses {
        return false;
      }
      agentID := c.value.commonName;
      return true;
    }

    method NeedsRebootstrap(pemOk: bool) returns (b: bool)
      modifies this
      ensures b == StartupSpec.NeedsRebootstrap(m.d, pemOk, pair)
      ensures agentID == if HasIdentity(m.d) && Identity(m.d, pemOk, pair).Some?
                         then Identity(m.d, pemOk, pair).value else old(agentID)
    {
      if !HasIdentity(m.d) {
        return true;
      }
      var ok := VerifyIdentity(pemOk);
      if !ok {
        return true;
      }
      var c := pair(m.d.cert.value, "");
      if c.None? || !c.value.parses {
        return true;
      }
      return c.value.expiresSoon;
    }

    method SaveCertificates(r: Response, env: BootEnv) returns (ok: bool)
      modifies m
      ensures var w := StartupSpec.SaveCertificates(old(m.d), r, env); ok == w.result.Some? && m.Went(w.steps)
    {
      if !env.certOk {
        return false;
      }
      m.Put(m.d.(cert := Some(r.certificate)));
      if !env.keyOk {
        return false;
      }
      m.Put(m.d.(key := Some(r.privateKey)));
      if !env.caOk {
        return false;
      }
      m.Put(m.d.(ca := Some(r.caCert)));
      return true;
    }
  }

  method RunBootstrap(m: Machine, cfg: Config, env: BootEnv, pair: KeyPair) returns (ok: bool)
    modifies m, cfg
    ensures var b := StartupSpec.RunBootstrap(old(m.d), old(cfg.s), env);
      ok == b.result.Some? && m.Went(b.steps) && cfg.s == (if ok then b.result.value else old(cfg.s))
  {
    if !ValidBootstrap(cfg.s) || !env.managerOk {
      return false;
    }
    var manager := new Manager(m, pair);
    var r, calls, _, _ := RetryWithBackoff(DEFAULT, AttemptsOf(env));
    if r != Succeeded {
      return false;
    }
    SucceedsWithLastCall(DEFAULT, AttemptsOf(env), 0);
    var resp := Defaulted(env.reply(calls - 1).value);
    var written := manager.SaveCertificates(resp, env);
    if !written {
      return false;
    }
    cfg.MarkBootstrapped(resp.agentID, resp.apiBaseURL);
    return true;
  }

  /** Steps 1 to 6 of run. */
  method Obtain(m: Machine, env: RunEnv, pair: KeyPair) returns (cfg: Config, ok: bool)
    modifies m
    ensures fresh(cfg)
    ensures var o := StartupSpec.Obtain(old(m.d), env);
      ok == o.result.Some? && m.Went(o.steps) && (ok ==> cfg.s == o.result.value)
  {
    cfg := new Config(NewBootstrapConfig(env.vars));
    match m.d.config
    case Unparsable =>
      return cfg, false;
    case Saved(s) =>
      cfg := new Config(s);
      cfg.Override(env.vars);
      return cfg, env.configReadable;
    case Missing =>
      ok := RunBootstrap(m, cfg, env.first, pair);
      if ok {
        ok := cfg.Save(m, env.firstSaveOk);
      }
  }

  /** Steps 9 to 13 of run. */
  method Activate(m: Machine, cfg: Config, env: RunEnv, pair: KeyPair) returns (ok: bool)
    modifies m, cfg
    ensures var a := StartupSpec.Activate(old(m.d), old(cfg.s), env, pair);
      ok == a.result.Some? && m.Went(a.steps) && (ok ==> cfg.s == a.result.value)
  {
    var manager := new Manager(m, pair);
    var needs := manager.NeedsRebootstrap(env.pemOk);
    if needs {
      cfg.s := cfg.s.(bootstrapped := false);
      ok := RunBootstrap(m, cfg, env.second, pair);
      if !ok {
        return false;
      }
      var saved := cfg.Save(m, env.secondSaveOk);
      if !env.managerAgainOk {
        return false;
      }
      manager := new Manager(m, pair);
    }
    ok := manager.VerifyIdentity(env.pemOk);
    ok := ok && env.policyOk;
  }

  /** run, up to its ticker loop; `ok` when the loop is entered with the settings of `cfg`. */
  method Run(m: Machine, env: RunEnv, pair: KeyPair) returns (cfg: Config, ok: bool)
    modifies m
    ensures var r := StartupSpec.Run(old(m.d), env, pair);
      ok == r.result.Some? && m.Went(r.steps) && (ok ==> cfg.s == r.result.value)
  {
    ghost var o := StartupSpec.Obtain(m.d, env);
    ghost var before := m.d;
    cfg, ok := Obtain(m, env, pair);
    if !ok || !ValidRuntime(cfg.s) || !env.managerOk {
      return cfg, false;
    }
    FinalConcat(before, o.steps, StartupSpec.Activate(m.d, cfg.s, env, pair).steps);
    ok := Activate(m, cfg, env, pair);
  }
}
