/** Start-up of the agent as values: configuration, identity files, bootstrap, and `run` up to its
    ticker loop.  A call is described by the disk states it passes through; a crash leaves any of
    them.  Certificates are parsed by an abstract `KeyPair`. */
module StartupSpec {
  import opened Wrappers
  import opened Retry

  // ----- configuration -----

  /** The fields of config.Config that start-up reads.  Durations are seconds. */
  datatype Settings = Settings(
    bootstrapped: bool, orgID: string, agentID: string, installToken: string,
    apiBaseURL: string, interval: int, batchSize: int)

  /** ORG_ID and INSTALL_TOKEN. */
  datatype EnvVars = EnvVars(orgID: string, token: string)

  /** Load: empty fields are filled from the environment. */
  function Overridden(s: Settings, v: EnvVars): Settings {
    var t := if s.orgID == "" && v.orgID != "" then s.(orgID := v.orgID) else s;
    if t.installToken == "" && v.token != "" then t.(installToken := v.token) else t
  }

  function NewBootstrapConfig(v: EnvVars): Settings {
    Settings(false, v.orgID, "", v.token, "", 60, 100)
  }

  predicate ValidBootstrap(s: Settings) {
    s.orgID != "" && s.installToken != ""
  }

  predicate ValidRuntime(s: Settings) {
    && s.bootstrapped && s.orgID != "" && s.agentID != "" && s.apiBaseURL != ""
    && s.interval >= 10 && 1 <= s.batchSize <= 1000
  }

  function Marked(s: Settings, agentID: string, apiBaseURL: string): Settings {
    s.(bootstrapped := true, agentID := agentID, apiBaseURL := apiBaseURL, installToken := "")
  }

  // ----- disk -----

  datatype ConfigFile = Missing | Unparsable | Saved(settings: Settings)

  datatype Disk = Disk(config: ConfigFile, cert: Option<string>, key: Option<string>, ca: Option<string>)

  predicate HasIdentity(d: Disk) {
    d.cert.Some? && d.key.Some? && d.ca.Some?
  }

  // ----- identity -----

  /** What tls.X509KeyPair and x509.ParseCertificate make of a pair of PEM blocks. */
  datatype Certificate = Certificate(parses: bool, commonName: string, expiresSoon: bool)
  type KeyPair = (string, string) -> Option<Certificate>

  /** VerifyIdentity: the agent id of the stored certificate, if files and pair are good. */
  function Identity(d: Disk, pemOk: bool, pair: KeyPair): Option<string> {
    if !pemOk || d.cert.None? || d.key.None? then None
    else
      match pair(d.cert.value, d.key.value)
      case None => None
      case Some(c) => if c.parses then Some(c.commonName) else None
  }

  /** NeedsRebootstrap.  The expiry check pairs the certificate with an empty key. */
  function NeedsRebootstrap(d: Disk, pemOk: bool, pair: KeyPair): bool {
    if !HasIdentity(d) then true
    else if Identity(d, pemOk, pair).None? then true
    else
      match pair(d.cert.value, "")
      case None => true
      case Some(c) => !c.parses || c.expiresSoon
  }

  // ----- bootstrap -----

  datatype Response = Response(agentID: string, apiBaseURL: string, certificate: string, privateKey: string, caCert: string)

  const DEFAULT_BASE := "https://api.unitechio.space"

  /** callBootstrapAPI: a missing base URL is replaced. */
  function Defaulted(r: Response): Response {
    if r.apiBaseURL == "" then r.(apiBaseURL := DEFAULT_BASE) else r
  }

  /** The server's answer to each attempt, and the disk's to each of the three writes. */
  datatype BootEnv = BootEnv(
    managerOk: bool, reply: nat -> Option<Response>, cancelled: nat -> bool, draw: nat -> Draw,
    certOk: bool, keyOk: bool, caOk: bool)

  function AttemptsOf(env: BootEnv): RetryEnv {
    RetryEnv((k: nat) => env.reply(k).Some?, env.cancelled, env.draw)
  }

  /** The response the retry loop ends with. */
  function Answer(env: BootEnv): Option<Response> {
    var r := Loop(DEFAULT, AttemptsOf(env), 0);
    if r.result == Succeeded && r.calls > 0 && env.reply(r.calls - 1).Some? then
      Some(Defaulted(env.reply(r.calls - 1).value))
    else None
  }

  datatype Step<T> = Step(steps: seq<Disk>, result: Option<T>)

  /** saveCertificates: three writes, stopping at the first that fails. */
  function SaveCertificates(d: Disk, r: Response, env: BootEnv): Step<()> {
    if !env.certOk then Step([], None)
    else
      var d1 := d.(cert := Some(r.certificate));
      if !env.keyOk then Step([d1], None)
      else
        var d2 := d1.(key := Some(r.privateKey));
        if !env.caOk then Step([d1, d2], None)
        else Step([d1, d2, d2.(ca := Some(r.caCert))], Some(()))
  }

  function RunBootstrap(d: Disk, s: Settings, env: BootEnv): Step<Settings> {
    if !ValidBootstrap(s) || !env.managerOk then Step([], None)
    else
      match Answer(env)
      case None => Step([], None)
      case Some(r) =>
        var w := SaveCertificates(d, r, env);
        Step(w.steps, if w.result.Some? then Some(Marked(s, r.agentID, r.apiBaseURL)) else None)
  }

  // ----- run -----

  datatype RunEnv = RunEnv(
    vars: EnvVars, configReadable: bool, first: BootEnv, firstSaveOk: bool,
    managerOk: bool, pemOk: bool, second: BootEnv, secondSaveOk: bool, managerAgainOk: bool,
    policyOk: bool)

  function SaveConfig(d: Disk, s: Settings, ok: bool): seq<Disk> {
    if ok then [d.(config := Saved(s))] else []
  }

  /** Steps 1 to 6: the configuration, loaded or bootstrapped and saved. */
  function Obtain(d: Disk, env: RunEnv): Step<Settings> {
    match d.config
    case Unparsable => Step([], None)
    case Saved(s) => Step([], if env.configReadable then Some(Overridden(s, env.vars)) else None)
    case Missing =>
      var b := RunBootstrap(d, NewBootstrapConfig(env.vars), env.first);
      if b.result.None? then b
      else
        var saved := SaveConfig(Final(d, b.steps), b.result.value, env.firstSaveOk);
        Step(b.steps + saved, if env.firstSaveOk then b.result else None)
  }

  /** Steps 9 to 13: re-bootstrap if needed, verify the identity, start the components. */
  function Activate(d: Disk, s: Settings, env: RunEnv, pair: KeyPair): Step<Settings> {
    if !NeedsRebootstrap(d, env.pemOk, pair) then
      Step([], if Identity(d, env.pemOk, pair).Some? && env.policyOk then Some(s) else None)
    else
      var b := RunBootstrap(d, s.(bootstrapped := false), env.second);
      if b.result.None? then b
      else
        var saved := SaveConfig(Final(d, b.steps), b.result.value, env.secondSaveOk);
        var z := Final(Final(d, b.steps), saved);
        Step(b.steps + saved,
             if env.managerAgainOk && Identity(z, env.pemOk, pair).Some? && env.policyOk then b.result else None)
  }

  /** run, up to its ticker loop: Some(settings) when the loop is entered with these settings. */
  function Run(d: Disk, env: RunEnv, pair: KeyPair): Step<Settings> {
    var o := Obtain(d, env);
    if o.result.None? || !ValidRuntime(o.result.value) || !env.managerOk then Step(o.steps, None)
    else
      var a := Activate(Final(d, o.steps), o.result.value, env, pair);
      Step(o.steps + a.steps, a.result)
  }
}
