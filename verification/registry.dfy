/** The registry of running proxy servers: `start` closes every running
    server, reads the configuration and the TLS files, and opens one
    server per configured listener in order; `stop` closes them all;
    `reload` is `start`. The file system, the TLS layer and `listen` are
    inputs: each says only whether it succeeds. */
module Registry {
  import opened Wrappers
  import opened JsValues
  import opened ProxyConfig
  import opened Timeouts

  /** A running server: the port it listens on, the listener it serves and
      the server-level timeouts it was given. */
  datatype Server = Server(port: JsValue, listener: Listener, settings: ServerTimeouts)

  /** What the outside world answers: whether a path exists and can be read,
      whether the key and certificate form a valid TLS context, and whether
      `listen` throws at once for a port. */
  datatype Environment = Environment(
    fileExists: string -> bool,
    readable: string -> bool,
    pemValid: bool,
    listenThrows: JsValue -> bool)

  /** The result of an operation: its return value, the ports of the
      servers it closed, and the servers left running. */
  datatype Transition = Transition(ok: bool, closed: seq<JsValue>, servers: seq<Server>)

  function Ports(servers: seq<Server>): (r: seq<JsValue>)
    ensures |r| == |servers| && forall i :: 0 <= i < |r| ==> r[i] == servers[i].port
  {
    seq(|servers|, i requires 0 <= i < |servers| => servers[i].port)
  }

  /** `stopProxyServers`: closes every running server and reports success. */
  function Stop(servers: seq<Server>): (r: Transition)
    ensures r.ok && r.servers == [] && r.closed == Ports(servers)
  {
    Transition(true, Ports(servers), [])
  }

  /** Stopping twice closes nothing the second time. */
  lemma StopIdempotent(servers: seq<Server>)
    ensures Stop(Stop(servers).servers) == Transition(true, [], [])
  {
  }

  /** The number of listeners opened before the first whose `listen` throws. */
  function Opened(ls: seq<Listener>, throws: JsValue -> bool): (k: nat)
    ensures k <= |ls|
    ensures forall i :: 0 <= i < k ==> !throws(ls[i].port)
    ensures k < |ls| ==> throws(ls[k].port)
  {
    if |ls| == 0 || throws(ls[0].port) then 0 else 1 + Opened(ls[1..], throws)
  }

  /** The servers for the first `k` listeners, in order. */
  function ServersFor(ls: seq<Listener>, k: nat, settings: ServerTimeouts): (r: seq<Server>)
    requires k <= |ls|
    ensures |r| == k && forall i :: 0 <= i < k ==> r[i] == Server(ls[i].port, ls[i], settings)
  {
    seq(k, i requires 0 <= i < k => Server(ls[i].port, ls[i], settings))
  }

  /** The TLS files exist and can be read. */
  predicate FilesUsable(c: Config, env: Environment) {
    && env.fileExists(c.tlsKey) && env.fileExists(c.tlsCert)
    && env.readable(c.tlsKey) && env.readable(c.tlsCert)
  }

  /** Everything `start` needs goes right: a configuration, usable TLS
      files, a listener list, a valid TLS context when there is a listener
      to create, and no port that `listen` refuses. */
  predicate Startable(cfg: Option<Config>, env: Environment) {
    && cfg.Some? && FilesUsable(cfg.value, env) && cfg.value.listeners.Some?
    && (|cfg.value.listeners.value| > 0 ==> env.pemValid)
    && Opened(cfg.value.listeners.value, env.listenThrows) == |cfg.value.listeners.value|
  }

  /** `startProxyServers`. `cfg` is `None` when reading the configuration
      throws. Every running server is closed first. On success there is one
      server per configured listener, in configuration order; a failure
      before the first server leaves none, and a `listen` that throws
      leaves the servers opened before it running. */
  function Start(running: seq<Server>, cfg: Option<Config>, env: Environment): (r: Transition)
    ensures r.closed == Ports(running)
    ensures r.ok <==> Startable(cfg, env)
    ensures r.ok ==> r.servers == ServersFor(cfg.value.listeners.value, |cfg.value.listeners.value|,
                                             GetTimeouts(cfg.value.timeouts).server)
    ensures cfg.Some? && !FilesUsable(cfg.value, env) ==> !r.ok && r.servers == []
    ensures !r.ok && r.servers != [] ==> env.pemValid
    ensures !r.ok && r.servers != [] ==>
      && cfg.Some? && cfg.value.listeners.Some?
      && var ls := cfg.value.listeners.value;
         r.servers == ServersFor(ls, Opened(ls, env.listenThrows), GetTimeouts(cfg.value.timeouts).server)
  {
    var closed := Stop(running).closed;
    match cfg
    case None => Transition(false, closed, [])
    case Some(c) =>
      if !FilesUsable(c, env) then Transition(false, closed, [])
      else
        match c.listeners
        case None => Transition(false, closed, [])
        case Some(ls) =>
          if |ls| > 0 && !env.pemValid then Transition(false, closed, [])
          else
            var k := Opened(ls, env.listenThrows);
            Transition(k == |ls|, closed, ServersFor(ls, k, GetTimeouts(c.timeouts).server))
  }

  /** `reloadProxyServers`. */
  function Reload(running: seq<Server>, cfg: Option<Config>, env: Environment): Transition {
    Start(running, cfg, env)
  }

  /** What is running after a start does not depend on what ran before. */
  lemma StartForgetsRunning(a: seq<Server>, b: seq<Server>, cfg: Option<Config>, env: Environment)
    ensures Start(a, cfg, env).ok == Start(b, cfg, env).ok
    ensures Start(a, cfg, env).servers == Start(b, cfg, env).servers
  {
  }

  /** After a successful reload a port is served exactly when a configured
      listener names it, and the servers already running were all closed. */
  lemma ReloadServesConfig(running: seq<Server>, cfg: Option<Config>, env: Environment, p: JsValue)
    requires Reload(running, cfg, env).ok
    ensures Reload(running, cfg, env).closed == Ports(running)
    ensures p in Ports(Reload(running, cfg, env).servers) <==>
      exists j :: 0 <= j < |cfg.value.listeners.value| && cfg.value.listeners.value[j].port == p
  {
    var ls := cfg.value.listeners.value;
    var ports := Ports(Reload(running, cfg, env).servers);
    if p in ports {
      var i :| 0 <= i < |ports| && ports[i] == p;
      assert ls[i].port == p;
    }
    if exists j :: 0 <= j < |ls| && ls[j].port == p {
      var j :| 0 <= j < |ls| && ls[j].port == p;
      assert ports[j] == p;
    }
  }

  /** An empty listener list starts successfully with nothing running, even
      with an invalid key or certificate, since no server is created. */
  lemma EmptyListStarts(running: seq<Server>, c: Config, env: Environment)
    requires FilesUsable(c, env) && c.listeners == Some([])
    ensures Start(running, Some(c), env) == Transition(true, Ports(running), [])
  {
  }
}
