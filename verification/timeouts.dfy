/** The socket tuning policy: effective server, socket and SOCKS timeouts
    resolved from the optional `timeouts` configuration, each field falling
    back to its default only when it is `null` or `undefined` (`??`). */
module Timeouts {
  import opened Wrappers
  import opened JsValues
  import opened ProxyConfig

  /** Twenty-four hours in milliseconds, the stand-in for "never". */
  const BigTimeoutMs: int := 24 * 60 * 60 * 1000

  /** The resolved policy; every field is defined. */
  datatype TimeoutPolicy = TimeoutPolicy(server: ServerTimeouts, socket: SocketTimeouts, socks: SocksTimeouts)

  /** The policy an empty configuration yields. */
  const Defaults: TimeoutPolicy := TimeoutPolicy(
    ServerTimeouts(Num(0), Num(BigTimeoutMs), Num(BigTimeoutMs), Num(0)),
    SocketTimeouts(Num(0), Bool(true), Num(60_000)),
    SocksTimeouts(Num(BigTimeoutMs)))

  const NoServer := ServerTimeouts(Undefined, Undefined, Undefined, Undefined)
  const NoSocket := SocketTimeouts(Undefined, Undefined, Undefined)
  const NoSocks := SocksTimeouts(Undefined)

  /** No field of the policy is `null` or `undefined`. */
  predicate Defined(p: TimeoutPolicy) {
    && !Nullish(p.server.requestTimeout) && !Nullish(p.server.headersTimeout)
    && !Nullish(p.server.keepAliveTimeout) && !Nullish(p.server.socketTimeout)
    && !Nullish(p.socket.idleTimeout) && !Nullish(p.socket.keepAlive)
    && !Nullish(p.socket.keepAliveInitialDelayMs) && !Nullish(p.socks.handshakeTimeoutMs)
  }

  /** `d` is what the resolver makes of configured value `c` against default `v`. */
  predicate Resolves(c: JsValue, v: JsValue, d: JsValue) {
    (Nullish(c) ==> d == v) && (!Nullish(c) ==> d == c)
  }

  /** `getTimeouts()`: each field is the configured value unless that is
      `null`/`undefined`, in which case it is the default; an absent section
      counts as all fields absent. The result never has a nullish field. */
  function GetTimeouts(t: Option<TimeoutsConfig>): (p: TimeoutPolicy)
    ensures Defined(p)
    ensures
      var s := if t.Some? then t.value.server.GetOr(NoServer) else NoServer;
      && Resolves(s.requestTimeout, Defaults.server.requestTimeout, p.server.requestTimeout)
      && Resolves(s.headersTimeout, Defaults.server.headersTimeout, p.server.headersTimeout)
      && Resolves(s.keepAliveTimeout, Defaults.server.keepAliveTimeout, p.server.keepAliveTimeout)
      && Resolves(s.socketTimeout, Defaults.server.socketTimeout, p.server.socketTimeout)
    ensures
      var k := if t.Some? then t.value.socket.GetOr(NoSocket) else NoSocket;
      && Resolves(k.idleTimeout, Defaults.socket.idleTimeout, p.socket.idleTimeout)
      && Resolves(k.keepAlive, Defaults.socket.keepAlive, p.socket.keepAlive)
      && Resolves(k.keepAliveInitialDelayMs, Defaults.socket.keepAliveInitialDelayMs, p.socket.keepAliveInitialDelayMs)
    ensures
      var x := if t.Some? then t.value.socks.GetOr(NoSocks) else NoSocks;
      Resolves(x.handshakeTimeoutMs, Defaults.socks.handshakeTimeoutMs, p.socks.handshakeTimeoutMs)
  {
    var s := if t.Some? then t.value.server.GetOr(NoServer) else NoServer;
    var k := if t.Some? then t.value.socket.GetOr(NoSocket) else NoSocket;
    var x := if t.Some? then t.value.socks.GetOr(NoSocks) else NoSocks;
    TimeoutPolicy(
      ServerTimeouts(
        Coalesce(s.requestTimeout, Num(0)),
        Coalesce(s.headersTimeout, Num(BigTimeoutMs)),
        Coalesce(s.keepAliveTimeout, Num(BigTimeoutMs)),
        Coalesce(s.socketTimeout, Num(0))),
      SocketTimeouts(
        Coalesce(k.idleTimeout, Num(0)),
        Coalesce(k.keepAlive, Bool(true)),
        Coalesce(k.keepAliveInitialDelayMs, Num(60_000))),
      SocksTimeouts(Coalesce(x.handshakeTimeoutMs, Num(BigTimeoutMs))))
  }

  /** The configuration that states every field of a policy explicitly. */
  function AsConfig(p: TimeoutPolicy): TimeoutsConfig {
    TimeoutsConfig(Some(p.server), Some(p.socket), Some(p.socks))
  }

  /** With no `timeouts` section, the documented defaults apply: request and
      socket timeouts disabled, headers and keep-alive 24 hours, idle
      timeout disabled, keep-alive on after 60 s, handshake 24 hours. */
  lemma DefaultsWithoutConfig()
    ensures GetTimeouts(None) == Defaults
    ensures Defaults.server.headersTimeout == Num(86_400_000)
    ensures GetTimeouts(Some(TimeoutsConfig(None, None, None))) == Defaults
  {
  }

  /** A fully stated, defined policy is taken over unchanged, so resolving is
      idempotent: resolving the result of a resolution changes nothing. */
  lemma ExplicitPolicyKept(p: TimeoutPolicy)
    requires Defined(p)
    ensures GetTimeouts(Some(AsConfig(p))) == p
  {
  }

  lemma ResolveIdempotent(t: Option<TimeoutsConfig>)
    ensures GetTimeouts(Some(AsConfig(GetTimeouts(t)))) == GetTimeouts(t)
  {
    ExplicitPolicyKept(GetTimeouts(t));
  }

  /** `??` keeps explicit `0` and `false`, where `||` would have replaced them:
      a configured `keepAlive: false` turns keep-alive off and a configured
      `headersTimeout: 0` disables the headers timeout. */
  lemma ExplicitFalsyKept(s: ServerTimeouts, k: SocketTimeouts)
    requires s.headersTimeout == Num(0) && k.keepAlive == Bool(false)
    ensures GetTimeouts(Some(TimeoutsConfig(Some(s), Some(k), None))).server.headersTimeout == Num(0)
    ensures GetTimeouts(Some(TimeoutsConfig(Some(s), Some(k), None))).socket.keepAlive == Bool(false)
    ensures Or(s.headersTimeout, Num(BigTimeoutMs)) != s.headersTimeout
  {
  }

  /** What `tuneSocket` applies to one socket: `setTimeout(idleTimeout)` and
      `setKeepAlive(!!keepAlive, keepAliveInitialDelayMs)`. */
  datatype SocketTuning = SocketTuning(idleTimeout: JsValue, keepAlive: bool, initialDelayMs: JsValue)

  function TuneSocket(t: Option<TimeoutsConfig>): (r: SocketTuning)
    ensures r.keepAlive == Truthy(GetTimeouts(t).socket.keepAlive)
    ensures t.None? ==> r == SocketTuning(Num(0), true, Num(60_000))
  {
    var p := GetTimeouts(t);
    SocketTuning(p.socket.idleTimeout, Truthy(p.socket.keepAlive), p.socket.keepAliveInitialDelayMs)
  }
}
