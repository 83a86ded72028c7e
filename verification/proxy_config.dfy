/** The configuration the proxy engine reads on every decision: the global
    `maskProxyAuth` switch, the optional timeout sections, the shared TLS
    file paths, the `httpsProxyListeners` list and the admin account. */
module ProxyConfig {
  import opened Wrappers
  import opened JsValues

  /** One entry of `httpsProxyListeners`, field by field: `port`, `USERNAME`,
      `PASSWORD`, `SOCKS_HOST`, `SOCKS_PORT`, `SOCKS_USERNAME`,
      `SOCKS_PASSWORD`. `Undefined` is an absent key. */
  datatype Listener = Listener(
    port: JsValue,
    username: JsValue,
    password: JsValue,
    socksHost: JsValue,
    socksPort: JsValue,
    socksUsername: JsValue,
    socksPassword: JsValue)

  /** `timeouts.server`: the four server-level settings. */
  datatype ServerTimeouts = ServerTimeouts(
    requestTimeout: JsValue,
    headersTimeout: JsValue,
    keepAliveTimeout: JsValue,
    socketTimeout: JsValue)

  /** `timeouts.socket`: per-socket idle timeout and TCP keep-alive. */
  datatype SocketTimeouts = SocketTimeouts(
    idleTimeout: JsValue,
    keepAlive: JsValue,
    keepAliveInitialDelayMs: JsValue)

  /** `timeouts.socks`: the SOCKS5 handshake bound. */
  datatype SocksTimeouts = SocksTimeouts(handshakeTimeoutMs: JsValue)

  /** `timeouts`; a section that is absent or not an object is `None`. */
  datatype TimeoutsConfig = TimeoutsConfig(
    server: Option<ServerTimeouts>,
    socket: Option<SocketTimeouts>,
    socks: Option<SocksTimeouts>)

  datatype Admin = Admin(username: JsValue, password: JsValue)

  /** The whole configuration module. `timeouts` is `None` when it is falsy or
      not an object, `listeners` when `httpsProxyListeners` is absent or not
      an array, `admin` when it is falsy. */
  datatype Config = Config(
    maskProxyAuth: JsValue,
    timeouts: Option<TimeoutsConfig>,
    tlsKey: string,
    tlsCert: string,
    listeners: Option<seq<Listener>>,
    admin: Option<Admin>)
}
