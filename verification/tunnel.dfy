/** The CONNECT handler of both variants (section 9.3.6 of RFC 9110): the
    credential gate, the target taken from the request target, the choice
    between a direct TCP connection and the listener's SOCKS5 proxy, and
    the fixed text written to the client on each outcome. Whether the
    upstream connection opens is a parameter; the byte splicing that follows
    a successful open is not modelled. */
module Tunnel {
  import opened Wrappers
  import opened JsText
  import opened JsValues
  import opened HeaderMap
  import opened ProxyConfig
  import opened Timeouts
  import opened ProxyAuth

  /** Where a tunnel goes: the host text and the port after conversion,
      which may be NaN. */
  datatype Target = Target(host: string, port: Numeric)

  /** The second `:`-piece of a request target, `undefined` when it holds no colon. */
  function PortPiece(url: string): JsValue {
    var parts := SplitOn(url, ":");
    if |parts| >= 2 then Str(parts[1]) else Undefined
  }

  /** The proxy engine's reading, `const [host, port = 443] = url.split(':')`
      then `Number(port)`: the default applies only when there is no colon. */
  function ManagerTarget(url: string): (t: Target)
    ensures t.host <= url && ':' !in t.host
    ensures ':' !in url ==> t == Target(url, Integer(443))
  {
    var parts := SplitOn(url, ":");
    NotFoundAbsent(parts[0], ':');
    SplitOnFirst(url, ":");
    NoColonNoPiece(url);
    var piece := PortPiece(url);
    Target(SplitOn(url, ":")[0], if piece.Undefined? then Integer(443) else StringToNumber(piece.s))
  }

  lemma NoColonNoPiece(url: string)
    ensures ':' !in url ==> SplitOn(url, ":") == [url] && PortPiece(url).Undefined?
  {
    if ':' !in url {
      NoFirstElementNoOccurrence(url, ":");
    }
  }

  /** The single-file variant's reading, `parseInt(port, 10) || 443`: the
      default applies whenever the piece is absent, not a number or 0. */
  function IndexTarget(url: string): (t: Target)
    ensures t.port.Integer? && t.port.value != 0
  {
    Target(SplitOn(url, ":")[0], Integer(NumberOr(ParseInt(ToJsString(PortPiece(url)), 10), 443)))
  }

  /** Without a colon the whole target is the host and both variants dial 443. */
  lemma TargetWithoutColon(url: string)
    requires ':' !in url
    ensures ManagerTarget(url) == Target(url, Integer(443))
    ensures IndexTarget(url) == Target(url, Integer(443))
  {
    NoFirstElementNoOccurrence(url, ":");
    UndefinedIsNaN();
  }

  /** `parseInt(undefined, 10)` reads the text "undefined": no digit, NaN. */
  lemma UndefinedIsNaN()
    ensures ParseInt(ToJsString(Undefined), 10) == NaN
  {
    var w := "undefined";
    assert !IsJsSpace(w[0]);
    assert TrimStart(w) == w;
    assert !IsDigitIn(w[0], 10);
  }

  /** The host is the text before the first colon, and the port is read from
      the text between the first and the second colon. */
  lemma TargetWithColon(host: string, rest: string)
    requires ':' !in host
    ensures ManagerTarget(host + ":" + rest) == Target(host, StringToNumber(SplitOn(rest, ":")[0]))
    ensures IndexTarget(host + ":" + rest)
      == Target(host, Integer(NumberOr(ParseInt(SplitOn(rest, ":")[0], 10), 443)))
  {
    assert host + ":" + rest == host + [':'] + rest;
    SplitOnCons(host, ":", rest);
  }

  /** On `host:port` with a decimal port other than 0 both readings agree. */
  lemma TargetsAgreeOnDecimalPort(host: string, n: nat)
    requires ':' !in host && n != 0
    ensures ManagerTarget(host + ":" + NatString(n)) == Target(host, Integer(n))
    ensures IndexTarget(host + ":" + NatString(n)) == Target(host, Integer(n))
  {
    var d := NatString(n);
    TargetWithColon(host, d);
    DecimalPiece(n);
    StringToNumberOfDecimal(n);
    ParseIntOfDecimal(n, "", 10);
    assert DecimalString(n) + "" == d;
  }

  /** A numeral holds no colon, so it is its own first piece. */
  lemma DecimalPiece(n: nat)
    ensures SplitOn(NatString(n), ":") == [NatString(n)]
  {
    var d := NatString(n);
    NatStringDenotes(n);
    forall k | 0 <= k < |d| ensures d[k] != ':' {
      assert IsDigitIn(d[k], 10);
    }
    NoFirstElementNoOccurrence(d, ":");
  }

  /** `host:` with nothing after the colon: `Number("")` is 0, so the proxy
      engine dials port 0, while the single-file variant falls back to 443. */
  lemma TargetsDisagreeOnEmptyPort(host: string)
    requires ':' !in host
    ensures ManagerTarget(host + ":") == Target(host, Integer(0))
    ensures IndexTarget(host + ":") == Target(host, Integer(443))
  {
    assert host + ":" == host + ":" + "";
    TargetWithColon(host, "");
    EmptyPiece();
  }

  lemma EmptyPiece()
    ensures SplitOn("", ":") == [""]
    ensures StringToNumber("") == Integer(0)
    ensures ParseInt("", 10) == NaN
  {
    NoFirstElementNoOccurrence("", ":");
  }

  /** The request handed to the SOCKS5 client library. `timeout` is absent
      when the caller passes none. */
  datatype SocksRequest = SocksRequest(
    proxyHost: JsValue,
    proxyPort: JsValue,
    userId: JsValue,
    password: JsValue,
    destHost: string,
    destPort: Numeric,
    timeout: Option<JsValue>)

  /** The SOCKS5 request for a profile: the proxy is the listener's
      `SOCKS_HOST`/`SOCKS_PORT`, and each credential is passed only when
      truthy (`|| undefined`). */
  function SocksRequestFor(l: Listener, host: string, port: Numeric, timeout: Option<JsValue>): (r: SocksRequest)
    ensures r.proxyHost == l.socksHost && r.proxyPort == l.socksPort
    ensures r.destHost == host && r.destPort == port && r.timeout == timeout
    ensures Truthy(l.socksUsername) ==> r.userId == l.socksUsername
    ensures !Truthy(l.socksUsername) ==> r.userId == Undefined
    ensures Truthy(l.socksPassword) ==> r.password == l.socksPassword
    ensures !Truthy(l.socksPassword) ==> r.password == Undefined
  {
    SocksRequest(l.socksHost, l.socksPort, Or(l.socksUsername, Undefined), Or(l.socksPassword, Undefined),
      host, port, timeout)
  }

  /** How a tunnel reaches its target. */
  datatype Route = Direct(host: string, port: Numeric) | ViaSocks(request: SocksRequest)

  /** A falsy `SOCKS_HOST` means a direct connection. */
  function RouteFor(l: Listener, t: Target, timeout: Option<JsValue>): (r: Route)
    ensures r.Direct? <==> !Truthy(l.socksHost)
    ensures r.Direct? ==> r.host == t.host && r.port == t.port
    ensures r.ViaSocks? ==> r.request == SocksRequestFor(l, t.host, t.port, timeout)
  {
    if !Truthy(l.socksHost) then Direct(t.host, t.port)
    else ViaSocks(SocksRequestFor(l, t.host, t.port, timeout))
  }

  /** Node's check on the port `net.connect` is given: an integer from 0 to
      65535 (0 is allowed). Any other port, NaN included, makes `net.connect`
      throw at once, before any callback or `'error'` handler exists. */
  predicate ConnectablePort(p: Numeric) {
    p.Integer? && 0 <= p.value <= 65535
  }

  /** A direct route whose port fails Node's check: dialling it throws. */
  predicate DialThrows(route: Route) {
    route.Direct? && !ConnectablePort(route.port)
  }

  /** How the client socket is left: spliced to the upstream, ended after
      the reply, destroyed without a reply, or untouched because the handler
      threw before writing anything. Nothing awaits the `async` handler, so
      the throw is an unhandled rejection; with no `unhandledRejection`
      listener installed, Node 15 and later end the whole process on it. */
  datatype Ending = Spliced | Ended | Destroyed | Thrown

  /** Everything a CONNECT does that the client or the upstream can see:
      the route taken (none for a refused client), the text written to the
      client, the bytes written upstream before splicing, and the ending. */
  datatype TunnelOutcome = TunnelOutcome(route: Option<Route>, toClient: string, toUpstream: string, ending: Ending)

  const ManagerEstablished: string := "HTTP/1.1 200 Connection Established\r\nProxy-Agent: Socks‑Bridge\r\n\r\n"
  const IndexEstablished: string := "HTTP/1.1 200 Connection Established\r\nProxy-Agent: Node.js-Proxy\r\n\r\n"
  const BadGateway: string := "HTTP/1.1 502 Bad Gateway\r\n\r\n"

  /** The proxy engine's `handleConnect`. `cfg` is the configuration read
      during the request, `head` the bytes that arrived with the CONNECT,
      `connects` whether the chosen route opens. The SOCKS handshake is
      bounded by the configured handshake timeout. A refused client gets
      the masked or challenging reply and no route; a direct port that
      fails Node's check throws; a failed direct connection destroys the
      client socket without a reply; a failed SOCKS connection answers 502. */
  function ManagerConnect(hs: Headers, url: string, head: string, l: Listener, cfg: Config,
                          decode: string -> string, connects: Route -> bool): (r: TunnelOutcome)
    ensures r.route.None? <==> Authenticate(hs, l, decode).None?
    ensures r.route.None? ==>
      r.toClient == ManagerConnectDenial(cfg.maskProxyAuth) && r.toUpstream == [] && r.ending == Ended
    ensures r.route.Some? ==>
      r.route.value == RouteFor(l, ManagerTarget(url), Some(GetTimeouts(cfg.timeouts).socks.handshakeTimeoutMs))
    ensures r.ending == Thrown <==> r.route.Some? && DialThrows(r.route.value)
    ensures r.ending == Thrown ==> r.toClient == [] && r.toUpstream == []
    ensures r.ending == Spliced <==> r.route.Some? && !DialThrows(r.route.value) && connects(r.route.value)
    ensures r.ending == Spliced ==> r.toClient == ManagerEstablished && r.toUpstream == head
    ensures r.route.Some? && !DialThrows(r.route.value) && !connects(r.route.value) ==>
      && r.toUpstream == []
      && (r.route.value.Direct? ==> r.ending == Destroyed && r.toClient == [])
      && (r.route.value.ViaSocks? ==> r.ending == Ended && r.toClient == BadGateway)
  {
    match Authenticate(hs, l, decode)
    case None => TunnelOutcome(None, ManagerConnectDenial(cfg.maskProxyAuth), [], Ended)
    case Some(profile) =>
      var route := RouteFor(profile, ManagerTarget(url), Some(GetTimeouts(cfg.timeouts).socks.handshakeTimeoutMs));
      if DialThrows(route) then TunnelOutcome(Some(route), [], [], Thrown)
      else if connects(route) then TunnelOutcome(Some(route), ManagerEstablished, head, Spliced)
      else if route.Direct? then TunnelOutcome(Some(route), [], [], Destroyed)
      else TunnelOutcome(Some(route), BadGateway, [], Ended)
  }

  /** The single-file variant's `handleConnect`: always the 407 challenge on
      refusal, no handshake timeout, a throw on a direct port outside 0 to
      65535, and a failed direct connection ends the client socket. */
  function IndexConnect(hs: Headers, url: string, head: string, l: Listener,
                        decode: string -> string, connects: Route -> bool): (r: TunnelOutcome)
    ensures r.route.None? <==> Authenticate(hs, l, decode).None?
    ensures r.route.None? ==> r.toClient == IndexConnectDenial && r.toUpstream == [] && r.ending == Ended
    ensures r.route.Some? ==> r.route.value == RouteFor(l, IndexTarget(url), None)
    ensures r.ending == Thrown <==> r.route.Some? && DialThrows(r.route.value)
    ensures r.ending == Thrown ==> r.toClient == [] && r.toUpstream == []
    ensures r.ending == Spliced <==> r.route.Some? && !DialThrows(r.route.value) && connects(r.route.value)
    ensures r.ending == Spliced ==> r.toClient == IndexEstablished && r.toUpstream == head
    ensures r.ending != Destroyed
  {
    match Authenticate(hs, l, decode)
    case None => TunnelOutcome(None, IndexConnectDenial, [], Ended)
    case Some(profile) =>
      var route := RouteFor(profile, IndexTarget(url), None);
      if DialThrows(route) then TunnelOutcome(Some(route), [], [], Thrown)
      else if connects(route) then TunnelOutcome(Some(route), IndexEstablished, head, Spliced)
      else if route.Direct? then TunnelOutcome(Some(route), [], [], Ended)
      else TunnelOutcome(Some(route), BadGateway, [], Ended)
  }

  /** The proxy engine's `handleConnect` as written, on the throwing gate:
      the bare `Basic` value gets no reply at all, and every other client
      is handled as by `ManagerConnect`, which throws too on a direct port
      Node refuses. */
  function ManagerConnectAsWritten(hs: Headers, url: string, head: string, l: Listener, cfg: Config,
                                   decode: string -> string, connects: Route -> bool): (r: TunnelOutcome)
    ensures r.ending == Thrown <==> AuthHeader(hs) == "Basic" || (r.route.Some? && DialThrows(r.route.value))
    ensures r.ending == Thrown ==> r.toClient == [] && r.toUpstream == []
    ensures r.route.None? && r.ending == Thrown <==> AuthHeader(hs) == "Basic"
    ensures r.route.Some? <==> AuthenticateAsWritten(hs, l, decode).Granted?
    ensures AuthHeader(hs) != "Basic" ==> r == ManagerConnect(hs, url, head, l, cfg, decode, connects)
  {
    AsWrittenAgreesElsewhere(hs, l, decode);
    match AuthenticateAsWritten(hs, l, decode)
    case Crashed => TunnelOutcome(None, [], [], Thrown)
    case _ => ManagerConnect(hs, url, head, l, cfg, decode, connects)
  }

  /** The single-file variant's `handleConnect` as written: the same throw
      on the bare `Basic` value, `IndexConnect` otherwise. */
  function IndexConnectAsWritten(hs: Headers, url: string, head: string, l: Listener,
                                 decode: string -> string, connects: Route -> bool): (r: TunnelOutcome)
    ensures r.ending == Thrown <==> AuthHeader(hs) == "Basic" || (r.route.Some? && DialThrows(r.route.value))
    ensures r.ending == Thrown ==> r.toClient == [] && r.toUpstream == []
    ensures r.route.None? && r.ending == Thrown <==> AuthHeader(hs) == "Basic"
    ensures r.route.Some? <==> AuthenticateAsWritten(hs, l, decode).Granted?
    ensures AuthHeader(hs) != "Basic" ==> r == IndexConnect(hs, url, head, l, decode, connects)
  {
    AsWrittenAgreesElsewhere(hs, l, decode);
    match AuthenticateAsWritten(hs, l, decode)
    case Crashed => TunnelOutcome(None, [], [], Thrown)
    case _ => IndexConnect(hs, url, head, l, decode, connects)
  }

  /** A numeral, signed or not, holds no colon, so it is its own first piece. */
  lemma SignedPiece(n: int)
    ensures SplitOn(DecimalString(n), ":") == [DecimalString(n)]
  {
    var m := if n < 0 then -n else n;
    var d := NatString(m);
    NatStringDenotes(m);
    forall k | 0 <= k < |d| ensures d[k] != ':' {
      assert IsDigitIn(d[k], 10);
    }
    assert ':' !in DecimalString(n);
    NoFirstElementNoOccurrence(DecimalString(n), ":");
  }

  /** On `host:n` with `n` any integer other than 0, both variants read the
      port as `n`. */
  lemma DecimalTargets(host: string, n: int)
    requires ':' !in host && n != 0
    ensures ManagerTarget(host + ":" + DecimalString(n)) == Target(host, Integer(n))
    ensures IndexTarget(host + ":" + DecimalString(n)) == Target(host, Integer(n))
  {
    var d := DecimalString(n);
    TargetWithColon(host, d);
    SignedPiece(n);
    StringToNumberOfDecimal(n);
    ParseIntOfDecimal(n, "", 10);
    assert d + "" == d;
  }

  /** A direct target whose decimal port is negative or above 65535 (`h:-1`,
      `h:70000`) makes both variants throw: an admitted client then gets no
      reply at all. */
  lemma OutOfRangeDirectPortThrows(host: string, n: int, hs: Headers, head: string, l: Listener, cfg: Config,
                                   decode: string -> string, connects: Route -> bool)
    requires ':' !in host && (n < 0 || n > 65535)
    requires Authenticate(hs, l, decode).Some? && !Truthy(l.socksHost)
    ensures ManagerConnect(hs, host + ":" + DecimalString(n), head, l, cfg, decode, connects)
      == TunnelOutcome(Some(Direct(host, Integer(n))), [], [], Thrown)
    ensures IndexConnect(hs, host + ":" + DecimalString(n), head, l, decode, connects)
      == TunnelOutcome(Some(Direct(host, Integer(n))), [], [], Thrown)
  {
    DecimalTargets(host, n);
  }

  /** A direct target whose port text `Number` reads as NaN (`h:abc`) makes
      the proxy engine throw. */
  lemma NaNDirectPortThrows(host: string, rest: string, hs: Headers, head: string, l: Listener, cfg: Config,
                            decode: string -> string, connects: Route -> bool)
    requires ':' !in host && ':' !in rest && StringToNumber(rest) == NaN
    requires Authenticate(hs, l, decode).Some? && !Truthy(l.socksHost)
    ensures ManagerConnect(hs, host + ":" + rest, head, l, cfg, decode, connects)
      == TunnelOutcome(Some(Direct(host, NaN)), [], [], Thrown)
  {
    TargetWithColon(host, rest);
    NoFirstElementNoOccurrence(rest, ":");
  }

  /** `Number("abc")` is NaN, so `h:abc` meets the conditions above. */
  lemma LetterTextIsNaN()
    ensures ':' !in "abc" && StringToNumber("abc") == NaN
  {
    assert !IsJsSpace('a') && !IsJsSpace('c');
    TrimUnpadded("abc");
    assert !IsDigitIn('a', 10);
  }

  /** `maskProxyAuth` changes only what a refused client sees: an admitted
      client is treated the same under either setting, and a refused one is
      never given a route either way. */
  lemma MaskOnlyOnRefusal(hs: Headers, url: string, head: string, l: Listener, c1: Config, c2: Config,
                          decode: string -> string, connects: Route -> bool)
    requires c1.timeouts == c2.timeouts
    ensures Authenticate(hs, l, decode).Some? ==>
      ManagerConnect(hs, url, head, l, c1, decode, connects) == ManagerConnect(hs, url, head, l, c2, decode, connects)
    ensures Authenticate(hs, l, decode).None? ==>
      && ManagerConnect(hs, url, head, l, c1, decode, connects).route.None?
      && ManagerConnect(hs, url, head, l, c2, decode, connects).route.None?
      && (Truthy(c1.maskProxyAuth) == Truthy(c2.maskProxyAuth) ==>
            ManagerConnect(hs, url, head, l, c1, decode, connects) == ManagerConnect(hs, url, head, l, c2, decode, connects))
  {
  }
}
