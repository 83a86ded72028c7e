/** The plain-request handler of both variants: the credential gate, the
    absolute request target (section 3.2.2 of RFC 9112), and the outbound
    request built for the direct path or written by hand onto a SOCKS5
    socket, plus the replies written when an upstream fails. URL parsing
    is given as its result; reading the upstream response over SOCKS is
    the reader of the response-stream model. */
module ForwardRelay {
  import opened Wrappers
  import opened JsText
  import opened JsValues
  import opened HeaderMap
  import opened ProxyConfig
  import opened Timeouts
  import opened ProxyAuth
  import opened ResponseHead
  import opened Tunnel

  /** The parts of a parsed absolute URL the relays read; `port` is the
      empty string when the URL names none. */
  datatype Url = Url(hostname: string, host: string, port: string, pathname: string, search: string)

  /** `url.pathname + url.search`. */
  function PathOf(u: Url): string {
    u.pathname + u.search
  }

  /** What a relay sends upstream: a request for the HTTP client on the
      direct path, or a SOCKS5 connection followed by a hand-written head. */
  datatype Outbound =
    | DirectRequest(hostname: string, port: JsValue, path: string, verb: string, headers: Headers)
    | SocksRelay(request: SocksRequest, head: string)

  /** A handled request gets an immediate reply, is relayed, or is left
      unanswered because the handler threw before writing anything. */
  datatype Handling = Reply(response: Response) | Relay(outbound: Outbound) | Unanswered

  const InvalidUrl: Response := Response(400, [Field("Connection", "close")], "Invalid URL")

  /** `url.port || 80` as handed to the HTTP client. */
  function DirectPort(u: Url): (p: JsValue)
    ensures p == if u.port == "" then Num(80) else Str(u.port)
  {
    Or(Str(u.port), Num(80))
  }

  /** The proxy engine's `handleRequest`. `url` is `None` when `new URL`
      throws. Refusal and the invalid URL are answered before any upstream
      is contacted. The direct path forwards the stripped headers with
      `host` set to the URL's host; the SOCKS path writes the stripped
      headers as they are, with the client's own `host`. */
  function ManagerRequest(hs: Headers, verb: string, url: Option<Url>, l: Listener, cfg: Config,
                          decode: string -> string): (r: Handling)
    ensures Authenticate(hs, l, decode).None? ==> r == Reply(ManagerRequestDenial(cfg.maskProxyAuth))
    ensures Authenticate(hs, l, decode).Some? && url.None? ==> r == Reply(InvalidUrl)
    ensures r.Relay? <==> Authenticate(hs, l, decode).Some? && url.Some?
    ensures r.Relay? ==> (r.outbound.DirectRequest? <==> !Truthy(l.socksHost))
    ensures r.Relay? && r.outbound.DirectRequest? ==>
      r.outbound == DirectRequest(url.value.hostname, DirectPort(url.value), PathOf(url.value), verb,
        Put(StripProxyHeaders(hs), "host", url.value.host))
    ensures r.Relay? && r.outbound.SocksRelay? ==>
      && r.outbound.head == SerializeRequest(verb, PathOf(url.value), StripProxyHeaders(hs))
      && r.outbound.request == SocksRequestFor(l, url.value.hostname,
           Integer(NumberOr(StringToNumber(url.value.port), 80)),
           Some(GetTimeouts(cfg.timeouts).socks.handshakeTimeoutMs))
  {
    match Authenticate(hs, l, decode)
    case None => Reply(ManagerRequestDenial(cfg.maskProxyAuth))
    case Some(profile) =>
      match url
      case None => Reply(InvalidUrl)
      case Some(u) =>
        var stripped := StripProxyHeaders(hs);
        if !Truthy(profile.socksHost) then
          Relay(DirectRequest(u.hostname, DirectPort(u), PathOf(u), verb, Put(stripped, "host", u.host)))
        else
          var port := Integer(NumberOr(StringToNumber(u.port), 80));
          var timeout := Some(GetTimeouts(cfg.timeouts).socks.handshakeTimeoutMs);
          Relay(SocksRelay(SocksRequestFor(profile, u.hostname, port, timeout),
            SerializeRequest(verb, PathOf(u), stripped)))
  }

  /** The single-file variant's `handleRequest`: the outbound headers are
      the client's with `host` set to the URL's host and the proxy headers
      removed, on both paths; the SOCKS port is `parseInt(port, 10) || 80`
      and no handshake timeout is passed. */
  function IndexRequest(hs: Headers, verb: string, url: Option<Url>, l: Listener,
                        decode: string -> string): (r: Handling)
    ensures Authenticate(hs, l, decode).None? ==> r == Reply(IndexRequestDenial)
    ensures Authenticate(hs, l, decode).Some? && url.None? ==> r == Reply(InvalidUrl)
    ensures r.Relay? <==> Authenticate(hs, l, decode).Some? && url.Some?
    ensures r.Relay? ==> (r.outbound.DirectRequest? <==> !Truthy(l.socksHost))
    ensures r.Relay? && r.outbound.DirectRequest? ==>
      r.outbound == DirectRequest(url.value.hostname, DirectPort(url.value), PathOf(url.value), verb,
        StripProxyHeaders(Put(hs, "host", url.value.host)))
    ensures r.Relay? && r.outbound.SocksRelay? ==>
      && r.outbound.head == SerializeRequest(verb, PathOf(url.value), StripProxyHeaders(Put(hs, "host", url.value.host)))
      && r.outbound.request == SocksRequestFor(l, url.value.hostname,
           Integer(NumberOr(ParseInt(url.value.port, 10), 80)), None)
  {
    match Authenticate(hs, l, decode)
    case None => Reply(IndexRequestDenial)
    case Some(profile) =>
      match url
      case None => Reply(InvalidUrl)
      case Some(u) =>
        var headers := StripProxyHeaders(Put(hs, "host", u.host));
        if !Truthy(profile.socksHost) then
          Relay(DirectRequest(u.hostname, DirectPort(u), PathOf(u), verb, headers))
        else
          var port := Integer(NumberOr(ParseInt(u.port, 10), 80));
          Relay(SocksRelay(SocksRequestFor(profile, u.hostname, port, None),
            SerializeRequest(verb, PathOf(u), headers)))
  }

  /** The proxy engine's `handleRequest` as written, on the throwing gate:
      the bare `Basic` value leaves the request unanswered, and every other
      request is handled as by `ManagerRequest`. */
  function ManagerRequestAsWritten(hs: Headers, verb: string, url: Option<Url>, l: Listener, cfg: Config,
                                   decode: string -> string): (r: Handling)
    ensures r.Unanswered? <==> AuthHeader(hs) == "Basic"
    ensures r.Relay? ==> AuthenticateAsWritten(hs, l, decode).Granted? && url.Some?
    ensures AuthHeader(hs) != "Basic" ==> r == ManagerRequest(hs, verb, url, l, cfg, decode)
  {
    AsWrittenAgreesElsewhere(hs, l, decode);
    match AuthenticateAsWritten(hs, l, decode)
    case Crashed => Unanswered
    case _ => ManagerRequest(hs, verb, url, l, cfg, decode)
  }

  /** The single-file variant's `handleRequest` as written: the same throw
      on the bare `Basic` value, `IndexRequest` otherwise. */
  function IndexRequestAsWritten(hs: Headers, verb: string, url: Option<Url>, l: Listener,
                                 decode: string -> string): (r: Handling)
    ensures r.Unanswered? <==> AuthHeader(hs) == "Basic"
    ensures r.Relay? ==> AuthenticateAsWritten(hs, l, decode).Granted? && url.Some?
    ensures AuthHeader(hs) != "Basic" ==> r == IndexRequest(hs, verb, url, l, decode)
  {
    AsWrittenAgreesElsewhere(hs, l, decode);
    match AuthenticateAsWritten(hs, l, decode)
    case Crashed => Unanswered
    case _ => IndexRequest(hs, verb, url, l, decode)
  }

  /** The header `Proxy-Authorization: Basic` in the proxy engine: both
      handlers as written leave the client without any reply, where the
      corrected ones send the refusal. */
  lemma ManagerBareBasicUnanswered(url: string, head: string, verb: string, u: Option<Url>, l: Listener,
                                   cfg: Config, decode: string -> string, connects: Route -> bool)
    ensures
      var hs := [Field("proxy-authorization", "Basic")];
      && ManagerConnectAsWritten(hs, url, head, l, cfg, decode, connects) == TunnelOutcome(None, [], [], Thrown)
      && ManagerRequestAsWritten(hs, verb, u, l, cfg, decode) == Unanswered
      && ManagerConnect(hs, url, head, l, cfg, decode, connects)
         == TunnelOutcome(None, ManagerConnectDenial(cfg.maskProxyAuth), [], Ended)
      && ManagerRequest(hs, verb, u, l, cfg, decode) == Reply(ManagerRequestDenial(cfg.maskProxyAuth))
  {
    BareBasicCrashes(l, decode);
  }

  /** The same header in the single-file variant: no reply as written, the
      407 challenge once corrected. */
  lemma IndexBareBasicUnanswered(url: string, head: string, verb: string, u: Option<Url>, l: Listener,
                                 decode: string -> string, connects: Route -> bool)
    ensures
      var hs := [Field("proxy-authorization", "Basic")];
      && IndexConnectAsWritten(hs, url, head, l, decode, connects) == TunnelOutcome(None, [], [], Thrown)
      && IndexRequestAsWritten(hs, verb, u, l, decode) == Unanswered
      && IndexConnect(hs, url, head, l, decode, connects) == TunnelOutcome(None, IndexConnectDenial, [], Ended)
      && IndexRequest(hs, verb, u, l, decode) == Reply(IndexRequestDenial)
  {
    BareBasicCrashes(l, decode);
  }

  /** The outbound headers of a direct relay: `host` reads as the URL's
      host, the proxy headers are gone, and every other name reads as the
      client sent it. Both variants build the very same header sequence. */
  lemma DirectHeaders(hs: Headers, verb: string, u: Url, l: Listener, cfg: Config,
                      decode: string -> string, name: string)
    requires Authenticate(hs, l, decode).Some? && !Truthy(l.socksHost)
    ensures
      var m := ManagerRequest(hs, verb, Some(u), l, cfg, decode).outbound.headers;
      && m == IndexRequest(hs, verb, Some(u), l, decode).outbound.headers
      && Lookup(m, "host") == Some(u.host)
      && (IsProxyOnly(name) ==> Lookup(m, name).None?)
      && (!IsProxyOnly(name) && name != "host" ==> Lookup(m, name) == Lookup(hs, name))
  {
    StripPutCommute(hs, u.host);
    var stripped := StripProxyHeaders(hs);
    PutThenLookup(stripped, "host", u.host, name);
    StripReadsLikeOriginal(hs, name);
  }

  /** The proxy engine's SOCKS path does not rewrite `host`: reading back
      the head it writes gives the verb, the path and the stripped client
      headers, so `host` is whatever the client sent. The single-file
      variant's head carries the URL's host instead. */
  lemma SocksHeadHost(hs: Headers, verb: string, u: Url, l: Listener, cfg: Config, decode: string -> string)
    requires Authenticate(hs, l, decode).Some? && Truthy(l.socksHost)
    requires WellFormedRequest(verb, PathOf(u), StripProxyHeaders(hs))
    ensures
      var head := ManagerRequest(hs, verb, Some(u), l, cfg, decode).outbound.head;
      var text := JoinWith([RequestLine(verb, PathOf(u))] + FieldLines(StripProxyHeaders(hs)), CRLF);
      && head == text + CRLF + CRLF
      && ParseRequestHead(text) == Some(RequestHead(verb, PathOf(u), StripProxyHeaders(hs)))
      && Lookup(StripProxyHeaders(hs), "host") == Lookup(hs, "host")
    ensures
      var fields := StripProxyHeaders(Put(hs, "host", u.host));
      && IndexRequest(hs, verb, Some(u), l, decode).outbound.head == SerializeRequest(verb, PathOf(u), fields)
      && Lookup(fields, "host") == Some(u.host)
  {
    SerializeRoundTrip(verb, PathOf(u), StripProxyHeaders(hs));
    StripReadsLikeOriginal(hs, "host");
    StripPutCommute(hs, u.host);
    PutThenLookup(StripProxyHeaders(hs), "host", u.host, "host");
  }

  /** The SOCKS destination port: both variants dial an explicit decimal
      port as given and port 80 when the URL names none. */
  lemma SocksPorts(n: nat)
    requires n != 0
    ensures NumberOr(StringToNumber(DecimalString(n)), 80) == n
    ensures NumberOr(ParseInt(DecimalString(n), 10), 80) == n
    ensures NumberOr(StringToNumber(""), 80) == 80
    ensures NumberOr(ParseInt("", 10), 80) == 80
  {
    StringToNumberOfDecimal(n);
    ParseIntOfDecimal(n, "", 10);
    assert DecimalString(n) + "" == DecimalString(n);
    EmptyPiece();
  }

  /** Why a relay gave up on its upstream. */
  datatype Failure =
    | UpstreamError             // the direct HTTP request failed
    | SocksConnectFailed        // the SOCKS5 connection could not be set up
    | SocksSocketError(headersSent: bool) // the SOCKS socket failed later

  /** What a failure makes the relay write before ending the response: a
      head unless one was already sent, then the final body text. */
  datatype Closing = Closing(head: Option<Head>, body: string)

  const CloseOnly: Headers := [Field("Connection", "close")]

  /** The proxy engine: 500 for a failed direct request, 502 for a failed
      SOCKS connection, and for a SOCKS socket that fails later a 502 head
      only if no head was sent yet. */
  function ManagerFailure(f: Failure): (c: Closing)
    ensures c.head.None? <==> f == SocksSocketError(true)
    ensures c.head.Some? ==> c.head.value.headers == CloseOnly
    ensures c.head.Some? ==> (c.head.value.status == 500 <==> f.UpstreamError?)
    ensures c.head.Some? ==> (c.head.value.status == 502 <==> !f.UpstreamError?)
    ensures |c.body| > 0
  {
    match f
    case UpstreamError => Closing(Some(Head(500, CloseOnly)), "Upstream error")
    case SocksConnectFailed => Closing(Some(Head(502, CloseOnly)), "SOCKS connection failed")
    case SocksSocketError(sent) =>
      Closing(if sent then None else Some(Head(502, CloseOnly)), "SOCKS upstream error")
  }

  /** The single-file variant: 500 for a failed direct request and the same
      502 reply for every SOCKS failure, head included. */
  function IndexFailure(f: Failure): (c: Closing)
    ensures c.head.Some? && c.head.value.headers == CloseOnly
    ensures c.head.value.status == 500 <==> f.UpstreamError?
    ensures c.head.value.status == 502 <==> !f.UpstreamError?
    ensures !f.UpstreamError? ==> c.body == "Error connecting to target via SOCKS5."
  {
    if f.UpstreamError? then Closing(Some(Head(500, CloseOnly)), "Proxy request failed")
    else Closing(Some(Head(502, CloseOnly)), "Error connecting to target via SOCKS5.")
  }

  /** The two variants write the same status for every failure where the
      proxy engine writes a head at all. */
  lemma FailureStatusesAgree(f: Failure)
    ensures ManagerFailure(f).head.Some? ==> ManagerFailure(f).head == IndexFailure(f).head
  {
  }
}
