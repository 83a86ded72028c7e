/** The proxy credential gate shared by both relays: the `Proxy-Authorization`
    value must use the Basic scheme (section 2 of RFC 7617), and when the
    listener declares both a user name and a password, the decoded payload
    must carry them as its first two colon-separated pieces. The listener
    itself is the "profile" handed on. Also the fixed replies written when
    the gate refuses a client. */
module ProxyAuth {
  import opened Wrappers
  import opened JsText
  import opened JsValues
  import opened HeaderMap
  import opened ProxyConfig

  /** `req.headers['proxy-authorization'] || ''`. */
  function AuthHeader(hs: Headers): string {
    Lookup(hs, "proxy-authorization").GetOr("")
  }

  /** The scheme token: the first piece of `value.split(' ')`. */
  function Scheme(value: string): string {
    SplitOn(value, " ")[0]
  }

  /** The credentials token: the second piece of `value.split(' ')`, or
      `None` (`undefined`) when the value holds no space. */
  function Payload(value: string): Option<string> {
    var parts := SplitOn(value, " ");
    if |parts| >= 2 then Some(parts[1]) else None
  }

  /** `listener.USERNAME && listener.PASSWORD`: only then are credentials checked. */
  predicate DeclaresCredentials(l: Listener) {
    Truthy(l.username) && Truthy(l.password)
  }

  /** The user name and password read from a decoded payload: its first two
      `:`-pieces, the password `undefined` when there is no colon. */
  function UserOf(decoded: string): (r: JsValue)
    ensures r.Str? && ':' !in r.s
  {
    var parts := SplitOn(decoded, ":");
    NotFoundAbsent(parts[0], ':');
    Str(parts[0])
  }

  function PasswordOf(decoded: string): (r: JsValue)
    ensures r.Str? ==> ':' !in r.s
  {
    var parts := SplitOn(decoded, ":");
    if |parts| >= 2 then NotFoundAbsent(parts[1], ':'); Str(parts[1]) else Undefined
  }

  /** Both pieces are strictly equal to the listener's values, so only a
      colon-free string user name can match, with a colon-free password or
      none at all. */
  predicate CredentialsMatch(l: Listener, decoded: string)
    ensures CredentialsMatch(l, decoded) ==>
      && l.username.Str? && ':' !in l.username.s
      && (l.password.Undefined? || (l.password.Str? && ':' !in l.password.s))
  {
    UserOf(decoded) == l.username && PasswordOf(decoded) == l.password
  }

  /** The value starts with the Basic scheme followed by a space. */
  predicate StartsBasic(value: string) {
    |value| >= 6 && value[..6] == "Basic "
  }

  /** What `authenticate` does as written: a profile, a refusal, or an
      exception. `Buffer.from(undefined, 'base64')` throws when the value is
      the bare word `Basic`, and since the throw happens inside an `async`
      handler nobody awaits, it surfaces as an unhandled rejection. */
  datatype AuthOutcome = Granted(profile: Listener) | Denied | Crashed

  function AuthenticateAsWritten(hs: Headers, l: Listener, decode: string -> string): (r: AuthOutcome)
    ensures r.Granted? ==> r.profile == l && StartsBasic(AuthHeader(hs))
    ensures r.Crashed? <==> AuthHeader(hs) == "Basic"
  {
    var h := AuthHeader(hs);
    BasicShape(h);
    if h == "" then Denied
    else if Scheme(h) != "Basic" then Denied
    else
      match Payload(h)
      case None => Crashed
      case Some(p) =>
        if DeclaresCredentials(l) && !CredentialsMatch(l, decode(p)) then Denied else Granted(l)
  }

  /** `authenticate`, with the bare `Basic` value refused instead of thrown
      on. `decode` is the base64-to-text conversion of `Buffer`.
      A client is admitted only with a `Basic ` value; a listener without
      credentials admits every such client, and one with credentials admits
      exactly the clients whose decoded payload carries them. */
  function Authenticate(hs: Headers, l: Listener, decode: string -> string): (r: Option<Listener>)
    ensures r.Some? ==> r.value == l
    ensures !StartsBasic(AuthHeader(hs)) ==> r.None?
    ensures StartsBasic(AuthHeader(hs)) && !DeclaresCredentials(l) ==> r == Some(l)
    ensures StartsBasic(AuthHeader(hs)) && DeclaresCredentials(l) ==>
      (r.Some? <==> CredentialsMatch(l, decode(SplitOn(AuthHeader(hs)[6..], " ")[0])))
  {
    var h := AuthHeader(hs);
    BasicShape(h);
    if h == "" then None
    else if Scheme(h) != "Basic" then None
    else
      match Payload(h)
      case None => None
      case Some(p) =>
        if DeclaresCredentials(l) && !CredentialsMatch(l, decode(p)) then None else Some(l)
  }

  /** The scheme is `Basic` with a payload exactly when the value starts with
      `Basic `, and the payload is then the first space-free token after it;
      the scheme is `Basic` without a payload exactly for the bare word. */
  lemma BasicShape(h: string)
    ensures Scheme(h) == "Basic" && Payload(h).Some? <==> StartsBasic(h)
    ensures StartsBasic(h) ==> Payload(h) == Some(SplitOn(h[6..], " ")[0])
    ensures Scheme(h) == "Basic" && Payload(h).None? <==> h == "Basic"
    ensures h == "" ==> Scheme(h) == ""
  {
    BasicSchemeStarts(h);
    StartsBasicPayload(h);
    BareBasicScheme(h);
    if h == "" {
      NoFirstElementNoOccurrence(h, " ");
    }
  }

  lemma BasicSchemeStarts(h: string)
    ensures Scheme(h) == "Basic" && Payload(h).Some? ==> StartsBasic(h)
  {
    var parts := SplitOn(h, " ");
    if |parts| >= 2 && parts[0] == "Basic" {
      assert h == parts[0] + " " + JoinWith(parts[1..], " ");
      assert h[..6] == "Basic ";
    }
  }

  lemma StartsBasicPayload(h: string)
    ensures StartsBasic(h) ==> Scheme(h) == "Basic" && Payload(h) == Some(SplitOn(h[6..], " ")[0])
  {
    if StartsBasic(h) {
      assert h == "Basic" + " " + h[6..];
      SplitOnCons("Basic", " ", h[6..]);
    }
  }

  lemma BareBasicScheme(h: string)
    ensures Scheme(h) == "Basic" && Payload(h).None? <==> h == "Basic"
  {
    var parts := SplitOn(h, " ");
    if |parts| < 2 {
      assert h == parts[0];
    }
    if h == "Basic" {
      NoFirstElementNoOccurrence(h, " ");
    }
  }

  /** With a user name and a password free of colons, the check accepts
      exactly the payloads `user:password` and `user:password:…`. */
  lemma CredentialsMatchIff(l: Listener, u: string, p: string, d: string)
    requires l.username == Str(u) && l.password == Str(p)
    requires ':' !in u && ':' !in p
    ensures CredentialsMatch(l, d) <==> d == u + ":" + p || u + ":" + p + ":" <= d
  {
    if CredentialsMatch(l, d) {
      MatchedShape(u, p, d);
    }
    if d == u + ":" + p || u + ":" + p + ":" <= d {
      ShapeMatches(u, p, d);
    }
  }

  /** A payload whose first two pieces are `u` and `p` is `u:p`, possibly
      followed by `:` and more. */
  lemma MatchedShape(u: string, p: string, d: string)
    requires SplitOn(d, ":")[0] == u
    requires |SplitOn(d, ":")| >= 2 && SplitOn(d, ":")[1] == p
    ensures d == u + ":" + p || u + ":" + p + ":" <= d
  {
    var parts := SplitOn(d, ":");
    assert parts[1..][0] == p;
    if |parts| == 2 {
      assert d == u + ":" + JoinWith(parts[1..], ":");
    } else {
      assert parts[1..][1..] == parts[2..];
      var w := p + ":" + JoinWith(parts[2..], ":");
      assert JoinWith(parts[1..], ":") == w;
      assert d == u + ":" + w;
      PrefixThroughColon(u, p, w);
    }
  }

  /** `u:` followed by a text that starts with `p:` starts with `u:p:`. */
  lemma PrefixThroughColon(u: string, p: string, w: string)
    requires |w| >= |p| + 1 && w[..|p| + 1] == p + ":"
    ensures u + ":" + p + ":" <= u + ":" + w
  {
    var d := u + ":" + w;
    assert d[..|u| + 1] == u + ":";
    assert d[|u| + 1..|u| + |p| + 2] == w[..|p| + 1];
    assert d[..|u| + |p| + 2] == d[..|u| + 1] + d[|u| + 1..|u| + |p| + 2];
  }

  /** Conversely, `u:p` alone or followed by `:` splits into `u` and `p` first. */
  lemma ShapeMatches(u: string, p: string, d: string)
    requires ':' !in u && ':' !in p
    requires d == u + ":" + p || u + ":" + p + ":" <= d
    ensures SplitOn(d, ":")[0] == u
    ensures |SplitOn(d, ":")| >= 2 && SplitOn(d, ":")[1] == p
  {
    if d == u + ":" + p {
      SplitOnCons(u, ":", p);
      NoFirstElementNoOccurrence(p, ":");
    } else {
      var x := d[|u| + |p| + 2..];
      assert d == u + ":" + (p + ":" + x);
      SplitOnCons(u, ":", p + ":" + x);
      SplitOnCons(p, ":", x);
    }
  }

  /** A configured user name or password that contains a colon can never be
      matched: the pieces of the payload are colon-free. */
  lemma ColonCredentialsNeverMatch(l: Listener, d: string)
    requires (l.username.Str? && ':' in l.username.s) || (l.password.Str? && ':' in l.password.s)
    ensures !CredentialsMatch(l, d)
  {
    var parts := SplitOn(d, ":");
    NotFoundAbsent(parts[0], ':');
    if |parts| >= 2 {
      NotFoundAbsent(parts[1], ':');
    }
  }

  /** The as-written gate differs from the corrected one only on the bare
      `Basic` value: there it throws, where the corrected gate refuses. */
  lemma AsWrittenAgreesElsewhere(hs: Headers, l: Listener, decode: string -> string)
    ensures AuthHeader(hs) != "Basic" ==>
      (AuthenticateAsWritten(hs, l, decode).Granted? <==> Authenticate(hs, l, decode).Some?)
    ensures AuthHeader(hs) == "Basic" ==>
      AuthenticateAsWritten(hs, l, decode) == Crashed && Authenticate(hs, l, decode).None?
  {
  }

  /** The header `Proxy-Authorization: Basic` makes the as-written gate throw,
      even on a listener that declares no credentials. */
  lemma BareBasicCrashes(l: Listener, decode: string -> string)
    ensures AuthenticateAsWritten([Field("proxy-authorization", "Basic")], l, decode) == Crashed
  {
  }

  /** The challenge realm of the proxy-engine variant. */
  const ManagerChallenge: string := "Basic realm=\"Proxy\""

  /** The challenge realm of the single-file variant. */
  const IndexChallenge: string := "Basic realm=\"Proxy Authentication Required\""

  /** The raw text written to a refused CONNECT client before the socket is
      ended: with `maskProxyAuth` truthy a `200` carrying the JSON body
      `{}`, otherwise a `407` with a Basic challenge. It carries the status,
      the fields in order and the body of the refusal a plain request gets. */
  function ManagerConnectDenial(mask: JsValue): (r: string)
    ensures
      var resp := ManagerRequestDenial(mask);
      var line := if Truthy(mask) then "HTTP/1.1 200 OK" else "HTTP/1.1 407 Proxy Authentication Required";
      r == line + CRLF + FieldBlock(resp.headers) + CRLF + resp.body
  {
    var close := Field("Connection", "close");
    if Truthy(mask) then
      var json := Field("Content-Type", "application/json");
      DenialText("HTTP/1.1 200 OK", json, close, "{}");
      "HTTP/1.1 200 OK" + CRLF + (json.name + ": " + json.value) + CRLF
        + (close.name + ": " + close.value) + CRLF + CRLF + "{}"
    else
      var challenge := Field("Proxy-Authenticate", ManagerChallenge);
      DenialText("HTTP/1.1 407 Proxy Authentication Required", challenge, close, "");
      "HTTP/1.1 407 Proxy Authentication Required" + CRLF + (challenge.name + ": " + challenge.value) + CRLF
        + (close.name + ": " + close.value) + CRLF + CRLF + ""
  }

  /** A status line, two field lines, the blank line and a body. */
  lemma DenialText(line: string, a: Field, b: Field, body: string)
    ensures line + CRLF + (a.name + ": " + a.value) + CRLF + (b.name + ": " + b.value) + CRLF + CRLF + body
      == line + CRLF + FieldBlock([a, b]) + CRLF + body
  {
    assert [a, b][1..] == [b];
    assert [b][1..] == [];
    assert FieldBlock([b]) == FieldLine(b) + CRLF + FieldBlock([]);
    assert FieldBlock([a, b]) == FieldLine(a) + CRLF + FieldBlock([b]);
  }

  /** The response written to a refused plain-HTTP client: the same choice
      as for CONNECT, through `writeHead` and `end`. */
  function ManagerRequestDenial(mask: JsValue): (r: Response)
    ensures r.status == 200 <==> Truthy(mask)
    ensures r.status == 407 <==> !Truthy(mask)
    ensures Lookup(r.headers, "Connection") == Some("close")
    ensures Truthy(mask) ==> r.body == "{}" && Lookup(r.headers, "Proxy-Authenticate").None?
    ensures !Truthy(mask) ==> r.body == "" && Lookup(r.headers, "Proxy-Authenticate") == Some(ManagerChallenge)
  {
    if Truthy(mask) then
      var hs := [Field("Content-Type", "application/json"), Field("Connection", "close")];
      FoundAt(hs, "Connection", 1);
      NotFound(hs, "Proxy-Authenticate");
      Response(200, hs, "{}")
    else
      var hs := [Field("Proxy-Authenticate", ManagerChallenge), Field("Connection", "close")];
      FoundAt(hs, "Connection", 1);
      FoundAt(hs, "Proxy-Authenticate", 0);
      Response(407, hs, "")
  }

  /** The single-file variant always challenges; it has no masking. */
  const IndexConnectDenial: string :=
    "HTTP/1.1 407 Proxy Authentication Required\r\nProxy-Authenticate: " + IndexChallenge
    + "\r\nConnection: close\r\n\r\n"

  const IndexRequestDenial: Response :=
    Response(407, [Field("Proxy-Authenticate", IndexChallenge), Field("Connection", "close")], "")
}
