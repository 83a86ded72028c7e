/** The administration API's configuration routes: listing, reading,
    adding, updating and deleting listeners by port, the reload route, the
    redacted configuration and the certificate domain. The configuration
    file is given as its parsed content; the updated listener list is
    returned for the caller to write back. */
module ConfigApi {
  import opened Wrappers
  import opened JsValues
  import opened ProxyConfig
  import opened ConfigManager
  import opened Registry
  import opened CertUtils

  /** An error reply. `InternalError` carries the message when the route
      chooses it, and `None` when the reply repeats the message of a
      runtime exception (a missing listener list). */
  datatype ApiError = BadRequest(message: string) | NotFound(message: string) | InternalError(detail: Option<string>)

  function StatusOf(e: ApiError): int {
    match e
    case BadRequest(_) => 400
    case NotFound(_) => 404
    case InternalError(_) => 500
  }

  /** A successful change: the reply status, the listener the reply shows,
      and the listener list to be written back. */
  datatype Change = Change(status: int, listener: Listener, listeners: seq<Listener>)

  const InvalidPort: string := "Invalid port number"
  const ListenerNotFound: string := "Proxy listener not found"
  const PortTaken: string := "Proxy listener with this port already exists"
  const OtherPortTaken: string := "Another proxy listener with this port already exists"

  /** `parseInt(req.params.port, 10)`, refused with 400 when NaN. */
  function PathPort(raw: string): (r: Result<int, ApiError>)
    ensures r.Failure? <==> ParseInt(raw, 10).NaN?
    ensures r.Failure? ==> r.error == BadRequest(InvalidPort)
    ensures r.Success? ==> r.value == ParseInt(raw, 10).value
  {
    match ParseInt(raw, 10)
    case NaN => Failure(BadRequest(InvalidPort))
    case Integer(n) => Success(n)
  }

  /** Some listener has port `port` (strict equality). */
  predicate HasPort(ls: seq<Listener>, port: JsValue) {
    exists i :: 0 <= i < |ls| && ls[i].port == port
  }

  /** No two listeners share a port. */
  predicate DistinctPorts(ls: seq<Listener>) {
    forall i, j :: 0 <= i < j < |ls| ==> ls[i].port != ls[j].port
  }

  /** `findIndex(l => l.port === port)`: the first listener with that port. */
  function FindPort(ls: seq<Listener>, port: JsValue): (r: Option<nat>)
    ensures r.None? <==> !HasPort(ls, port)
    ensures r.Some? ==> r.value < |ls| && ls[r.value].port == port
    ensures r.Some? ==> forall i :: 0 <= i < r.value ==> ls[i].port != port
  {
    if |ls| == 0 then None
    else if ls[0].port == port then Some(0)
    else
      match FindPort(ls[1..], port)
      case None =>
        assert forall i :: 1 <= i < |ls| ==> ls[i] == ls[1..][i - 1];
        None
      case Some(i) =>
        assert ls[i + 1] == ls[1..][i];
        Some(i + 1)
  }

  /** `GET /listeners`: the list, or `[]` when there is none. */
  function ListListeners(ls: Option<seq<Listener>>): (r: seq<Listener>)
    ensures ls.Some? ==> r == ls.value
    ensures ls.None? ==> r == []
  {
    ls.GetOr([])
  }

  /** `GET /listeners/:port`. */
  function GetListener(ls: Option<seq<Listener>>, raw: string): (r: Result<Listener, ApiError>)
    ensures ParseInt(raw, 10).NaN? ==> r == Failure(BadRequest(InvalidPort))
    ensures ParseInt(raw, 10).Integer? && ls.None? ==> r == Failure(InternalError(None))
    ensures ParseInt(raw, 10).Integer? && ls.Some? ==>
      var p := Num(ParseInt(raw, 10).value);
      && (r.Failure? <==> !HasPort(ls.value, p))
      && (r.Failure? ==> r.error == NotFound(ListenerNotFound))
      && (r.Success? ==> r.value == ls.value[FindPort(ls.value, p).value])
  {
    match PathPort(raw)
    case Failure(e) => Failure(e)
    case Success(port) =>
      match ls
      case None => Failure(InternalError(None))
      case Some(list) =>
        match FindPort(list, Num(port))
        case None => Failure(NotFound(ListenerNotFound))
        case Some(i) => Success(list[i])
  }

  /** `POST /listeners`: the body is validated first, then a listener with
      the same port is refused, then the validated listener is appended. */
  function AddListener(ls: Option<seq<Listener>>, body: Listener): (r: Result<Change, ApiError>)
    ensures ValidateListener(body).Failure? ==> r == Failure(BadRequest(PortRequired))
    ensures ValidateListener(body).Success? && ls.None? ==> r == Failure(InternalError(None))
    ensures ValidateListener(body).Success? && ls.Some? ==>
      var v := ValidateListener(body).value;
      && (r.Failure? <==> HasPort(ls.value, v.port))
      && (r.Failure? ==> r.error == BadRequest(PortTaken))
      && (r.Success? ==> r.value == Change(201, v, ls.value + [v]))
  {
    match ValidateListener(body)
    case Failure(msg) => Failure(BadRequest(msg))
    case Success(v) =>
      match ls
      case None => Failure(InternalError(None))
      case Some(list) =>
        if FindPort(list, v.port).Some? then Failure(BadRequest(PortTaken))
        else Success(Change(201, v, list + [v]))
  }

  /** One property of an object spread: a value present in the update
      wins, an absent one keeps the earlier value. */
  predicate Takes(earlier: JsValue, update: JsValue, merged: JsValue) {
    (update != Undefined ==> merged == update) && (update == Undefined ==> merged == earlier)
  }

  /** `{...prior, ...update}` over the listener fields. */
  function Merge(prior: Listener, update: Listener): (r: Listener)
    ensures Takes(prior.port, update.port, r.port)
    ensures Takes(prior.username, update.username, r.username)
    ensures Takes(prior.password, update.password, r.password)
    ensures Takes(prior.socksHost, update.socksHost, r.socksHost)
    ensures Takes(prior.socksPort, update.socksPort, r.socksPort)
    ensures Takes(prior.socksUsername, update.socksUsername, r.socksUsername)
    ensures Takes(prior.socksPassword, update.socksPassword, r.socksPassword)
  {
    Listener(
      Over(prior.port, update.port),
      Over(prior.username, update.username),
      Over(prior.password, update.password),
      Over(prior.socksHost, update.socksHost),
      Over(prior.socksPort, update.socksPort),
      Over(prior.socksUsername, update.socksUsername),
      Over(prior.socksPassword, update.socksPassword))
  }

  function Over(earlier: JsValue, update: JsValue): JsValue {
    if update.Undefined? then earlier else update
  }

  /** `PUT /listeners/:port`: the path port, then the body's validation,
      then the lookup; a changed port that another listener holds is
      refused; otherwise that entry becomes the merge of old and new and
      nothing else changes. */
  function UpdateListener(ls: Option<seq<Listener>>, raw: string, body: Listener): (r: Result<Change, ApiError>)
    ensures ParseInt(raw, 10).NaN? ==> r == Failure(BadRequest(InvalidPort))
    ensures ParseInt(raw, 10).Integer? && ValidateListener(body).Failure? ==> r == Failure(BadRequest(PortRequired))
    ensures ParseInt(raw, 10).Integer? && ValidateListener(body).Success? && ls.None? ==> r == Failure(InternalError(None))
    ensures ParseInt(raw, 10).Integer? && ValidateListener(body).Success? && ls.Some? ==>
      var p := Num(ParseInt(raw, 10).value);
      var v := ValidateListener(body).value;
      && (!HasPort(ls.value, p) ==> r == Failure(NotFound(ListenerNotFound)))
      && (HasPort(ls.value, p) && v.port != p && HasPort(ls.value, v.port) ==> r == Failure(BadRequest(OtherPortTaken)))
      && (HasPort(ls.value, p) && (v.port == p || !HasPort(ls.value, v.port)) ==>
            var i := FindPort(ls.value, p).value;
            r == Success(Change(200, Merge(ls.value[i], v), ls.value[i := Merge(ls.value[i], v)])))
  {
    match PathPort(raw)
    case Failure(e) => Failure(e)
    case Success(port) =>
      match ValidateListener(body)
      case Failure(msg) => Failure(BadRequest(msg))
      case Success(v) =>
        match ls
        case None => Failure(InternalError(None))
        case Some(list) =>
          match FindPort(list, Num(port))
          case None => Failure(NotFound(ListenerNotFound))
          case Some(i) =>
            if v.port != Num(port) && FindPort(list, v.port).Some? then Failure(BadRequest(OtherPortTaken))
            else
              var merged := Merge(list[i], v);
              Success(Change(200, merged, list[i := merged]))
  }

  /** `DELETE /listeners/:port`: removes the first listener with that port,
      keeping the order of the rest, and shows the removed one. */
  function DeleteListener(ls: Option<seq<Listener>>, raw: string): (r: Result<Change, ApiError>)
    ensures ParseInt(raw, 10).NaN? ==> r == Failure(BadRequest(InvalidPort))
    ensures ParseInt(raw, 10).Integer? && ls.None? ==> r == Failure(InternalError(None))
    ensures ParseInt(raw, 10).Integer? && ls.Some? ==>
      var p := Num(ParseInt(raw, 10).value);
      && (r.Failure? <==> !HasPort(ls.value, p))
      && (r.Failure? ==> r.error == NotFound(ListenerNotFound))
      && (r.Success? ==>
            var i := FindPort(ls.value, p).value;
            r.value == Change(200, ls.value[i], ls.value[..i] + ls.value[i + 1..]))
  {
    match PathPort(raw)
    case Failure(e) => Failure(e)
    case Success(port) =>
      match ls
      case None => Failure(InternalError(None))
      case Some(list) =>
        match FindPort(list, Num(port))
        case None => Failure(NotFound(ListenerNotFound))
        case Some(i) => Success(Change(200, list[i], list[..i] + list[i + 1..]))
  }

  /** Adding keeps the ports distinct. */
  lemma AddKeepsPortsDistinct(ls: seq<Listener>, body: Listener)
    requires DistinctPorts(ls) && AddListener(Some(ls), body).Success?
    ensures DistinctPorts(AddListener(Some(ls), body).value.listeners)
  {
  }

  /** Updating keeps the ports distinct: the merged entry keeps the path
      port or takes a port nobody holds. */
  lemma UpdateKeepsPortsDistinct(ls: seq<Listener>, raw: string, body: Listener)
    requires DistinctPorts(ls) && UpdateListener(Some(ls), raw, body).Success?
    ensures DistinctPorts(UpdateListener(Some(ls), raw, body).value.listeners)
  {
    var p := Num(ParseInt(raw, 10).value);
    var i := FindPort(ls, p).value;
    var v := ValidateListener(body).value;
    assert Merge(ls[i], v).port == v.port;
    ReplaceKeepsDistinct(ls, i, Merge(ls[i], v));
  }

  /** Replacing one entry by one with the same port or a port nobody holds
      keeps the ports distinct. */
  lemma ReplaceKeepsDistinct(ls: seq<Listener>, i: nat, m: Listener)
    requires DistinctPorts(ls) && i < |ls|
    requires m.port == ls[i].port || !HasPort(ls, m.port)
    ensures DistinctPorts(ls[i := m])
  {
    var out := ls[i := m];
    forall a, b | 0 <= a < b < |out|
      ensures out[a].port != out[b].port
    {
      if a == i {
        assert out[b] == ls[b];
      } else if b == i {
        assert out[a] == ls[a];
      } else {
        assert out[a] == ls[a] && out[b] == ls[b];
      }
    }
  }

  /** Deleting keeps the ports distinct, and the deleted port is then absent. */
  lemma DeleteKeepsPortsDistinct(ls: seq<Listener>, raw: string)
    requires DistinctPorts(ls) && DeleteListener(Some(ls), raw).Success?
    ensures DistinctPorts(DeleteListener(Some(ls), raw).value.listeners)
    ensures !HasPort(DeleteListener(Some(ls), raw).value.listeners, Num(ParseInt(raw, 10).value))
  {
    var p := Num(ParseInt(raw, 10).value);
    var i := FindPort(ls, p).value;
    RemoveKeepsDistinct(ls, i);
  }

  /** Removing one entry keeps the ports distinct and drops its port. */
  lemma RemoveKeepsDistinct(ls: seq<Listener>, i: nat)
    requires DistinctPorts(ls) && i < |ls|
    ensures DistinctPorts(ls[..i] + ls[i + 1..])
    ensures !HasPort(ls[..i] + ls[i + 1..], ls[i].port)
  {
    var out := ls[..i] + ls[i + 1..];
    assert forall k :: 0 <= k < |out| ==> out[k] == if k < i then ls[k] else ls[k + 1];
  }

  /** A listener just added is what reading its port returns. */
  lemma AddThenGet(ls: seq<Listener>, body: Listener, n: int)
    requires AddListener(Some(ls), body).Success?
    requires AddListener(Some(ls), body).value.listener.port == Num(n)
    ensures GetListener(Some(AddListener(Some(ls), body).value.listeners), DecimalString(n))
      == Success(AddListener(Some(ls), body).value.listener)
  {
    NumberReads(n);
    var v := ValidateListener(body).value;
    FindAppended(ls, v);
  }

  /** A port nobody held is found at the appended entry. */
  lemma FindAppended(ls: seq<Listener>, v: Listener)
    requires !HasPort(ls, v.port)
    ensures FindPort(ls + [v], v.port) == Some(|ls|)
  {
    var all := ls + [v];
    assert forall i :: 0 <= i < |ls| ==> all[i] == ls[i];
    assert all[|ls|] == v;
  }

  /** With distinct ports, a deleted port reads as not found afterwards. */
  lemma DeleteThenGet(ls: seq<Listener>, raw: string)
    requires DistinctPorts(ls) && DeleteListener(Some(ls), raw).Success?
    ensures GetListener(Some(DeleteListener(Some(ls), raw).value.listeners), raw) == Failure(NotFound(ListenerNotFound))
  {
    DeleteKeepsPortsDistinct(ls, raw);
  }

  /** `POST /reload`: 200 exactly when the reload reports success. */
  function ReloadReply(ok: bool): (r: Result<string, ApiError>)
    ensures r.Success? <==> ok
    ensures !ok ==> r == Failure(InternalError(Some("Failed to reload configuration")))
  {
    if ok then Success("Configuration reloaded successfully")
    else Failure(InternalError(Some("Failed to reload configuration")))
  }

  /** The reload route answers 200 exactly when every configured listener
      is being served afterwards. */
  lemma ReloadRouteReflectsRegistry(running: seq<Server>, cfg: Option<Config>, env: Environment)
    ensures ReloadReply(Reload(running, cfg, env).ok).Success? <==> Startable(cfg, env)
    ensures ReloadReply(Reload(running, cfg, env).ok).Success? ==>
      |Reload(running, cfg, env).servers| == |cfg.value.listeners.value|
  {
  }

  /** `GET /`: the configuration with the admin account cut down to its
      user name; every other part is shown as it is. */
  function Redacted(c: Config): (r: Config)
    ensures r.(admin := c.admin) == c
    ensures c.admin.None? ==> r.admin.None?
    ensures c.admin.Some? ==> r.admin == Some(Admin(c.admin.value.username, Undefined))
  {
    match c.admin
    case None => c
    case Some(a) => c.(admin := Some(Admin(a.username, Undefined)))
  }

  /** No password survives redaction, and redacting twice changes nothing. */
  lemma RedactionHidesPassword(c: Config)
    ensures Redacted(c).admin.Some? ==> Redacted(c).admin.value.password == Undefined
    ensures Redacted(Redacted(c)) == Redacted(c)
  {
  }

  /** `GET /domain`: the certificate's domain, or 500 when there is none or
      it is the empty string. */
  function DomainReply(cert: Option<Certificate>): (r: Result<string, ApiError>)
    ensures r.Success? <==> TlsDomain(cert).Some? && TlsDomain(cert).value != ""
    ensures r.Success? ==> r.value == TlsDomain(cert).value
    ensures r.Failure? ==> r.error == InternalError(Some("Unable to read domain from certificate"))
  {
    match TlsDomain(cert)
    case Some(d) =>
      if d != "" then Success(d) else Failure(InternalError(Some("Unable to read domain from certificate")))
    case None => Failure(InternalError(Some("Unable to read domain from certificate")))
  }
}
