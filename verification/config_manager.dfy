/** The listener check applied to every listener the administration API
    accepts: a port is required, and the numeric fields are converted to
    numbers. The check reads the port with `parseInt` and no radix, the
    conversion with radix 10. */
module ConfigManager {
  import opened Wrappers
  import opened JsValues
  import opened ProxyConfig

  const PortRequired: string := "Valid port number is required"

  /** `v && !isNaN(parseInt(v))`: the value is truthy and its text starts
      with a number. */
  predicate ReadsAsNumber(v: JsValue) {
    Truthy(v) && ParseInt(ToJsString(v), 0).Integer?
  }

  /** `parseInt(v, 10)` of a value that passed the check; always a number. */
  function ToInt(v: JsValue): (n: int)
    requires ReadsAsNumber(v)
    ensures ParseInt(ToJsString(v), 10) == Integer(n)
  {
    ParseIntRadixTen(ToJsString(v));
    ParseInt(ToJsString(v), 10).value
  }

  /** `validateListener`: fails with `PortRequired` exactly when the port is
      falsy or unreadable; otherwise the port becomes its radix-10 reading,
      `SOCKS_PORT` is converted only when it too reads as a number, and
      every other field is left alone. */
  function ValidateListener(l: Listener): (r: Result<Listener, string>)
    ensures r.Failure? <==> !ReadsAsNumber(l.port)
    ensures r.Failure? ==> r.error == PortRequired
    ensures r.Success? ==> r.value.port == Num(ToInt(l.port))
    ensures r.Success? && ReadsAsNumber(l.socksPort) ==> r.value.socksPort == Num(ToInt(l.socksPort))
    ensures r.Success? && !ReadsAsNumber(l.socksPort) ==> r.value.socksPort == l.socksPort
    ensures r.Success? ==> r.value.(port := l.port, socksPort := l.socksPort) == l
  {
    if !ReadsAsNumber(l.port) then Failure(PortRequired)
    else
      var socks := if ReadsAsNumber(l.socksPort) then Num(ToInt(l.socksPort)) else l.socksPort;
      Success(l.(port := Num(ToInt(l.port)), socksPort := socks))
  }

  /** A numeric port other than 0 is kept as it is. */
  lemma NumericPortKept(l: Listener, n: int)
    requires l.port == Num(n) && n != 0
    ensures ValidateListener(l).Success? && ValidateListener(l).value.port == Num(n)
  {
    NumberReads(n);
  }

  /** `parseInt(String(n))` is `n` with and without a radix. */
  lemma NumberReads(n: int)
    ensures ParseInt(DecimalString(n), 0) == Integer(n)
    ensures ParseInt(DecimalString(n), 10) == Integer(n)
  {
    ParseIntOfDecimal(n, "", 0);
    ParseIntOfDecimal(n, "", 10);
    assert DecimalString(n) + "" == DecimalString(n);
  }

  /** The port text `"0x1F"` passes the check (it reads as 31 without a
      radix) but is stored as port 0, which the check itself would reject:
      validating the validated listener again fails. */
  lemma HexPortBecomesZero(l: Listener)
    requires l.port == Str("0x1F")
    ensures ValidateListener(l).Success?
    ensures ValidateListener(l).value.port == Num(0)
    ensures ValidateListener(ValidateListener(l).value).Failure?
  {
    HexTextParses();
  }

  /** Validation is idempotent whenever the stored port is not 0: a second
      pass changes nothing. */
  lemma ValidateAgain(l: Listener)
    requires ValidateListener(l).Success? && ValidateListener(l).value.port != Num(0)
    ensures ValidateListener(ValidateListener(l).value) == ValidateListener(l)
  {
    var v := ValidateListener(l).value;
    ConvertedIsFixed(v.port);
    if ReadsAsNumber(l.socksPort) {
      ConvertedIsFixed(v.socksPort);
    }
    SecondPass(v);
  }

  /** A number that reads as a number reads as itself. */
  lemma ConvertedIsFixed(v: JsValue)
    requires v.Num?
    ensures ReadsAsNumber(v) ==> Num(ToInt(v)) == v
    ensures v.n != 0 ==> ReadsAsNumber(v)
  {
    NumberReads(v.n);
  }

  lemma SecondPass(v: Listener)
    requires ReadsAsNumber(v.port) && Num(ToInt(v.port)) == v.port
    requires ReadsAsNumber(v.socksPort) ==> Num(ToInt(v.socksPort)) == v.socksPort
    ensures ValidateListener(v) == Success(v)
  {
  }
}
