/** JavaScript values as they reach the proxy from its configuration file and
    from JSON request bodies, with the conversions the proxy applies to them:
    truthiness, `??`, `||`, `String(v)`, `parseInt` (section 19.2.5 of
    ECMAScript) and `Number(string)` (section 7.1.4.1.1 of ECMAScript).
    Numbers are integers here; `Undefined` also stands for an absent
    property. */
module JsValues {
  import opened Wrappers
  import opened JsText

  datatype JsValue = Undefined | Null | Bool(b: bool) | Num(n: int) | Str(s: string)

  /** ToBoolean: `undefined`, `null`, `false`, `0` and `""` are falsy. */
  predicate Truthy(v: JsValue)
    ensures !Truthy(v) <==> v in {Undefined, Null, Bool(false), Num(0), Str("")}
  {
    match v
    case Undefined => false
    case Null => false
    case Bool(b) => b
    case Num(n) => n != 0
    case Str(s) => |s| > 0
  }

  predicate Nullish(v: JsValue) {
    v.Undefined? || v.Null?
  }

  /** `v ?? d` */
  function Coalesce(v: JsValue, d: JsValue): (r: JsValue)
    ensures r == v || r == d
    ensures !Nullish(v) ==> r == v
    ensures Nullish(r) <==> Nullish(v) && Nullish(d)
  {
    if Nullish(v) then d else v
  }

  /** `v || d` */
  function Or(v: JsValue, d: JsValue): (r: JsValue)
    ensures r == v || r == d
    ensures Truthy(v) ==> r == v
    ensures Truthy(r) <==> Truthy(v) || Truthy(d)
  {
    if Truthy(v) then v else d
  }

  /** The result of a numeric conversion: an integer or NaN. */
  datatype Numeric = NaN | Integer(value: int)

  /** `x || d` where `x` is a number: NaN and zero (also `-0`) are falsy. */
  function NumberOr(x: Numeric, d: int): int {
    if x.Integer? && x.value != 0 then x.value else d
  }

  /** The value of `c` as a digit of radix up to 36, as `parseInt` reads it. */
  function DigitValue(c: char): Option<nat> {
    if '0' <= c <= '9' then Some(c as int - '0' as int)
    else if 'a' <= c <= 'z' then Some(c as int - 'a' as int + 10)
    else if 'A' <= c <= 'Z' then Some(c as int - 'A' as int + 10)
    else None
  }

  predicate IsDigitIn(c: char, base: nat) {
    DigitValue(c).Some? && DigitValue(c).value < base
  }

  predicate AllDigits(s: string, base: nat) {
    forall i :: 0 <= i < |s| ==> IsDigitIn(s[i], base)
  }

  /** The end of the run of digits of `base` that starts at `i`. */
  function DigitEnd(s: string, i: nat, base: nat): (n: nat)
    requires i <= |s|
    ensures i <= n <= |s| && forall k :: i <= k < n ==> IsDigitIn(s[k], base)
    ensures n < |s| ==> !IsDigitIn(s[n], base)
    decreases |s| - i
  {
    if i < |s| && IsDigitIn(s[i], base) then DigitEnd(s, i + 1, base) else i
  }

  /** Length of the longest prefix of `s` made of digits of `base`. */
  function DigitRun(s: string, base: nat): (n: nat)
    ensures n <= |s| && AllDigits(s[..n], base)
    ensures n < |s| ==> !IsDigitIn(s[n], base)
  {
    var n := DigitEnd(s, 0, base);
    assert forall k :: 0 <= k < n ==> s[..n][k] == s[k];
    n
  }

  /** The number a digit string denotes in `base`, most significant digit first. */
  function DigitsValue(ds: string, base: nat): nat
    requires AllDigits(ds, base)
  {
    if |ds| == 0 then 0
    else DigitsValue(ds[..|ds| - 1], base) * base + DigitValue(ds[|ds| - 1]).value
  }

  predicate HasHexPrefix(u: string) {
    |u| >= 2 && u[0] == '0' && (u[1] == 'x' || u[1] == 'X')
  }

  /** The text `parseInt` reads digits from: leading white space and one sign removed. */
  function Unsigned(s: string): string {
    var t := TrimStart(s);
    if |t| > 0 && (t[0] == '-' || t[0] == '+') then t[1..] else t
  }

  predicate IsNegative(s: string) {
    var t := TrimStart(s);
    |t| > 0 && t[0] == '-'
  }

  /** `parseInt(s, radix)`; `radix == 0` means the argument was omitted. Skips
      leading white space, takes one sign, strips a `0x`/`0X` prefix when the
      radix is omitted or 16, then reads the longest run of digits; no digit
      at all is NaN. */
  function ParseInt(s: string, radix: nat): (r: Numeric)
    requires radix == 0 || 2 <= radix <= 36
    ensures r.Integer? && r.value < 0 ==> IsNegative(s)
    ensures r.Integer? && r.value > 0 ==> !IsNegative(s)
  {
    var u := Unsigned(s);
    var hex := (radix == 0 || radix == 16) && HasHexPrefix(u);
    var base := if hex then 16 else if radix == 0 then 10 else radix;
    var v := if hex then u[2..] else u;
    var n := DigitRun(v, base);
    if n == 0 then NaN
    else if IsNegative(s) then Integer(-(DigitsValue(v[..n], base) as int))
    else Integer(DigitsValue(v[..n], base))
  }

  /** `Number(s)` for a string, restricted to integer literals: the trimmed
      text is empty (0), a `0x`/`0o`/`0b` literal, or an optionally signed
      run of decimal digits; anything else is NaN. */
  function StringToNumber(s: string): (r: Numeric)
    ensures Trim(s) == "" ==> r == Integer(0)
  {
    NumericLiteral(Trim(s))
  }

  /** The value of trimmed text as an integer literal. */
  function NumericLiteral(t: string): Numeric {
    if |t| == 0 then Integer(0)
    else if |t| >= 2 && t[0] == '0' && t[1] in "xXoObB" then PrefixedLiteral(t[1], t[2..])
    else SignedLiteral(t[0], if t[0] == '-' || t[0] == '+' then t[1..] else t)
  }

  /** A `0x`, `0o` or `0b` literal: at least one digit of its radix, nothing else. */
  function PrefixedLiteral(tag: char, ds: string): Numeric {
    var base := if tag in "xX" then 16 else if tag in "oO" then 8 else 2;
    if |ds| > 0 && AllDigits(ds, base) then Integer(DigitsValue(ds, base)) else NaN
  }

  /** A decimal literal whose first character is `lead`, with the sign, if
      any, already taken off `u`. */
  function SignedLiteral(lead: char, u: string): Numeric {
    if |u| > 0 && AllDigits(u, 10) then
      Integer(if lead == '-' then -(DigitsValue(u, 10) as int) else DigitsValue(u, 10))
    else NaN
  }

  function DigitChar(d: nat): char
    requires d < 10
  {
    ('0' as int + d) as char
  }

  /** The decimal numeral of a natural number, without leading zeros. */
  function NatString(n: nat): string {
    if n < 10 then [DigitChar(n)] else NatString(n / 10) + [DigitChar(n % 10)]
  }

  /** `String(n)` for an integer. */
  function DecimalString(n: int): string {
    if n < 0 then "-" + NatString(-n) else NatString(n)
  }

  /** `String(v)`. */
  function ToJsString(v: JsValue): string {
    match v
    case Undefined => "undefined"
    case Null => "null"
    case Bool(b) => if b then "true" else "false"
    case Num(n) => DecimalString(n)
    case Str(s) => s
  }

  /** A numeral's digits are decimal digits and denote the number. */
  lemma {:induction false} NatStringDenotes(n: nat)
    ensures |NatString(n)| >= 1 && AllDigits(NatString(n), 10)
    ensures DigitsValue(NatString(n), 10) == n
    ensures n == 0 || NatString(n)[0] != '0'
  {
    if n >= 10 {
      NatStringDenotes(n / 10);
      var s := NatString(n);
      assert s[..|s| - 1] == NatString(n / 10);
    }
  }

  /** Text that starts with a sign or a digit has nothing for `trimStart` to drop. */
  lemma TrimStartKeeps(s: string)
    requires |s| > 0 && (s[0] == '-' || '0' <= s[0] <= '9')
    ensures !IsJsSpace(s[0]) && TrimStart(s) == s
  {
    var c := s[0];
    assert !IsJsSpace(c);
  }

  lemma TrimEndKeeps(s: string)
    requires |s| > 0 && '0' <= s[|s| - 1] <= '9'
    ensures !IsJsSpace(s[|s| - 1]) && TrimEnd(s) == s
  {
    var c := s[|s| - 1];
    assert !IsJsSpace(c);
  }

  /** `parseInt` reads back what `String` writes, also when other text that
      does not start with a digit or an `x` follows (`"8443abc"` reads as
      8443; `"0x1F"` is the exception, read below). */
  lemma ParseIntOfDecimal(n: int, rest: string, radix: nat)
    requires radix == 0 || radix == 10
    requires |rest| > 0 ==> !IsDigitIn(rest[0], 10) && rest[0] != 'x' && rest[0] != 'X'
    ensures ParseInt(DecimalString(n) + rest, radix) == Integer(n)
  {
    var m := if n < 0 then -n else n;
    var d := NatString(m);
    NatStringDenotes(m);
    DecimalShape(n, rest);
    ReadsDigits(DecimalString(n) + rest, d, rest, radix);
  }

  /** Text whose unsigned part is a numeral without a leading zero followed
      by text that neither continues it nor makes it a `0x` prefix reads as
      the numeral's value, negated under a minus sign. */
  lemma ReadsDigits(s: string, d: string, rest: string, radix: nat)
    requires radix == 0 || radix == 10
    requires Unsigned(s) == d + rest
    requires |d| >= 1 && AllDigits(d, 10) && (|d| >= 2 ==> d[0] != '0')
    requires |rest| > 0 ==> !IsDigitIn(rest[0], 10) && rest[0] != 'x' && rest[0] != 'X'
    ensures ParseInt(s, radix) ==
      if IsNegative(s) then Integer(-(DigitsValue(d, 10) as int)) else Integer(DigitsValue(d, 10))
  {
    var u := d + rest;
    if |d| >= 2 {
      assert u[1] == d[1] && IsDigitIn(d[1], 10);
    } else if |rest| > 0 {
      assert u[1] == rest[0];
    } else {
      assert |u| == 1;
    }
    assert !HasHexPrefix(u);
    DigitRunOfDigits(d, rest, 10);
    assert u[..|d|] == d;
  }

  /** `String(n)` followed by other text: the sign comes off, the numeral remains. */
  lemma DecimalShape(n: int, rest: string)
    ensures Unsigned(DecimalString(n) + rest) == NatString(if n < 0 then -n else n) + rest
    ensures IsNegative(DecimalString(n) + rest) <==> n < 0
  {
    var m := if n < 0 then -n else n;
    var d := NatString(m);
    NatStringDenotes(m);
    var s := DecimalString(n) + rest;
    if n < 0 {
      assert s == "-" + (d + rest);
      LeadingSign(s);
    } else {
      assert s == d + rest;
      assert s[0] == d[0];
      LeadingDigit(s);
    }
  }

  /** Text that starts with `-` reads as negative, and its digits follow the sign. */
  lemma LeadingSign(s: string)
    requires |s| > 0 && s[0] == '-'
    ensures Unsigned(s) == s[1..] && IsNegative(s)
  {
    TrimStartKeeps(s);
  }

  /** Text that starts with a digit is its own unsigned part. */
  lemma LeadingDigit(s: string)
    requires |s| > 0 && '0' <= s[0] <= '9'
    ensures Unsigned(s) == s && !IsNegative(s)
  {
    TrimStartKeeps(s);
  }

  lemma DigitRunOfDigits(d: string, rest: string, base: nat)
    requires AllDigits(d, base)
    requires |rest| > 0 ==> !IsDigitIn(rest[0], base)
    ensures DigitRun(d + rest, base) == |d|
  {
    DigitEndOfDigits(d, rest, base, 0);
  }

  lemma {:induction false} DigitEndOfDigits(d: string, rest: string, base: nat, i: nat)
    requires AllDigits(d, base) && i <= |d|
    requires |rest| > 0 ==> !IsDigitIn(rest[0], base)
    ensures DigitEnd(d + rest, i, base) == |d|
    decreases |d| - i
  {
    var s := d + rest;
    if i < |d| {
      assert s[i] == d[i];
      DigitEndOfDigits(d, rest, base, i + 1);
    } else if |rest| > 0 {
      assert s[i] == rest[0];
    }
  }

  /** A run of decimal digits, leading zeros included, is the literal of
      the number it denotes. */
  lemma DigitsLiteral(d: string)
    requires |d| > 0 && AllDigits(d, 10)
    ensures NumericLiteral(d) == Integer(DigitsValue(d, 10))
  {
    assert IsDigitIn(d[0], 10);
    if |d| >= 2 {
      assert IsDigitIn(d[1], 10);
      assert d[1] !in "xXoObB";
    }
  }

  /** `Number` reads back what `String` writes. */
  lemma StringToNumberOfDecimal(n: int)
    ensures StringToNumber(DecimalString(n)) == Integer(n)
  {
    var m := if n < 0 then -n else n;
    var d := NatString(m);
    NatStringDenotes(m);
    var s := DecimalString(n);
    TrimStartKeeps(s);
    assert s[|s| - 1] == d[|d| - 1];
    TrimEndKeeps(s);
    TrimUnpadded(s);
    if n < 0 {
      NegativeLiteral(d);
    } else {
      DigitsLiteral(d);
    }
  }

  /** A minus sign before a run of decimal digits negates the literal. */
  lemma NegativeLiteral(d: string)
    requires |d| > 0 && AllDigits(d, 10)
    ensures NumericLiteral("-" + d) == Integer(-(DigitsValue(d, 10) as int))
  {
    var t := "-" + d;
    assert t[0] == '-' && t[1..] == d;
    assert NumericLiteral(t) == SignedLiteral('-', d);
  }

  /** With the radix omitted, a `0x` prefix reads hexadecimal; with radix 10
      the same text reads as the single digit 0. Otherwise both agree, and
      radix 10 is defined whenever the omitted-radix form is. */
  lemma ParseIntRadixTen(s: string)
    ensures ParseInt(s, 0).Integer? ==> ParseInt(s, 10).Integer?
    ensures !HasHexPrefix(Unsigned(s)) ==> ParseInt(s, 10) == ParseInt(s, 0)
    ensures HasHexPrefix(Unsigned(s)) ==> ParseInt(s, 10) == Integer(0)
  {
    var u := Unsigned(s);
    if HasHexPrefix(u) {
      assert DigitRun(u[1..], 10) == 0;
      assert DigitRun(u, 10) == 1;
      assert u[..1] == "0";
      assert DigitsValue(u[..1], 10) == DigitsValue("", 10) * 10 + 0;
    }
  }

  /** The radix mismatch in the listener check: `"0x1F"` is a number for
      `parseInt` without radix (31) but reads as 0 with radix 10. */
  lemma HexTextParses()
    ensures ParseInt("0x1F", 0) == Integer(31)
    ensures ParseInt("0x1F", 10) == Integer(0)
  {
    var s := "0x1F";
    TrimStartKeeps(s);
    assert Unsigned(s) == s;
    assert HasHexPrefix(s);
    assert !IsNegative(s);
    var v := s[2..];
    assert v == "1F";
    assert v[1..] == "F";
    assert "F"[1..] == "";
    assert DigitRun("", 16) == 0;
    assert DigitRun("F", 16) == 1;
    assert DigitRun(v, 16) == 2;
    assert v[..2] == v;
    assert v[..1] == "1";
    assert "1"[..0] == "";
    assert DigitsValue("1", 16) == 1;
    assert DigitsValue(v, 16) == 31;
    ParseIntRadixTen(s);
  }
}
