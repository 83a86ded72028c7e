/** The two readers of the raw response head that comes back over a SOCKS
    socket (sections 2.1 and 4 of RFC 9112): the proxy engine's, which takes
    the second space-separated token of the status line as a number, and the
    single-file variant's, which requires `HTTP/1.0` or `HTTP/1.1`, a space,
    decimal digits and a space. */
module ResponseHead {
  import opened Wrappers
  import opened JsText
  import opened JsValues
  import opened HeaderMap

  /** A status code and the header object handed to `writeHead`. */
  datatype Head = Head(status: int, headers: Headers)

  /** `Number(statusLine.split(' ')[1]) || 502`: a missing token reads as
      `undefined`, hence NaN. */
  function ManagerStatus(statusLine: string): (r: int)
    ensures r != 0
  {
    var tokens := SplitOn(statusLine, " ");
    NumberOr(if |tokens| >= 2 then StringToNumber(tokens[1]) else NaN, 502)
  }

  /** `const [k, ...v] = l.split(':')` stored as `k.trim()` and
      `v.join(':').trim()`. */
  /** The name never holds a colon; a line without one is all name. */
  function ManagerFieldLine(line: string): (f: Field)
    ensures ':' !in f.name
    ensures ':' !in line ==> f.name == Trim(line) && f.value == ""
  {
    var parts := SplitOn(line, ":");
    NotFoundAbsent(parts[0], ':');
    TrimIsSlice(parts[0]);
    SplitOnFirst(line, ":");
    if ':' !in line then
      NoFirstElementNoOccurrence(line, ":");
      assert parts == [line];
      Field(Trim(parts[0]), Trim(JoinWith(parts[1..], ":")))
    else
      Field(Trim(parts[0]), Trim(JoinWith(parts[1..], ":")))
  }

  /** The header lines assigned one after another into an object, which
      therefore never holds a name twice. */
  function ManagerFields(lines: seq<string>): (r: Headers)
    ensures DistinctNames(r) && |r| <= |lines|
    decreases |lines|
  {
    if |lines| == 0 then []
    else
      var f := ManagerFieldLine(lines[|lines| - 1]);
      var acc := ManagerFields(lines[..|lines| - 1]);
      PutThenLookup(acc, f.name, f.value, f.name);
      Put(acc, f.name, f.value)
  }

  /** The proxy engine's reading of a head: the first line gives the status,
      every further line a field. It never fails. */
  function ManagerHead(header: string): (h: Head)
    ensures h.status != 0
  {
    var lines := SplitOn(header, CRLF);
    Head(ManagerStatus(lines[0]), ManagerFields(lines[1..]))
  }

  predicate HasVersionPrefix(line: string) {
    |line| >= 9 && line[..7] == "HTTP/1." && (line[7] == '0' || line[7] == '1') && line[8] == ' '
  }

  /** `/^HTTP\/1\.[01] (\d+) .*\/` and `parseInt` of the group. Backtracking
      cannot shorten the digit group usefully, so the line matches exactly
      when the maximal digit run after the version is non-empty and followed
      by a space. */
  function StatusCode(line: string): (r: Option<nat>)
    ensures r.Some? ==> HasVersionPrefix(line) && |line| >= 11
  {
    if HasVersionPrefix(line) then
      var n := DigitRun(line[9..], 10);
      if n > 0 && 9 + n < |line| && line[9 + n] == ' ' then
        Some(DigitsValue(line[9..][..n], 10))
      else None
    else None
  }

  /** The single-file variant's reading of a head: `None` when the status
      line does not match, otherwise the code and the fields of the lines
      that hold a colon. */
  function IndexHead(header: string): (r: Option<Head>)
    ensures r.Some? <==> StatusCode(SplitOn(header, CRLF)[0]).Some?
    ensures r.Some? ==> r.value.headers == FieldsFrom(SplitOn(header, CRLF)[1..])
  {
    var lines := SplitOn(header, CRLF);
    match StatusCode(lines[0])
    case None => None
    case Some(code) => Some(Head(code, FieldsFrom(lines[1..])))
  }

  predicate IsVersion(v: string) {
    v == "HTTP/1.0" || v == "HTTP/1.1"
  }

  /** Every status line of the form `HTTP/1.x SP digits SP reason` matches,
      and the code is the number the digits denote. */
  lemma StatusCodeOfLine(v: string, d: string, reason: string)
    requires IsVersion(v) && |d| > 0 && AllDigits(d, 10)
    ensures StatusCode(v + " " + d + " " + reason) == Some(DigitsValue(d, 10))
  {
    var tail := d + " " + reason;
    VersionLine(v, tail);
    assert v + " " + d + " " + reason == v + " " + tail;
    StatusCodeOfTail(v + " " + tail, d, reason);
  }

  lemma VersionLine(v: string, tail: string)
    requires IsVersion(v)
    ensures HasVersionPrefix(v + " " + tail) && (v + " " + tail)[9..] == tail
  {
    var line := v + " " + tail;
    assert line[..8] == v;
  }

  lemma StatusCodeOfTail(line: string, d: string, reason: string)
    requires HasVersionPrefix(line) && |d| > 0 && AllDigits(d, 10)
    requires line[9..] == d + " " + reason
    ensures StatusCode(line) == Some(DigitsValue(d, 10))
  {
    var tail := line[9..];
    assert tail == d + (" " + reason);
    DigitRunOfDigits(d, " " + reason, 10);
    assert tail[..|d|] == d;
    assert tail[|d|] == ' ';
  }

  /** A matching status line has exactly that form. */
  lemma StatusCodeShape(line: string)
    requires StatusCode(line).Some?
    ensures exists d :: (|d| > 0 && AllDigits(d, 10) && |line| > 10 + |d| - 1
      && IsVersion(line[..8]) && line[8..9 + |d| + 1] == " " + d + " "
      && StatusCode(line).value == DigitsValue(d, 10))
  {
    var n := DigitRun(line[9..], 10);
    var d := line[9..][..n];
    assert HasVersionPrefix(line) && n > 0 && 9 + n < |line| && line[9 + n] == ' ';
    assert d == line[9..9 + n];
    SliceAround(line, 8, 9 + n);
    assert line[..8] == "HTTP/1.0" || line[..8] == "HTTP/1.1";
  }

  lemma SliceAround<T>(s: seq<T>, i: nat, j: nat)
    requires i < j < |s|
    ensures s[i..j + 1] == [s[i]] + s[i + 1..j] + [s[j]]
  {
    assert s[i..j + 1] == [s[i]] + s[i + 1..j + 1];
    assert s[i + 1..j + 1] == s[i + 1..j] + [s[j]];
  }

  /** On a line the single-file reader accepts with a non-zero code, the
      proxy engine reads the same code. */
  lemma ManagerReadsMatchedStatus(line: string)
    requires StatusCode(line).Some? && StatusCode(line).value != 0
    ensures ManagerStatus(line) == StatusCode(line).value
  {
    var n := DigitRun(line[9..], 10);
    var d := line[9..][..n];
    assert d == line[9..9 + n];
    var reason := line[10 + n..];
    assert line == line[..8] + " " + d + " " + reason by {
      assert line == line[..8] + [line[8]] + line[9..9 + n] + [line[9 + n]] + line[10 + n..];
    }
    assert line[..8] == "HTTP/1.0" || line[..8] == "HTTP/1.1";
    StatusManagerOfDigits(line[..8], d, reason);
  }

  /** Both readers take the code from a well-formed status line, except
      that the proxy engine turns a code of 0 into 502. */
  lemma StatusReadersAgree(v: string, code: nat, reason: string)
    requires IsVersion(v)
    ensures StatusCode(v + " " + NatString(code) + " " + reason) == Some(code)
    ensures ManagerStatus(v + " " + NatString(code) + " " + reason) == if code == 0 then 502 else code
  {
    var d := NatString(code);
    NatStringDenotes(code);
    StatusCodeOfLine(v, d, reason);
    SecondToken(v, d, reason);
    DigitsNumber(d);
  }

  /** The second space-separated token of a status line is its digit group. */
  lemma SecondToken(v: string, d: string, reason: string)
    requires IsVersion(v) && |d| > 0 && AllDigits(d, 10)
    ensures |SplitOn(v + " " + d + " " + reason, " ")| >= 2
    ensures SplitOn(v + " " + d + " " + reason, " ")[1] == d
  {
    assert ' ' !in v;
    assert ' ' !in d by {
      forall k | 0 <= k < |d| ensures d[k] != ' ' {
        assert IsDigitIn(d[k], 10);
      }
    }
    assert v + " " + d + " " + reason == v + " " + (d + " " + reason);
    SplitOnCons(v, " ", d + " " + reason);
    SplitOnCons(d, " ", reason);
  }

  /** On a line with a colon the two field grammars agree; a line without one
      is skipped by the single-file variant but becomes a field with an
      empty value in the proxy engine. */
  lemma FieldGrammarsAgree(line: string)
    ensures ':' in line ==> ParseFieldLine(line) == Some(ManagerFieldLine(line))
    ensures ':' !in line ==> ParseFieldLine(line).None? && ManagerFieldLine(line) == Field(Trim(line), "")
  {
    SplitOnFirst(line, ":");
    var parts := SplitOn(line, ":");
    match IndexOf(line, ":")
    case None =>
      assert parts == [line];
      assert parts[1..] == [];
    case Some(i) =>
      assert line[i..i + 1] == ":";
      assert line[i] == ':';
      assert ':' !in line[..i] by {
        forall k | 0 <= k < i ensures line[k] != ':' {
          assert !OccursAt(line, ":", k);
          assert line[k..k + 1] == [line[k]];
        }
      }
      assert ParseFieldLine(line).value == Field(Trim(line[..i]), Trim(line[i + 1..]));
  }

  /** When every header line holds a colon, both readers build the same
      header object. */
  lemma {:induction false} FieldReadersAgree(lines: seq<string>)
    requires forall k :: 0 <= k < |lines| ==> ':' in lines[k]
    ensures ManagerFields(lines) == FieldsFrom(lines)
    decreases |lines|
  {
    if |lines| > 0 {
      FieldReadersAgree(lines[..|lines| - 1]);
      FieldGrammarsAgree(lines[|lines| - 1]);
    }
  }

  /** A head with a well-formed status line with a non-zero code and only
      colon-bearing header lines reads the same under both grammars. */
  lemma HeadReadersAgree(header: string)
    requires forall k :: 1 <= k < |SplitOn(header, CRLF)| ==> ':' in SplitOn(header, CRLF)[k]
    requires StatusCode(SplitOn(header, CRLF)[0]).Some? && StatusCode(SplitOn(header, CRLF)[0]).value != 0
    ensures IndexHead(header) == Some(ManagerHead(header))
  {
    var lines := SplitOn(header, CRLF);
    var rest := lines[1..];
    forall k | 0 <= k < |rest|
      ensures ':' in rest[k]
    {
      assert rest[k] == lines[k + 1];
    }
    FieldReadersAgree(rest);
    ManagerReadsMatchedStatus(lines[0]);
  }

  /** The proxy engine reads the code of a status line with any digit group. */
  lemma StatusManagerOfDigits(v: string, d: string, reason: string)
    requires IsVersion(v) && |d| > 0 && AllDigits(d, 10) && DigitsValue(d, 10) != 0
    ensures ManagerStatus(v + " " + d + " " + reason) == DigitsValue(d, 10)
  {
    SecondToken(v, d, reason);
    DigitsNumber(d);
  }

  /** `Number` of a run of decimal digits, leading zeros included, is the
      number they denote. */
  lemma DigitsNumber(d: string)
    requires |d| > 0 && AllDigits(d, 10)
    ensures StringToNumber(d) == Integer(DigitsValue(d, 10))
  {
    TrimStartKeeps(d);
    assert IsDigitIn(d[|d| - 1], 10);
    TrimEndKeeps(d);
    TrimUnpadded(d);
    DigitsLiteral(d);
  }
}
