/** The domain shown by the administration API, read from the configured
    TLS certificate: the first subject-alternative-name entry when the
    certificate has any, otherwise the first `CN=` value of the subject.
    Reading and parsing the certificate are given as their result. */
module CertUtils {
  import opened Wrappers
  import opened JsText

  /** The two certificate fields the domain is read from; `subjectAltName`
      is `None` when the certificate has no such extension. */
  datatype Certificate = Certificate(subjectAltName: Option<string>, subject: string)

  const DnsTag: string := "DNS:"

  /** `e.replace(/^DNS:/, '')`: one leading `DNS:` tag removed. */
  function StripDnsTag(e: string): string {
    if |e| >= 4 && e[..4] == DnsTag then e[4..] else e
  }

  /** `san.split(',').map(s => s.trim().replace(/^DNS:/, ''))[0]`. */
  function SanDomain(san: string): (r: string)
    ensures ',' !in r
  {
    var first := SplitOn(san, ",")[0];
    NotFoundAbsent(first, ',');
    TrimIsSlice(first);
    StripDnsTag(Trim(first))
  }

  /** A character the pattern `[^,\/]` accepts. */
  predicate NameChar(c: char) {
    c != ',' && c != '/'
  }

  /** The end of the run of name characters that starts at `i`. */
  function NameEnd(s: string, i: nat): (n: nat)
    requires i <= |s|
    ensures i <= n <= |s| && (forall k :: i <= k < n ==> NameChar(s[k]))
    ensures n < |s| ==> !NameChar(s[n])
    decreases |s| - i
  {
    if i < |s| && NameChar(s[i]) then NameEnd(s, i + 1) else i
  }

  /** The length of the longest prefix of name characters. */
  function NameRun(s: string): (n: nat)
    ensures n <= |s| && (forall i :: 0 <= i < n ==> NameChar(s[i]))
    ensures n < |s| ==> !NameChar(s[n])
  {
    NameEnd(s, 0)
  }

  /** The text `CN=` starts at position `i`. */
  predicate CnTagAt(s: string, i: int) {
    0 <= i && i + 3 <= |s| && s[i..i + 3] == "CN="
  }

  /** The pattern `CN=([^,\/]+)` matches at position `i`. */
  predicate CnAt(s: string, i: int) {
    0 <= i && i + 3 < |s| && s[i..i + 3] == "CN=" && NameChar(s[i + 3])
  }

  /** The leftmost position where the pattern matches. */
  function FirstCn(s: string): (r: Option<nat>)
    ensures r.Some? ==> CnAt(s, r.value)
    ensures r.Some? ==> forall j :: 0 <= j < r.value ==> !CnAt(s, j)
    ensures r.None? ==> forall j :: 0 <= j < |s| ==> !CnAt(s, j)
    decreases |s|
  {
    if |s| < 4 then None
    else if CnAt(s, 0) then Some(0)
    else
      match FirstCn(s[1..])
      case None =>
        assert forall j :: 1 <= j < |s| ==> (CnAt(s, j) ==> CnAt(s[1..], j - 1));
        None
      case Some(i) =>
        assert s[1..][i..i + 3] == s[i + 1..i + 4];
        assert forall j :: 1 <= j <= i ==> (CnAt(s, j) ==> CnAt(s[1..], j - 1));
        Some(i + 1)
  }

  /** `subject.match(/CN=([^,\/]+)/)[1]`: the longest run of name characters
      after the leftmost `CN=` that is followed by one. */
  function CommonName(subject: string): (r: Option<string>)
    ensures r.None? <==> forall j :: 0 <= j < |subject| ==> !CnAt(subject, j)
    ensures r.Some? ==> |r.value| > 0 && ',' !in r.value && '/' !in r.value
    ensures r.Some? ==>
      var i := FirstCn(subject).value;
      var e := i + 3 + |r.value|;
      && FirstCn(subject).Some? && e <= |subject| && subject[i + 3..e] == r.value
      && (e == |subject| || !NameChar(subject[e]))
  {
    match FirstCn(subject)
    case None => None
    case Some(i) =>
      var tail := subject[i + 3..];
      var v := tail[..NameRun(tail)];
      assert forall k :: 0 <= k < |v| ==> NameChar(v[k]);
      Some(v)
  }

  /** `getTlsDomain`: `None` when the certificate cannot be read or parsed;
      a non-empty SAN always yields its first entry, even an empty or
      non-DNS one; otherwise the common name, if any. */
  function TlsDomain(cert: Option<Certificate>): (r: Option<string>)
    ensures cert.None? ==> r.None?
    ensures cert.Some? && cert.value.subjectAltName.Some? && cert.value.subjectAltName.value != "" ==>
      r == Some(SanDomain(cert.value.subjectAltName.value))
    ensures cert.Some? && (cert.value.subjectAltName.None? || cert.value.subjectAltName.value == "") ==>
      r == CommonName(cert.value.subject)
  {
    match cert
    case None => None
    case Some(c) =>
      if c.subjectAltName.Some? && c.subjectAltName.value != "" then Some(SanDomain(c.subjectAltName.value))
      else CommonName(c.subject)
  }

  /** The first SAN entry, free of commas and surrounding white space, is
      the domain: with its `DNS:` tag removed when it has one, and as it
      is otherwise. Later entries do not matter. */
  lemma FirstSanEntry(entry: string, rest: string, subject: string)
    requires |entry| > 0 && ',' !in entry
    requires !IsJsSpace(entry[0]) && !IsJsSpace(entry[|entry| - 1])
    requires rest == [] || rest[0] == ','
    ensures TlsDomain(Some(Certificate(Some(entry + rest), subject))) == Some(StripDnsTag(entry))
  {
    FirstPiece(entry, rest);
    TrimUnpadded(entry);
  }

  lemma FirstPiece(entry: string, rest: string)
    requires ',' !in entry
    requires rest == [] || rest[0] == ','
    ensures SplitOn(entry + rest, ",")[0] == entry
  {
    if rest == [] {
      assert entry + rest == entry;
      NoFirstElementNoOccurrence(entry, ",");
    } else {
      assert entry + rest == entry + "," + rest[1..];
      SplitOnCons(entry, ",", rest[1..]);
    }
  }

  /** A tagged DNS name comes out untagged. */
  lemma DnsEntry(name: string, rest: string, subject: string)
    requires ',' !in name && (|name| > 0 ==> !IsJsSpace(name[|name| - 1]))
    requires rest == [] || rest[0] == ','
    ensures TlsDomain(Some(Certificate(Some(DnsTag + name + rest), subject))) == Some(name)
  {
    var entry := DnsTag + name;
    assert entry[0] == 'D' && entry[|entry| - 1] == if |name| > 0 then name[|name| - 1] else ':';
    assert entry + rest == DnsTag + name + rest;
    FirstSanEntry(entry, rest, subject);
    assert entry[..4] == DnsTag && entry[4..] == name;
  }

  /** Without a SAN, a subject that starts with `CN=` yields the name up to
      the next `,` or `/`. */
  lemma LeadingCommonName(name: string, rest: string)
    requires |name| > 0 && forall k :: 0 <= k < |name| ==> NameChar(name[k])
    requires rest == [] || !NameChar(rest[0])
    ensures TlsDomain(Some(Certificate(None, "CN=" + name + rest))) == Some(name)
  {
    var s := "CN=" + name + rest;
    assert s[..3] == "CN=" && s[3] == name[0];
    assert CnAt(s, 0);
    var tail := s[3..];
    assert tail == name + rest;
    NameRunOf(name, rest);
  }

  /** Without a SAN, a subject holding `CN=name` with no earlier `CN=`
      yields the name up to the next `,` or `/`, whatever comes before it
      (Node lists the subject's attributes one per line, `CN` usually last). */
  lemma CommonNameAfter(prefix: string, name: string, rest: string)
    requires forall j :: 0 <= j < |prefix| ==> !CnTagAt(prefix, j)
    requires |name| > 0 && forall k :: 0 <= k < |name| ==> NameChar(name[k])
    requires rest == [] || !NameChar(rest[0])
    ensures TlsDomain(Some(Certificate(None, prefix + "CN=" + name + rest))) == Some(name)
  {
    var s := prefix + "CN=" + name + rest;
    assert s == prefix + "CN=" + (name + rest);
    CnFirstAfter(prefix, name + rest);
    FirstCnIs(s, |prefix|);
    assert s[|prefix| + 3..] == name + rest;
    NameRunOf(name, rest);
  }

  /** The first `CN=` match of `prefix + "CN=" + t` is right after `prefix`
      when `prefix` holds no `CN=` and `t` starts with a name character: a
      match cannot straddle the boundary, since `C` is not `N` or `=`. */
  lemma CnFirstAfter(prefix: string, t: string)
    requires forall j :: 0 <= j < |prefix| ==> !CnTagAt(prefix, j)
    requires |t| > 0 && NameChar(t[0])
    ensures CnAt(prefix + "CN=" + t, |prefix|)
    ensures forall j :: 0 <= j < |prefix| ==> !CnAt(prefix + "CN=" + t, j)
  {
    var s := prefix + "CN=" + t;
    var m := |prefix|;
    assert s[m..m + 3] == "CN=" && s[m + 3] == t[0];
    forall j | 0 <= j < m ensures !CnAt(s, j) {
      if j + 3 <= m {
        assert !CnTagAt(prefix, j);
        assert s[j..j + 3] == prefix[j..j + 3];
      } else if j + 2 == m {
        assert s[j..j + 3][2] == s[m] == 'C';
      } else {
        assert s[j..j + 3][1] == s[m] == 'C';
      }
    }
  }

  /** A match with none before it is the one `FirstCn` finds. */
  lemma FirstCnIs(s: string, m: nat)
    requires CnAt(s, m) && forall j :: 0 <= j < m ==> !CnAt(s, j)
    ensures FirstCn(s) == Some(m)
  {
  }

  lemma NameRunOf(name: string, rest: string)
    requires forall k :: 0 <= k < |name| ==> NameChar(name[k])
    requires rest == [] || !NameChar(rest[0])
    ensures NameRun(name + rest) == |name|
    ensures (name + rest)[..|name|] == name
  {
    NameEndOf(name, rest, 0);
  }

  lemma {:induction false} NameEndOf(name: string, rest: string, i: nat)
    requires i <= |name| && forall k :: 0 <= k < |name| ==> NameChar(name[k])
    requires rest == [] || !NameChar(rest[0])
    ensures NameEnd(name + rest, i) == |name|
    decreases |name| - i
  {
    var s := name + rest;
    if i < |name| {
      assert s[i] == name[i];
      NameEndOf(name, rest, i + 1);
    } else if rest != [] {
      assert s[i] == rest[0];
    }
  }
}
