/** Header objects as the proxy handles them: an insertion-ordered map from
    lower-case names to values, where assigning an existing name replaces its
    value in place and `delete` removes it. Also the field-line grammar both
    relays use (`name: value`, split at the first colon, both sides trimmed)
    and the hand-written request head sent over a SOCKS socket (sections 2.1,
    3 and 5 of RFC 9112). */
module HeaderMap {
  import opened Wrappers
  import opened JsText

  datatype Field = Field(name: string, value: string)

  type Headers = seq<Field>

  const CRLF: string := "\r\n"

  predicate DistinctNames(hs: Headers) {
    forall i, j :: 0 <= i < j < |hs| ==> hs[i].name != hs[j].name
  }

  /** The position of the first field named `name` at or after `i`. */
  function FindFrom(hs: Headers, name: string, i: nat): (r: Option<nat>)
    requires i <= |hs|
    ensures r.Some? ==> i <= r.value < |hs| && hs[r.value].name == name
    ensures r.Some? ==> forall j :: i <= j < r.value ==> hs[j].name != name
    ensures r.None? ==> forall j :: i <= j < |hs| ==> hs[j].name != name
    decreases |hs| - i
  {
    if i == |hs| then None
    else if hs[i].name == name then Some(i)
    else FindFrom(hs, name, i + 1)
  }

  /** The position of the first field named `name`, if any. */
  function Find(hs: Headers, name: string): (r: Option<nat>)
    ensures r.Some? ==> r.value < |hs| && hs[r.value].name == name
    ensures r.Some? ==> forall j :: 0 <= j < r.value ==> hs[j].name != name
    ensures r.None? ==> forall j :: 0 <= j < |hs| ==> hs[j].name != name
  {
    FindFrom(hs, name, 0)
  }

  /** A field with no field of the same name before it is the one found. */
  lemma FoundAt(hs: Headers, name: string, i: nat)
    requires i < |hs| && hs[i].name == name
    requires forall j :: 0 <= j < i ==> hs[j].name != name
    ensures Find(hs, name) == Some(i)
  {
  }

  lemma NotFound(hs: Headers, name: string)
    requires forall j :: 0 <= j < |hs| ==> hs[j].name != name
    ensures Find(hs, name).None?
  {
  }

  /** Searching a list is checking its first field, then searching the rest. */
  lemma FindCons(hs: Headers, name: string)
    requires |hs| > 0
    ensures hs[0].name == name ==> Find(hs, name) == Some(0)
    ensures hs[0].name != name && Find(hs[1..], name).None? ==> Find(hs, name).None?
    ensures hs[0].name != name && Find(hs[1..], name).Some? ==>
      Find(hs, name) == Some(Find(hs[1..], name).value + 1)
  {
    var tail := hs[1..];
    if hs[0].name == name {
      FoundAt(hs, name, 0);
    } else {
      match Find(tail, name)
      case None =>
        forall j | 0 <= j < |hs| ensures hs[j].name != name {
          if j > 0 {
            assert hs[j] == tail[j - 1];
          }
        }
        NotFound(hs, name);
      case Some(k) =>
        assert hs[k + 1] == tail[k];
        forall j | 0 <= j < k + 1 ensures hs[j].name != name {
          if j > 0 {
            assert hs[j] == tail[j - 1];
          }
        }
        FoundAt(hs, name, k + 1);
    }
  }

  /** `hs[name]`: the value of the first field of that name. */
  function Lookup(hs: Headers, name: string): (r: Option<string>)
    ensures r.Some? ==> Field(name, r.value) in hs
    ensures r.None? ==> forall i :: 0 <= i < |hs| ==> hs[i].name != name
  {
    match Find(hs, name)
    case None => None
    case Some(i) => Some(hs[i].value)
  }

  lemma LookupCons(hs: Headers, name: string)
    requires |hs| > 0
    ensures Lookup(hs, name) == if hs[0].name == name then Some(hs[0].value) else Lookup(hs[1..], name)
  {
    FindCons(hs, name);
    if hs[0].name != name && Find(hs[1..], name).Some? {
      var k := Find(hs[1..], name).value;
      assert hs[k + 1] == hs[1..][k];
    }
  }

  /** `delete hs[name]`: every other field stays, in its order. Without the
      name nothing changes; with distinct names exactly its one field goes. */
  function Remove(hs: Headers, name: string): (r: Headers)
    ensures Lookup(r, name).None?
    ensures forall f :: f in r <==> f in hs && f.name != name
    ensures DistinctNames(hs) ==> DistinctNames(r)
    ensures RemovedFrom(hs, name, r)
  {
    if |hs| == 0 then []
    else
      var rest := Remove(hs[1..], name);
      RemoveStep(hs, name, rest);
      KeptStep(hs, name, rest);
      DistinctStep(hs, name, rest);
      if hs[0].name == name then rest else [hs[0]] + rest
  }

  /** One step of `Remove` for distinctness: a first field kept in front of
      distinct fields from the tail keeps the names distinct. */
  lemma DistinctStep(hs: Headers, name: string, rest: Headers)
    requires |hs| > 0 && forall f :: f in rest ==> f in hs[1..]
    requires DistinctNames(hs[1..]) ==> DistinctNames(rest)
    ensures DistinctNames(hs) ==> DistinctNames(if hs[0].name == name then rest else [hs[0]] + rest)
  {
    if DistinctNames(hs) && hs[0].name != name {
      assert DistinctNames(hs[1..]);
      var r := [hs[0]] + rest;
      forall i, j | 0 <= i < j < |r| ensures r[i].name != r[j].name {
        if i == 0 {
          assert r[j] in hs[1..];
        }
      }
    }
  }

  /** One step of `Remove` for membership: the fields kept from the tail,
      and the first field when its name differs, are the fields kept. */
  lemma KeptStep(hs: Headers, name: string, rest: Headers)
    requires |hs| > 0 && forall f :: f in rest <==> f in hs[1..] && f.name != name
    ensures forall f :: f in (if hs[0].name == name then rest else [hs[0]] + rest) <==> f in hs && f.name != name
  {
    assert hs == [hs[0]] + hs[1..];
  }

  /** `r` is `hs` without its field named `name`, the others kept in order:
      `hs` itself when no field has the name, and, when names are distinct,
      `hs` with exactly the position of that field cut out. */
  predicate RemovedFrom(hs: Headers, name: string, r: Headers) {
    && (Find(hs, name).None? ==> r == hs)
    && (DistinctNames(hs) && Find(hs, name).Some? ==>
          r == hs[..Find(hs, name).value] + hs[Find(hs, name).value + 1..])
  }

  /** One step of `Remove`: dropping or keeping the first field carries an
      in-order removal from the tail over to the whole list. */
  lemma RemoveStep(hs: Headers, name: string, rest: Headers)
    requires |hs| > 0 && RemovedFrom(hs[1..], name, rest)
    ensures RemovedFrom(hs, name, if hs[0].name == name then rest else [hs[0]] + rest)
  {
    var tail := hs[1..];
    if hs[0].name == name {
      FoundAt(hs, name, 0);
      if DistinctNames(hs) {
        NotFound(tail, name);
      }
    } else {
      assert DistinctNames(hs) ==> DistinctNames(tail);
      match Find(tail, name)
      case None =>
        NotFound(hs, name);
      case Some(k) =>
        FoundAt(hs, name, k + 1);
        assert hs[..k + 1] == [hs[0]] + tail[..k];
        assert hs[k + 2..] == tail[k + 1..];
    }
  }

  /** Removing a name leaves the lookup of every other name alone. */
  lemma {:induction false} LookupAfterRemove(hs: Headers, name: string, other: string)
    requires other != name
    ensures Lookup(Remove(hs, name), other) == Lookup(hs, other)
    decreases |hs|
  {
    if |hs| > 0 {
      LookupAfterRemove(hs[1..], name, other);
      LookupCons(hs, other);
      if hs[0].name != name {
        var r := Remove(hs, name);
        assert r[0] == hs[0] && r[1..] == Remove(hs[1..], name);
        LookupCons(r, other);
      }
    }
  }

  /** `hs[name] = value`: an existing field keeps its position and takes the
      new value; a new name is appended at the end. */
  function Put(hs: Headers, name: string, value: string): (r: Headers)
    ensures |r| == if Lookup(hs, name).Some? then |hs| else |hs| + 1
    ensures forall i :: 0 <= i < |hs| ==> r[i].name == hs[i].name
    ensures forall i :: 0 <= i < |hs| && hs[i].name != name ==> r[i] == hs[i]
    ensures Lookup(hs, name).None? ==> r == hs + [Field(name, value)]
  {
    match Find(hs, name)
    case Some(i) => hs[i := Field(name, value)]
    case None => hs + [Field(name, value)]
  }

  /** Assigning into a list is assigning at its first field or into the rest. */
  lemma PutCons(hs: Headers, name: string, value: string)
    requires |hs| > 0
    ensures Put(hs, name, value) ==
      if hs[0].name == name then [Field(name, value)] + hs[1..] else [hs[0]] + Put(hs[1..], name, value)
  {
    FindCons(hs, name);
    var f := Field(name, value);
    if hs[0].name == name {
      assert hs[0 := f] == [f] + hs[1..];
    } else {
      match Find(hs[1..], name)
      case None =>
        assert hs + [f] == [hs[0]] + (hs[1..] + [f]);
      case Some(k) =>
        assert hs[k + 1 := f] == [hs[0]] + hs[1..][k := f];
    }
  }

  /** After `hs[name] = value`, reading `name` gives `value` and every other
      name reads as before; distinct names stay distinct. */
  lemma PutThenLookup(hs: Headers, name: string, value: string, other: string)
    ensures Lookup(Put(hs, name, value), name) == Some(value)
    ensures other != name ==> Lookup(Put(hs, name, value), other) == Lookup(hs, other)
    ensures DistinctNames(hs) ==> DistinctNames(Put(hs, name, value))
  {
    var r := Put(hs, name, value);
    match Find(hs, name)
    case Some(i) =>
      FoundAt(r, name, i);
    case None =>
      assert r[|hs|] == Field(name, value);
      FoundAt(r, name, |hs|);
    if other != name {
      match Find(hs, other)
      case Some(j) =>
        FoundAt(r, other, j);
      case None =>
        NotFound(r, other);
    }
  }

  /** Names of the hop-by-hop proxy headers the relays delete before forwarding. */
  predicate IsProxyOnly(name: string) {
    name == "proxy-connection" || name == "proxy-authorization"
  }

  /** `delete h['proxy-connection']; delete h['proxy-authorization']`. */
  function StripProxyHeaders(hs: Headers): (r: Headers)
    ensures forall f :: f in r <==> f in hs && !IsProxyOnly(f.name)
    ensures DistinctNames(hs) ==> DistinctNames(r)
    ensures (forall i :: 0 <= i < |hs| ==> !IsProxyOnly(hs[i].name)) ==> r == hs
  {
    NoProxyFields(hs);
    Remove(Remove(hs, "proxy-connection"), "proxy-authorization")
  }

  lemma NoProxyFields(hs: Headers)
    ensures (forall i :: 0 <= i < |hs| ==> !IsProxyOnly(hs[i].name)) ==>
      Find(hs, "proxy-connection").None? && Find(hs, "proxy-authorization").None?
  {
    if forall i :: 0 <= i < |hs| ==> !IsProxyOnly(hs[i].name) {
      NotFound(hs, "proxy-connection");
      NotFound(hs, "proxy-authorization");
    }
  }

  /** `delete` keeps the order of what remains: removing from a
      concatenation removes from each part. */
  lemma {:induction false} RemoveAppend(a: Headers, b: Headers, name: string)
    ensures Remove(a + b, name) == Remove(a, name) + Remove(b, name)
    decreases |a|
  {
    if |a| == 0 {
      assert a + b == b;
    } else {
      assert (a + b)[1..] == a[1..] + b;
      RemoveAppend(a[1..], b, name);
    }
  }

  /** Stripping is the in-order filter of the fields that are not proxy
      headers: it acts on each part of a concatenation separately, and a
      single field is dropped exactly when it is a proxy header. */
  lemma StripKeepsOrder(a: Headers, b: Headers, f: Field)
    ensures StripProxyHeaders(a + b) == StripProxyHeaders(a) + StripProxyHeaders(b)
    ensures StripProxyHeaders([f]) == if IsProxyOnly(f.name) then [] else [f]
  {
    RemoveAppend(a, b, "proxy-connection");
    RemoveAppend(Remove(a, "proxy-connection"), Remove(b, "proxy-connection"), "proxy-authorization");
    assert [f][1..] == [];
  }

  /** Stripping removes exactly the two proxy headers: they read as absent
      afterwards and every other name reads as before. */
  lemma StripReadsLikeOriginal(hs: Headers, name: string)
    ensures IsProxyOnly(name) ==> Lookup(StripProxyHeaders(hs), name).None?
    ensures !IsProxyOnly(name) ==> Lookup(StripProxyHeaders(hs), name) == Lookup(hs, name)
  {
    if !IsProxyOnly(name) {
      LookupAfterRemove(hs, "proxy-connection", name);
      LookupAfterRemove(Remove(hs, "proxy-connection"), "proxy-authorization", name);
    } else if name == "proxy-connection" {
      var once := Remove(hs, "proxy-connection");
      LookupAfterRemove(once, "proxy-authorization", name);
    }
  }

  /** Deleting one name and assigning another commute: an assignment
      replaces in place or appends, and deletion keeps the order of what
      remains. */
  lemma {:induction false} RemovePutCommute(hs: Headers, gone: string, name: string, value: string)
    requires gone != name
    ensures Remove(Put(hs, name, value), gone) == Put(Remove(hs, gone), name, value)
    decreases |hs|
  {
    var f := Field(name, value);
    if |hs| > 0 {
      RemovePutCommute(hs[1..], gone, name, value);
      PutCons(hs, name, value);
      if hs[0].name != gone {
        var kept := Remove(hs, gone);
        assert kept[0] == hs[0] && kept[1..] == Remove(hs[1..], gone);
        PutCons(kept, name, value);
      }
      if hs[0].name == name {
        assert ([f] + hs[1..])[1..] == hs[1..];
      } else {
        assert ([hs[0]] + Put(hs[1..], name, value))[1..] == Put(hs[1..], name, value);
      }
    } else {
      assert [f][1..] == [];
    }
  }

  /** Rewriting `host` before or after stripping the proxy headers gives the
      same outbound headers, field order included. */
  lemma StripPutCommute(hs: Headers, host: string)
    ensures StripProxyHeaders(Put(hs, "host", host)) == Put(StripProxyHeaders(hs), "host", host)
  {
    RemovePutCommute(hs, "proxy-connection", "host", host);
    RemovePutCommute(Remove(hs, "proxy-connection"), "proxy-authorization", "host", host);
  }

  /** A response as the relays produce it with `writeHead(status, headers)`
      followed by `end(body)`. */
  datatype Response = Response(status: int, headers: Headers, body: string)

  /** One serialised field line, without its CRLF. */
  function FieldLine(f: Field): string {
    f.name + ": " + f.value
  }

  function FieldLines(hs: Headers): seq<string> {
    if |hs| == 0 then [] else [FieldLine(hs[0])] + FieldLines(hs[1..])
  }

  /** The request head written to the SOCKS socket:
      `METHOD SP target SP HTTP/1.1 CRLF`, one `name: value CRLF` per field
      in order, then an empty line. */
  function SerializeRequest(verb: string, target: string, hs: Headers): (r: string)
    ensures r == JoinWith([RequestLine(verb, target)] + FieldLines(hs), CRLF) + CRLF + CRLF
  {
    FieldBlockJoin(RequestLine(verb, target), hs);
    RequestLine(verb, target) + CRLF + FieldBlock(hs) + CRLF
  }

  const Version: string := "HTTP/1.1"

  /** `METHOD SP target SP HTTP/1.1`. */
  function RequestLine(verb: string, target: string): string {
    verb + " " + target + " " + Version
  }

  function FieldBlock(hs: Headers): string {
    if |hs| == 0 then "" else FieldLine(hs[0]) + CRLF + FieldBlock(hs[1..])
  }

  /** The field-line grammar: the name is the trimmed text before the first
      colon, the value the trimmed text after it; a line without a colon
      carries no field. */
  function ParseFieldLine(line: string): (r: Option<Field>)
    ensures r.None? <==> ':' !in line
    ensures r.Some? ==> exists i :: (0 <= i < |line| && line[i] == ':' && ':' !in line[..i]
      && r.value == Field(Trim(line[..i]), Trim(line[i + 1..])))
  {
    match IndexOf(line, ":")
    case None =>
      assert forall k :: 0 <= k < |line| ==> !OccursAt(line, ":", k);
      assert forall k :: 0 <= k < |line| ==> line[k] != ':' by {
        forall k | 0 <= k < |line| ensures line[k] != ':' {
          assert !OccursAt(line, ":", k);
          assert line[k..k + 1] == [line[k]];
        }
      }
      None
    case Some(i) =>
      assert line[i..i + 1] == ":";
      assert line[i] == ':';
      assert ':' !in line[..i] by {
        forall k | 0 <= k < i ensures line[k] != ':' {
          assert !OccursAt(line, ":", k);
          assert line[k..k + 1] == [line[k]];
        }
      }
      Some(Field(Trim(line[..i]), Trim(line[i + 1..])))
  }

  /** Fold the field lines into a header object; a later duplicate name
      overwrites the value of the earlier one at the earlier position. */
  function FieldsFrom(lines: seq<string>): (r: Headers)
    ensures DistinctNames(r) && |r| <= |lines|
    decreases |lines|
  {
    if |lines| == 0 then []
    else
      var acc := FieldsFrom(lines[..|lines| - 1]);
      match ParseFieldLine(lines[|lines| - 1])
      case None => acc
      case Some(f) =>
        PutThenLookup(acc, f.name, f.value, f.name);
        Put(acc, f.name, f.value)
  }

  /** A request head as a reader recovers it. */
  datatype RequestHead = RequestHead(verb: string, target: string, fields: Headers)

  /** Read a request head (the text before the blank line): the request line
      split at spaces into exactly three tokens ending in `HTTP/1.1`, then
      the field lines. */
  function ParseRequestHead(head: string): Option<RequestHead> {
    var lines := SplitOn(head, CRLF);
    var tokens := SplitOn(lines[0], " ");
    if |tokens| == 3 && tokens[2] == Version then
      Some(RequestHead(tokens[0], tokens[1], FieldsFrom(lines[1..])))
    else None
  }

  /** A field that serialises without ambiguity: a name free of colons, line
      breaks and surrounding white space, and a value free of line breaks and
      surrounding white space. */
  predicate WellFormedField(f: Field) {
    && ':' !in f.name && '\r' !in f.name && '\n' !in f.name
    && '\r' !in f.value && '\n' !in f.value
    && (|f.name| > 0 ==> !IsJsSpace(f.name[0]) && !IsJsSpace(f.name[|f.name| - 1]))
    && (|f.value| > 0 ==> !IsJsSpace(f.value[0]) && !IsJsSpace(f.value[|f.value| - 1]))
  }

  predicate WellFormedRequest(verb: string, target: string, hs: Headers) {
    && ' ' !in verb && '\r' !in verb && ' ' !in target && '\r' !in target
    && DistinctNames(hs)
    && forall i :: 0 <= i < |hs| ==> WellFormedField(hs[i])
  }

  /** The recursive field block is the list of lines joined by CRLF. */
  lemma {:induction false} FieldBlockJoin(first: string, hs: Headers)
    ensures first + CRLF + FieldBlock(hs) + CRLF == JoinWith([first] + FieldLines(hs), CRLF) + CRLF + CRLF
    decreases |hs|
  {
    if |hs| == 0 {
      assert [first] + FieldLines(hs) == [first];
    } else {
      var l := FieldLine(hs[0]);
      var rest := JoinWith([l] + FieldLines(hs[1..]), CRLF);
      FieldBlockJoin(l, hs[1..]);
      assert FieldLines(hs) == [l] + FieldLines(hs[1..]);
      assert ([first] + FieldLines(hs))[1..] == [l] + FieldLines(hs[1..]);
      assert JoinWith([first] + FieldLines(hs), CRLF) == first + CRLF + rest;
      calc {
        first + CRLF + FieldBlock(hs) + CRLF;
        first + CRLF + (l + CRLF + FieldBlock(hs[1..]) + CRLF);
        first + CRLF + (rest + CRLF + CRLF);
        first + CRLF + rest + CRLF + CRLF;
      }
    }
  }

  /** Reading back a serialised request head yields the verb, the target
      and the header object that were written. */
  lemma SerializeRoundTrip(verb: string, target: string, hs: Headers)
    requires WellFormedRequest(verb, target, hs)
    ensures ParseRequestHead(JoinWith([RequestLine(verb, target)] + FieldLines(hs), CRLF))
      == Some(RequestHead(verb, target, hs))
  {
    var first := RequestLine(verb, target);
    HeadLines(first, hs);
    RequestLineTokens(verb, target);
    FieldsFromLines(hs);
  }

  /** Splitting the head at CRLF recovers the request line and the field lines. */
  lemma HeadLines(first: string, hs: Headers)
    requires '\r' !in first
    requires forall i :: 0 <= i < |hs| ==> WellFormedField(hs[i])
    ensures SplitOn(JoinWith([first] + FieldLines(hs), CRLF), CRLF) == [first] + FieldLines(hs)
  {
    HeadLinesFree(first, hs);
    SplitJoinRoundTrip([first] + FieldLines(hs), CRLF);
  }

  lemma HeadLinesFree(first: string, hs: Headers)
    requires '\r' !in first
    requires forall i :: 0 <= i < |hs| ==> WellFormedField(hs[i])
    ensures forall k :: 0 <= k < |[first] + FieldLines(hs)| ==> CRLF[0] !in ([first] + FieldLines(hs))[k]
  {
    var lines := [first] + FieldLines(hs);
    FieldLinesFree(hs);
    assert CRLF[0] == '\r';
    forall k | 0 <= k < |lines|
      ensures '\r' !in lines[k]
    {
      if k > 0 {
        assert lines[k] == FieldLines(hs)[k - 1];
      }
    }
  }

  /** Splitting the request line at spaces recovers its three tokens. */
  lemma RequestLineTokens(verb: string, target: string)
    requires ' ' !in verb && ' ' !in target
    ensures SplitOn(RequestLine(verb, target), " ") == [verb, target, Version]
  {
    var parts := [verb, target, Version];
    assert ' ' !in Version;
    forall k | 0 <= k < |parts|
      ensures " "[0] !in parts[k]
    {
    }
    assert parts[1..][1..] == [Version];
    assert JoinWith(parts[1..], " ") == target + " " + Version;
    assert JoinWith(parts, " ") == verb + " " + (target + " " + Version);
    assert JoinWith(parts, " ") == RequestLine(verb, target);
    SplitJoinRoundTrip(parts, " ");
  }

  lemma {:induction false} FieldLinesFree(hs: Headers)
    requires forall i :: 0 <= i < |hs| ==> WellFormedField(hs[i])
    ensures |FieldLines(hs)| == |hs|
    ensures forall k :: 0 <= k < |hs| ==> '\r' !in FieldLines(hs)[k]
    decreases |hs|
  {
    if |hs| > 0 {
      FieldLinesFree(hs[1..]);
    }
  }

  /** The field-line grammar reads a well-formed field's line back as that field. */
  lemma FieldLineRoundTrip(f: Field)
    requires WellFormedField(f)
    ensures ParseFieldLine(FieldLine(f)) == Some(f)
  {
    var line := FieldLine(f);
    var n := |f.name|;
    assert line[n] == ':';
    assert line[n..n + 1] == ":";
    forall k | 0 <= k < n
      ensures !OccursAt(line, ":", k)
    {
      assert line[k] == f.name[k];
      assert line[k..k + 1] == [line[k]];
    }
    FirstOccurrence(line, ":", n);
    assert line[..n] == f.name;
    assert line[n + 1..] == " " + f.value;
    TrimUnpadded(f.name);
    TrimSingleSpace(f.value);
  }

  lemma TrimSingleSpace(v: string)
    requires |v| > 0 ==> !IsJsSpace(v[0]) && !IsJsSpace(v[|v| - 1])
    ensures Trim(" " + v) == v
  {
    assert (" " + v)[1..] == v;
    assert TrimStart(" " + v) == TrimStart(v);
    TrimUnpadded(v);
  }

  /** Folding the lines of distinct, well-formed fields rebuilds the fields
      in their order: each name is new when its line is read, so it is appended. */
  lemma {:induction false} FieldsFromLines(hs: Headers)
    requires DistinctNames(hs)
    requires forall i :: 0 <= i < |hs| ==> WellFormedField(hs[i])
    ensures FieldsFrom(FieldLines(hs)) == hs
    decreases |hs|
  {
    if |hs| > 0 {
      var init := hs[..|hs| - 1];
      var last := hs[|hs| - 1];
      assert hs == init + [last];
      SnocParts(init, last);
      FieldsFromLines(init);
      FieldLineRoundTrip(last);
      FieldLinesSnoc(init, last);
      FieldsFromSnoc(FieldLines(init), FieldLine(last), last);
      LookupAbsent(init, last.name);
    }
  }

  /** The last field of a list with distinct names has a name the others lack. */
  lemma SnocParts(init: Headers, last: Field)
    requires DistinctNames(init + [last])
    requires forall i :: 0 <= i < |init + [last]| ==> WellFormedField((init + [last])[i])
    ensures DistinctNames(init) && WellFormedField(last)
    ensures forall i :: 0 <= i < |init| ==> WellFormedField(init[i]) && init[i].name != last.name
  {
    var hs := init + [last];
    assert hs[|init|] == last;
    forall i | 0 <= i < |init|
      ensures WellFormedField(init[i]) && init[i].name != last.name
    {
      assert hs[i] == init[i];
    }
    forall i, j | 0 <= i < j < |init|
      ensures init[i].name != init[j].name
    {
      assert hs[i] == init[i] && hs[j] == init[j];
    }
  }

  /** Reading one more line that carries field `f` puts `f` into the fold. */
  lemma FieldsFromSnoc(lines: seq<string>, line: string, f: Field)
    requires ParseFieldLine(line) == Some(f)
    ensures FieldsFrom(lines + [line]) == Put(FieldsFrom(lines), f.name, f.value)
  {
    var all := lines + [line];
    assert all[..|all| - 1] == lines;
    assert all[|all| - 1] == line;
  }

  lemma FieldLinesLength(hs: Headers)
    ensures |FieldLines(hs)| == |hs|
  {
  }

  lemma LookupAbsent(hs: Headers, name: string)
    requires forall i :: 0 <= i < |hs| ==> hs[i].name != name
    ensures Lookup(hs, name).None?
  {
  }

  lemma {:induction false} FieldLinesSnoc(hs: Headers, f: Field)
    ensures FieldLines(hs + [f]) == FieldLines(hs) + [FieldLine(f)]
    decreases |hs|
  {
    if |hs| > 0 {
      assert (hs + [f])[1..] == hs[1..] + [f];
      FieldLinesSnoc(hs[1..], f);
    } else {
      assert hs + [f] == [f];
    }
  }
}
