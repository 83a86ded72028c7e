/** The relays' handling of the raw response bytes arriving over a SOCKS
    socket, chunk by chunk: the status and header object are handed to
    `writeHead`, the bytes after the head to `write`. Bytes are Latin-1
    characters, which is what `toString('binary')` produces and
    `Buffer.from(…, 'binary')` turns back, byte for byte. */
module ResponseStream {
  import opened Wrappers
  import opened JsText
  import opened HeaderMap
  import opened ResponseHead

  /** CRLF CRLF: the end of a response head. */
  const HeadEnd: string := "\r\n\r\n"

  /** What a reader does to the client response: `writeHead(status, headers)`,
      `write(bytes)`, or the 502 abort (`writeHead(502)`, `end()`, and ending
      the SOCKS socket). */
  datatype Event = WriteHead(status: int, headers: Headers) | WriteBody(bytes: string) | Abort502

  /** The bytes of all chunks in arrival order. */
  function Flatten(chunks: seq<string>): string
    decreases |chunks|
  {
    if |chunks| == 0 then [] else Flatten(chunks[..|chunks| - 1]) + chunks[|chunks| - 1]
  }

  /** The body bytes written, in order. */
  function BodyOf(events: seq<Event>): string
    decreases |events|
  {
    if |events| == 0 then []
    else
      var e := events[|events| - 1];
      BodyOf(events[..|events| - 1]) + (if e.WriteBody? then e.bytes else [])
  }

  /** What a client sees of a response: nothing yet, the 502 abort, or a
      status, headers and body. An event list that starts with body bytes is
      produced by no reader and is read as nothing yet. */
  datatype Outcome = Pending | Aborted | Answered(status: int, headers: Headers, body: string)

  function Observe(events: seq<Event>): Outcome {
    if |events| == 0 then Pending
    else
      match events[0]
      case Abort502 => Aborted
      case WriteHead(s, hs) => Answered(s, hs, BodyOf(events[1..]))
      case WriteBody(_) => Pending
  }

  /** The intended reading of a whole byte stream with head grammar `parse`:
      the head is the text before the first CRLF CRLF, the body everything
      after it. */
  function Reference(parse: string -> Option<Head>, bytes: string): Outcome {
    match IndexOf(bytes, HeadEnd)
    case None => Pending
    case Some(i) =>
      match parse(bytes[..i])
      case None => Aborted
      case Some(h) => Answered(h.status, h.headers, bytes[i + 4..])
  }

  // The proxy engine's reader (per chunk)

  /** How the proxy engine reads the bytes before CRLF CRLF: `text` is
      `Buffer.prototype.toString` (UTF-8), then the head grammar. The
      reader below takes this as its `read` parameter. */
  function ManagerRead(text: string -> string): string -> Head {
    s => ManagerHead(text(s))
  }

  /** One `data` event of the proxy engine's reader. Until a head has been
      seen, a chunk is searched for CRLF CRLF on its own; a chunk without it
      is dropped. */
  function ManagerStep(read: string -> Head, parsed: bool, chunk: string): (r: (bool, seq<Event>))
    ensures r.0 <==> parsed || IndexOf(chunk, HeadEnd).Some?
    ensures !r.0 ==> r.1 == []
    ensures parsed ==> r.1 == [WriteBody(chunk)]
    ensures !parsed && r.0 ==>
      var i := IndexOf(chunk, HeadEnd).value;
      r.1 == [WriteHead(read(chunk[..i]).status, read(chunk[..i]).headers), WriteBody(chunk[i + 4..])]
  {
    if parsed then (true, [WriteBody(chunk)])
    else
      match IndexOf(chunk, HeadEnd)
      case None => (false, [])
      case Some(i) =>
        var h := read(chunk[..i]);
        (true, [WriteHead(h.status, h.headers), WriteBody(chunk[i + 4..])])
  }

  /** The proxy engine's reader over a chunk list: the flag `headerParsed`
      and the events so far. Until the flag is set nothing is written. */
  function ManagerRun(read: string -> Head, chunks: seq<string>): (r: (bool, seq<Event>))
    ensures !r.0 ==> r.1 == []
    ensures r.0 ==> |r.1| >= 2 && r.1[0].WriteHead?
    decreases |chunks|
  {
    if |chunks| == 0 then (false, [])
    else
      var prev := ManagerRun(read, chunks[..|chunks| - 1]);
      var next := ManagerStep(read, prev.0, chunks[|chunks| - 1]);
      (next.0, prev.1 + next.1)
  }

  /** The first chunk that holds CRLF CRLF by itself. */
  function FirstHeadChunk(chunks: seq<string>): (r: Option<nat>)
    ensures r.Some? ==> r.value < |chunks| && IndexOf(chunks[r.value], HeadEnd).Some?
    ensures r.Some? ==> forall j :: 0 <= j < r.value ==> IndexOf(chunks[j], HeadEnd).None?
    ensures r.None? ==> forall j :: 0 <= j < |chunks| ==> IndexOf(chunks[j], HeadEnd).None?
    decreases |chunks|
  {
    if |chunks| == 0 then None
    else
      var init := chunks[..|chunks| - 1];
      match FirstHeadChunk(init)
      case Some(k) => Some(k)
      case None => if IndexOf(chunks[|chunks| - 1], HeadEnd).Some? then Some(|chunks| - 1) else None
  }

  function Bodies(chunks: seq<string>): (r: seq<Event>)
    ensures |r| == |chunks| && forall k :: 0 <= k < |r| ==> r[k] == WriteBody(chunks[k])
  {
    seq(|chunks|, k requires 0 <= k < |chunks| => WriteBody(chunks[k]))
  }

  /** What the proxy engine's reader emits, stated over the whole chunk list:
      nothing before the first chunk that holds a complete head; then the
      head of that chunk, the rest of that chunk, and every later chunk
      verbatim. */
  function ManagerReference(read: string -> Head, chunks: seq<string>): seq<Event> {
    match FirstHeadChunk(chunks)
    case None => []
    case Some(k) => HeadChunkEvents(read, chunks[k]) + Bodies(chunks[k + 1..])
  }

  /** The events of the chunk that completes a head: the head, then the rest
      of the chunk. */
  function HeadChunkEvents(read: string -> Head, c: string): (r: seq<Event>)
    requires IndexOf(c, HeadEnd).Some?
    ensures |r| == 2 && r[1] == WriteBody(c[IndexOf(c, HeadEnd).value + 4..])
    ensures r[0] == WriteHead(HeadOf(read, c).status, HeadOf(read, c).headers)
  {
    var h := HeadOf(read, c);
    [WriteHead(h.status, h.headers), WriteBody(c[IndexOf(c, HeadEnd).value + 4..])]
  }

  /** The proxy engine's head of a chunk that holds CRLF CRLF. */
  function HeadOf(read: string -> Head, c: string): Head
    requires IndexOf(c, HeadEnd).Some?
  {
    read(c[..IndexOf(c, HeadEnd).value])
  }

  lemma {:induction false} ManagerRunMatches(read: string -> Head, chunks: seq<string>)
    ensures ManagerRun(read, chunks).0 == FirstHeadChunk(chunks).Some?
    ensures ManagerRun(read, chunks).1 == ManagerReference(read, chunks)
    decreases |chunks|
  {
    if |chunks| > 0 {
      var init := chunks[..|chunks| - 1];
      ManagerRunMatches(read, init);
      if FirstHeadChunk(init).Some? {
        ManagerAfterHead(read, init, chunks[|chunks| - 1]);
        assert init + [chunks[|chunks| - 1]] == chunks;
      }
    }
  }

  /** Once a head has been seen, a further chunk is written verbatim. */
  lemma ManagerAfterHead(read: string -> Head, init: seq<string>, c: string)
    requires FirstHeadChunk(init).Some?
    ensures FirstHeadChunk(init + [c]) == FirstHeadChunk(init)
    ensures ManagerReference(read, init + [c]) == ManagerReference(read, init) + [WriteBody(c)]
  {
    var chunks := init + [c];
    FirstHeadChunkSnoc(init, c);
    var k := FirstHeadChunk(init).value;
    ReferenceAt(read, init, k);
    ReferenceAt(read, chunks, k);
    assert chunks[k] == init[k];
    assert chunks[k + 1..] == init[k + 1..] + [c];
    BodiesSnoc(init[k + 1..], c);
    AppendAssoc(HeadChunkEvents(read, init[k]), Bodies(init[k + 1..]), [WriteBody(c)]);
  }

  lemma ReferenceAt(read: string -> Head, chunks: seq<string>, k: nat)
    requires FirstHeadChunk(chunks) == Some(k)
    ensures k < |chunks| && IndexOf(chunks[k], HeadEnd).Some?
    ensures ManagerReference(read, chunks) == HeadChunkEvents(read, chunks[k]) + Bodies(chunks[k + 1..])
  {
    var r := ManagerReference(read, chunks);
    assert r[..2] == HeadChunkEvents(read, chunks[k]);
    assert r[2..] == Bodies(chunks[k + 1..]);
    Halves(r, 2);
  }

  lemma Halves<T>(r: seq<T>, n: nat)
    requires n <= |r|
    ensures r == r[..n] + r[n..]
  {
  }

  lemma AppendAssoc<T>(a: seq<T>, b: seq<T>, c: seq<T>)
    ensures a + (b + c) == (a + b) + c
  {
  }

  lemma FirstHeadChunkSnoc(init: seq<string>, c: string)
    requires FirstHeadChunk(init).Some?
    ensures FirstHeadChunk(init + [c]) == FirstHeadChunk(init)
  {
    assert (init + [c])[..|init|] == init;
  }

  lemma BodiesSnoc(cs: seq<string>, c: string)
    ensures Bodies(cs + [c]) == Bodies(cs) + [WriteBody(c)]
  {
  }

  // The accumulating reader

  /** The accumulating reader's state: the bytes received so far (emptied
      once the head has been handled) and the status code once known. */
  datatype Reader = Reader(buffer: string, status: Option<int>)

  const Fresh: Reader := Reader([], None)

  /** One `data` event of the accumulating reader with head grammar `parse`.
      The chunk is appended and the whole buffer searched. A head the
      grammar rejects aborts with 502 and leaves the state as it was, so
      every later chunk aborts again. */
  function AccStep(parse: string -> Option<Head>, st: Reader, chunk: string): (r: (Reader, seq<Event>))
    ensures st.status.Some? ==> r == (Reader(st.buffer + chunk, st.status), [WriteBody(chunk)])
    ensures r.0.status.None? ==> r.0.buffer == st.buffer + chunk && st.status.None?
    ensures r.0.status.None? ==> r.1 == [] || r.1 == [Abort502]
    ensures st.status.None? && r.0.status.Some? ==> r.0.buffer == [] && |r.1| > 0 && r.1[0].WriteHead?
  {
    var buf := st.buffer + chunk;
    var idx := IndexOf(buf, HeadEnd);
    if st.status.None? && idx.Some? then
      match parse(buf[..idx.value])
      case None => (Reader(buf, None), [Abort502])
      case Some(h) =>
        var body := buf[idx.value + 4..];
        (Reader([], Some(h.status)), [WriteHead(h.status, h.headers)] + (if body != [] then [WriteBody(body)] else []))
    else if st.status.Some? then (Reader(buf, st.status), [WriteBody(chunk)])
    else (Reader(buf, None), [])
  }

  /** The accumulating reader over a chunk list. Until a head is accepted
      the buffer holds every byte received and the only event is the 502
      abort. */
  function AccRun(parse: string -> Option<Head>, chunks: seq<string>): (r: (Reader, seq<Event>))
    ensures r.0.status.None? ==> r.0.buffer == Flatten(chunks)
    ensures r.0.status.None? ==> forall k :: 0 <= k < |r.1| ==> r.1[k] == Abort502
    decreases |chunks|
  {
    if |chunks| == 0 then (Fresh, [])
    else
      var prev := AccRun(parse, chunks[..|chunks| - 1]);
      var next := AccStep(parse, prev.0, chunks[|chunks| - 1]);
      (next.0, prev.1 + next.1)
  }

  /** What the accumulating reader has done after receiving `bytes` in
      total, against what the whole stream prescribes. */
  predicate AccInv(parse: string -> Option<Head>, st: Reader, events: seq<Event>, bytes: string) {
    match Reference(parse, bytes)
    case Pending => st == Reader(bytes, None) && events == []
    case Aborted =>
      && st == Reader(bytes, None) && |events| > 0
      && forall k :: 0 <= k < |events| ==> events[k] == Abort502
    case Answered(status, hs, body) =>
      && st.status == Some(status) && |events| > 0
      && events[0] == WriteHead(status, hs)
      && (forall k :: 1 <= k < |events| ==> events[k].WriteBody?)
      && BodyOf(events[1..]) == body
  }

  /** More bytes never undo a decision: an abort stays an abort and an
      answer only gains body bytes. */
  lemma ReferenceGrows(parse: string -> Option<Head>, bytes: string, chunk: string)
    ensures Reference(parse, bytes).Aborted? ==> Reference(parse, bytes + chunk).Aborted?
    ensures Reference(parse, bytes).Answered? ==>
      var r := Reference(parse, bytes);
      Reference(parse, bytes + chunk) == Answered(r.status, r.headers, r.body + chunk)
  {
    if IndexOf(bytes, HeadEnd).Some? {
      var i := IndexOf(bytes, HeadEnd).value;
      IndexOfAppendFound(bytes, chunk, HeadEnd);
      assert (bytes + chunk)[..i] == bytes[..i];
      assert (bytes + chunk)[i + 4..] == bytes[i + 4..] + chunk;
    }
  }

  lemma BodyOfAppend(a: seq<Event>, b: seq<Event>)
    ensures BodyOf(a + b) == BodyOf(a) + BodyOf(b)
    decreases |b|
  {
    if |b| > 0 {
      assert (a + b)[..|a + b| - 1] == a + b[..|b| - 1];
      BodyOfAppend(a, b[..|b| - 1]);
    } else {
      assert a + b == a;
    }
  }

  lemma BodyOfSingle(e: Event)
    ensures BodyOf([e]) == if e.WriteBody? then e.bytes else []
  {
    assert [e][..0] == [];
  }

  /** The step lemma: one more chunk keeps the invariant over the bytes
      received so far. */
  lemma AccStepKeeps(parse: string -> Option<Head>, st: Reader, events: seq<Event>, bytes: string, chunk: string)
    requires AccInv(parse, st, events, bytes)
    ensures AccInv(parse, AccStep(parse, st, chunk).0, events + AccStep(parse, st, chunk).1, bytes + chunk)
  {
    ReferenceGrows(parse, bytes, chunk);
    match Reference(parse, bytes) {
      case Pending => AccStepBeforeHead(parse, bytes, chunk);
      case Aborted => AccStepAborted(parse, events, bytes, chunk);
      case Answered(status, hs, body) =>
        AnsweredStep(parse, st, chunk);
        BodyAfterAppend(events, chunk);
    }
  }

  /** No head yet: the chunk may complete it. */
  lemma AccStepBeforeHead(parse: string -> Option<Head>, bytes: string, chunk: string)
    requires Reference(parse, bytes).Pending?
    ensures AccInv(parse, AccStep(parse, Reader(bytes, None), chunk).0, AccStep(parse, Reader(bytes, None), chunk).1, bytes + chunk)
  {
    var all := bytes + chunk;
    match IndexOf(all, HeadEnd) {
      case None =>
        assert AccStep(parse, Reader(bytes, None), chunk) == (Reader(all, None), []);
      case Some(i) =>
        match parse(all[..i]) {
          case None =>
            assert AccStep(parse, Reader(bytes, None), chunk) == (Reader(all, None), [Abort502]);
          case Some(h) => HeadCompleted(parse, bytes, chunk, i, h);
        }
    }
  }

  /** The chunk completes a head the grammar accepts. */
  lemma HeadCompleted(parse: string -> Option<Head>, bytes: string, chunk: string, i: nat, h: Head)
    requires IndexOf(bytes + chunk, HeadEnd) == Some(i) && parse((bytes + chunk)[..i]) == Some(h)
    ensures AccInv(parse, AccStep(parse, Reader(bytes, None), chunk).0, AccStep(parse, Reader(bytes, None), chunk).1, bytes + chunk)
  {
    var all := bytes + chunk;
    var body := all[i + 4..];
    var ev := [WriteHead(h.status, h.headers)] + (if body != [] then [WriteBody(body)] else []);
    HeadEvents(h.status, h.headers, body);
    assert AccStep(parse, Reader(bytes, None), chunk) == (Reader([], Some(h.status)), ev);
    assert Reference(parse, all) == Answered(h.status, h.headers, body);
  }

  /** The events of a head followed by the bytes that came with it: the
      head first, then only body bytes, and exactly those. */
  lemma HeadEvents(status: int, hs: Headers, body: string)
    ensures
      var ev := [WriteHead(status, hs)] + (if body != [] then [WriteBody(body)] else []);
      && |ev| > 0 && ev[0] == WriteHead(status, hs)
      && (forall k :: 1 <= k < |ev| ==> ev[k].WriteBody?)
      && BodyOf(ev[1..]) == body
  {
    var ev := [WriteHead(status, hs)] + (if body != [] then [WriteBody(body)] else []);
    assert ev[1..] == if body != [] then [WriteBody(body)] else [];
    if body != [] {
      BodyOfSingle(WriteBody(body));
    }
  }

  /** A rejected head stays rejected: the same head is found again. */
  lemma AccStepAborted(parse: string -> Option<Head>, events: seq<Event>, bytes: string, chunk: string)
    requires Reference(parse, bytes + chunk).Aborted?
    requires |events| > 0 && forall k :: 0 <= k < |events| ==> events[k] == Abort502
    ensures AccInv(parse, AccStep(parse, Reader(bytes, None), chunk).0,
      events + AccStep(parse, Reader(bytes, None), chunk).1, bytes + chunk)
  {
    assert AccStep(parse, Reader(bytes, None), chunk) == (Reader(bytes + chunk, None), [Abort502]);
  }

  lemma AnsweredStep(parse: string -> Option<Head>, st: Reader, chunk: string)
    requires st.status.Some?
    ensures AccStep(parse, st, chunk) == (Reader(st.buffer + chunk, st.status), [WriteBody(chunk)])
  {
  }

  lemma BodyAfterAppend(events: seq<Event>, chunk: string)
    requires |events| > 0 && forall k :: 1 <= k < |events| ==> events[k].WriteBody?
    ensures (events + [WriteBody(chunk)])[0] == events[0]
    ensures BodyOf((events + [WriteBody(chunk)])[1..]) == BodyOf(events[1..]) + chunk
    ensures forall k :: 1 <= k < |events| + 1 ==> (events + [WriteBody(chunk)])[k].WriteBody?
  {
    var evs := events + [WriteBody(chunk)];
    assert evs[1..] == events[1..] + [WriteBody(chunk)];
    BodyOfAppend(events[1..], [WriteBody(chunk)]);
    BodyOfSingle(WriteBody(chunk));
  }

  lemma {:induction false} AccRunInv(parse: string -> Option<Head>, chunks: seq<string>)
    ensures AccInv(parse, AccRun(parse, chunks).0, AccRun(parse, chunks).1, Flatten(chunks))
    decreases |chunks|
  {
    if |chunks| == 0 {
      assert IndexOf(Flatten(chunks), HeadEnd).None?;
    } else {
      var init := chunks[..|chunks| - 1];
      AccRunInv(parse, init);
      var prev := AccRun(parse, init);
      AccStepKeeps(parse, prev.0, prev.1, Flatten(init), chunks[|chunks| - 1]);
    }
  }

  /** Chunk-boundary invariance: whatever the chunking, the client sees what
      the whole byte stream read at once prescribes, with the head written
      exactly once and the body equal to every byte after CRLF CRLF. */
  lemma AccRunObserved(parse: string -> Option<Head>, chunks: seq<string>)
    ensures Observe(AccRun(parse, chunks).1) == Reference(parse, Flatten(chunks))
    ensures Reference(parse, Flatten(chunks)).Answered? ==>
      forall k :: 1 <= k < |AccRun(parse, chunks).1| ==> AccRun(parse, chunks).1[k].WriteBody?
  {
    AccRunInv(parse, chunks);
  }

  /** Two chunkings of the same bytes are indistinguishable to the client. */
  lemma ChunkingIrrelevant(parse: string -> Option<Head>, a: seq<string>, b: seq<string>)
    requires Flatten(a) == Flatten(b)
    ensures Observe(AccRun(parse, a).1) == Observe(AccRun(parse, b).1)
  {
    AccRunObserved(parse, a);
    AccRunObserved(parse, b);
  }

  /** Delivery one byte per chunk. */
  function Bytewise(bytes: string): (r: seq<string>)
    ensures |r| == |bytes| && forall k :: 0 <= k < |r| ==> r[k] == [bytes[k]]
  {
    seq(|bytes|, k requires 0 <= k < |bytes| => [bytes[k]])
  }

  lemma {:induction false} FlattenBytewise(bytes: string)
    ensures Flatten(Bytewise(bytes)) == bytes
    decreases |bytes|
  {
    if |bytes| > 0 {
      var init := bytes[..|bytes| - 1];
      FlattenBytewise(init);
      assert Bytewise(bytes)[..|bytes| - 1] == Bytewise(init);
    }
  }

  lemma BytewiseObserved(parse: string -> Option<Head>, bytes: string)
    ensures Observe(AccRun(parse, Bytewise(bytes)).1) == Observe(AccRun(parse, [bytes]).1)
  {
    FlattenBytewise(bytes);
    assert Flatten([bytes]) == Flatten([][..0]) + bytes;
    ChunkingIrrelevant(parse, Bytewise(bytes), [bytes]);
  }

  /** The single-file variant's reader: the accumulating reader with the
      strict status-line grammar. */
  /** It shows the client the same outcome for every chunking of the same
      bytes: the outcome of reading them all at once. */
  function IndexRun(chunks: seq<string>): (r: seq<Event>)
    ensures Observe(r) == Reference(IndexHead, Flatten(chunks))
  {
    AccRunObserved(IndexHead, chunks);
    AccRun(IndexHead, chunks).1
  }

  /** The proxy engine's head grammar as a total parser. */
  function ManagerParse(read: string -> Head): string -> Option<Head> {
    h => Some(read(h))
  }

  /** The proxy engine's reader, corrected: accumulate like the single-file
      variant, then read the head with the proxy engine's grammar. */
  function ManagerRunCorrected(read: string -> Head, chunks: seq<string>): seq<Event> {
    AccRun(ManagerParse(read), chunks).1
  }

  lemma ManagerCorrectedInvariant(read: string -> Head, chunks: seq<string>)
    ensures Observe(ManagerRunCorrected(read, chunks)) == Reference(ManagerParse(read), Flatten(chunks))
    ensures IndexOf(Flatten(chunks), HeadEnd).Some? ==> Observe(ManagerRunCorrected(read, chunks)).Answered?
  {
    AccRunObserved(ManagerParse(read), chunks);
  }

  /** A status line and a body without CR, delivered as the status line with
      its CRLF and then the blank line with the body: the proxy engine's
      reader emits nothing at all, while the corrected reader answers with
      the status line's head and the body. */
  lemma ManagerDropsSplitHead(read: string -> Head, statusLine: string, body: string)
    requires '\r' !in statusLine && '\r' !in body
    ensures ManagerRun(read, [statusLine + CRLF, CRLF + body]).1 == []
    ensures Observe(ManagerRunCorrected(read, [statusLine + CRLF, CRLF + body]))
      == Answered(read(statusLine).status, read(statusLine).headers, body)
  {
    var chunks := [statusLine + CRLF, CRLF + body];
    NoHeadEndAfterLine(statusLine);
    NoHeadEndBeforeBody(body);
    ManagerRunMatches(read, chunks);
    var all := statusLine + HeadEnd + body;
    assert chunks[..1] == [statusLine + CRLF];
    assert Flatten(chunks[..1]) == Flatten([]) + (statusLine + CRLF);
    assert Flatten(chunks) == all;
    HeadEndAt(statusLine, body);
    ManagerCorrectedInvariant(read, chunks);
  }

  lemma NoHeadEndAfterLine(line: string)
    requires '\r' !in line
    ensures IndexOf(line + CRLF, HeadEnd).None?
  {
    var s := line + CRLF;
    forall j | 0 <= j && j + 4 <= |s|
      ensures !OccursAt(s, HeadEnd, j)
    {
      assert s[j..j + 4][0] == s[j] == line[j];
    }
  }

  lemma NoHeadEndBeforeBody(body: string)
    requires '\r' !in body
    ensures IndexOf(CRLF + body, HeadEnd).None?
  {
    var s := CRLF + body;
    forall j | 0 <= j && j + 4 <= |s|
      ensures !OccursAt(s, HeadEnd, j)
    {
      if j == 0 {
        assert s[j..j + 4][2] == body[0];
      } else if j == 1 {
        assert s[j..j + 4][0] == '\n';
      } else {
        assert s[j..j + 4][0] == body[j - 2];
      }
    }
  }

  lemma HeadEndAt(line: string, body: string)
    requires '\r' !in line
    ensures IndexOf(line + HeadEnd + body, HeadEnd) == Some(|line|)
    ensures (line + HeadEnd + body)[..|line|] == line && (line + HeadEnd + body)[|line| + 4..] == body
  {
    var s := line + HeadEnd + body;
    assert s[|line|..|line| + 4] == HeadEnd;
    forall j | 0 <= j < |line|
      ensures !OccursAt(s, HeadEnd, j)
    {
      assert s[j..j + 4][0] == line[j];
    }
    FirstOccurrence(s, HeadEnd, |line|);
  }

  /** When the whole head arrives in the first chunk, the proxy engine's
      reader shows the client what the corrected reader shows. */
  lemma ManagerAgreesOnWholeHead(read: string -> Head, chunks: seq<string>)
    requires |chunks| > 0 && IndexOf(chunks[0], HeadEnd).Some?
    ensures Observe(ManagerRun(read, chunks).1) == Observe(ManagerRunCorrected(read, chunks))
  {
    ManagerRunMatches(read, chunks);
    ManagerSeesWholeHead(read, chunks);
    CorrectedSeesWholeHead(read, chunks);
  }

  lemma ManagerSeesWholeHead(read: string -> Head, chunks: seq<string>)
    requires |chunks| > 0 && IndexOf(chunks[0], HeadEnd).Some?
    ensures
      var c := chunks[0];
      var i := IndexOf(c, HeadEnd).value;
      var h := HeadOf(read, c);
      Observe(ManagerReference(read, chunks)) == Answered(h.status, h.headers, c[i + 4..] + Flatten(chunks[1..]))
  {
    var c := chunks[0];
    var i := IndexOf(c, HeadEnd).value;
    var h := HeadOf(read, c);
    FirstHeadChunkZero(chunks);
    var hc := HeadChunkEvents(read, c);
    assert hc == [WriteHead(h.status, h.headers), WriteBody(c[i + 4..])];
    ObserveHeadThenBodies(h.status, h.headers, c[i + 4..], chunks[1..]);
  }

  lemma FirstHeadChunkZero(chunks: seq<string>)
    requires |chunks| > 0 && IndexOf(chunks[0], HeadEnd).Some?
    ensures FirstHeadChunk(chunks) == Some(0)
  {
    var r := FirstHeadChunk(chunks);
    assert r.Some? ==> r.value == 0;
  }

  lemma ObserveHeadThenBodies(status: int, hs: Headers, b: string, cs: seq<string>)
    ensures Observe([WriteHead(status, hs), WriteBody(b)] + Bodies(cs)) == Answered(status, hs, b + Flatten(cs))
  {
    var evs := [WriteHead(status, hs), WriteBody(b)] + Bodies(cs);
    assert evs[1..] == [WriteBody(b)] + Bodies(cs);
    BodyOfAppend([WriteBody(b)], Bodies(cs));
    BodyOfSingle(WriteBody(b));
    BodyOfBodies(cs);
  }

  lemma CorrectedSeesWholeHead(read: string -> Head, chunks: seq<string>)
    requires |chunks| > 0 && IndexOf(chunks[0], HeadEnd).Some?
    ensures
      var c := chunks[0];
      var i := IndexOf(c, HeadEnd).value;
      var h := HeadOf(read, c);
      Observe(ManagerRunCorrected(read, chunks)) == Answered(h.status, h.headers, c[i + 4..] + Flatten(chunks[1..]))
  {
    ManagerCorrectedInvariant(read, chunks);
    var c := chunks[0];
    var i := IndexOf(c, HeadEnd).value;
    FlattenCons(chunks);
    IndexOfAppendFound(c, Flatten(chunks[1..]), HeadEnd);
    var all := Flatten(chunks);
    assert all[..i] == c[..i];
    assert all[i + 4..] == c[i + 4..] + Flatten(chunks[1..]);
  }

  lemma {:induction false} FlattenCons(chunks: seq<string>)
    requires |chunks| > 0
    ensures Flatten(chunks) == chunks[0] + Flatten(chunks[1..])
    decreases |chunks|
  {
    if |chunks| > 1 {
      var init := chunks[..|chunks| - 1];
      FlattenCons(init);
      assert init[1..] == chunks[1..][..|chunks[1..]| - 1];
    } else {
      assert chunks[1..] == [];
      assert chunks[..0] == [];
    }
  }

  lemma {:induction false} BodyOfBodies(chunks: seq<string>)
    ensures BodyOf(Bodies(chunks)) == Flatten(chunks)
    decreases |chunks|
  {
    if |chunks| > 0 {
      var init := chunks[..|chunks| - 1];
      BodyOfBodies(init);
      assert Bodies(chunks)[..|chunks| - 1] == Bodies(init);
    }
  }
}
