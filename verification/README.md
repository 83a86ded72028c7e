# socks-bridge core, modelled in Dafny

socks-bridge is an HTTPS forward proxy. Each configured listener accepts
`CONNECT` tunnels and plain absolute-URL requests. It relays them either
directly or through the listener's SOCKS5 gateway. An administration API
edits the listener list and reloads the running servers.

This project models the decision logic of both variants of the proxy: the
proxy engine (`utils/proxyManager.js`) and the single-file variant
(`index.js`). It also models the configuration routes, the listener check
and the certificate-domain reader. Each part is a pure function over
immutable data. Everything the code cannot decide by itself is a parameter:

- whether an upstream connection opens;
- the base64-to-text conversion;
- the parsed URL;
- the parsed certificate;
- what the file system and `listen` answer.

Modules, in dependency order:

| module | what it models |
|---|---|
| `Wrappers` | `Option` and `Result` |
| `JsText` | `trim`, `indexOf`, `split`, `join` |
| `JsValues` | truthiness, nullish and logical-or defaults, `String(v)`, `parseInt`, `Number(string)` on integers |
| `HeaderMap` | header objects; the field-line grammar; the request head written to a SOCKS socket |
| `ProxyConfig` | the configuration module and its listener records |
| `Timeouts` | `getTimeouts`, `tuneSocket` |
| `ProxyAuth` | `authenticate` and the refusal replies |
| `Tunnel` | `handleConnect` of both variants |
| `ResponseHead` | both readers of a response head |
| `ResponseStream` | both chunk-by-chunk response readers |
| `ForwardRelay` | `handleRequest` of both variants and their failure replies |
| `Registry` | `startProxyServers`, `stopProxyServers`, `reloadProxyServers` |
| `ConfigManager` | `validateListener` |
| `CertUtils` | `getTlsDomain` |
| `ConfigApi` | the `/api/config` routes |

Where the two variants differ, the model has one member for each and proves
where they agree and where they part. Both variants share these behaviours:

- the credential gate;
- the `CONNECT` target reading;
- header stripping;
- the response reader.

The two response readers differ in one important way:

- The single-file variant accumulates the bytes before it searches for the
  end of the head. It is proved to show the client the same thing for
  every chunking of the same bytes.
- The proxy engine searches each chunk on its own. It is modelled as
  written, and the model shows the input it gets wrong (see Findings).

Two behaviours of the proxy engine are easy to assume and are not there:

- A failed direct `CONNECT` gets no `502`. The client socket is only
  destroyed (`Tunnel.ManagerConnect`).
- The response reader does not accumulate the head across chunks
  (`ResponseStream.ManagerRun`).

The credential gate of both variants throws on the bare header value
`Basic` (see Findings). The handlers are modelled twice: once as written,
where that client gets no reply, and once on the corrected gate, which
refuses it.

A direct `CONNECT` whose port Node refuses (NaN, below 0 or above 65535)
makes `net.connect` throw before any handler is attached, in both
variants: `h:abc` and `h:-1` in the proxy engine, `h:-1` in the
single-file variant, `h:70000` in both. Nothing is written and the socket
is left open.

Both throws reject an `async` handler nobody awaits. No
`unhandledRejection` listener is installed, so on Node 15 and later the
rejection ends the whole process and every listener with it. The model
records the throw as the `Thrown` ending and does not model the process
exit.

## Model

| member | source | states |
|---|---|---|
| JsText.Trim | utils/proxyManager.js:256 | `trim` returns a slice no longer than its input, and neither end of the result is white space |
| JsText.TrimIsSlice | utils/proxyManager.js:256 | the result of `trim` is exactly the text between a leading and a trailing run of white space |
| JsText.TrimComposes | utils/proxyManager.js:256 | `trim` is `trimStart` followed by `trimEnd` |
| JsText.TrimUnpadded | utils/proxyManager.js:256 | text that neither starts nor ends with white space is its own trim |
| JsText.IndexOf | utils/proxyManager.js:248 | `indexOf` returns the leftmost occurrence: it occurs there, none occurs earlier, and `None` means it occurs nowhere |
| JsText.FirstOccurrence | utils/proxyManager.js:248 | an occurrence with none before it is the one `indexOf` returns |
| JsText.IndexOfAppendFound | index.js:276-277 | appending to the buffer never moves a CRLF CRLF already found |
| JsText.IndexOfAppendNew | index.js:276-277 | a CRLF CRLF that appears only after appending ends inside the appended bytes |
| JsText.SplitOn | utils/proxyManager.js:251 | `split`: joining the pieces with the separator gives the input back, and no piece contains the separator |
| JsText.SplitOnFirst | utils/proxyManager.js:255-256 | the first piece is the text before the first separator, and re-joining the other pieces gives the text after it |
| JsText.SplitJoinRoundTrip | utils/proxyManager.js:237-238 | splitting undoes joining when no piece holds the separator's first character |
| JsText.SplitOnCons | utils/proxyManager.js:58 | text `a + sep + b`, with `a` free of the separator, splits into `a` and then the pieces of `b` |
| JsValues.Truthy | utils/proxyManager.js:87 | exactly `undefined`, `null`, `false`, `0` and `""` are falsy |
| JsValues.Coalesce | utils/proxyManager.js:25-35 | `??` yields the value or the default; a non-nullish value is kept; the result is nullish only when both are |
| JsValues.Or | index.js:72 | `\|\|` yields the value or the default; a truthy value is kept; the result is truthy exactly when one of the two is |
| JsValues.ParseInt | utils/configManager.js:46-52 | `parseInt` reads a negative number only from text with a leading minus, and a positive one only from text without |
| JsValues.StringToNumber | utils/proxyManager.js:104 | `Number` of blank text is 0 |
| JsValues.ParseIntOfDecimal | utils/configManager.js:46-52 | `parseInt`, with radix 10 or none, reads back what `String(n)` writes, for every integer, also when non-digit text follows |
| JsValues.StringToNumberOfDecimal | utils/proxyManager.js:104 | `Number(String(n)) == n` for every integer `n` |
| JsValues.DigitsLiteral | utils/proxyManager.js:252 | `Number` of a run of decimal digits, leading zeros included, is the number they denote |
| JsValues.ParseIntRadixTen | utils/configManager.js:46-56 | radix 10 is defined whenever the omitted radix is; the two agree except after a `0x` prefix, where radix 10 reads 0 |
| JsValues.HexTextParses | utils/configManager.js:46-52 | `"0x1F"` reads as 31 with no radix and as 0 with radix 10 |
| HeaderMap.Find | utils/proxyManager.js:193-194 | the position of the first field with a name: no earlier field has it, and `None` means no field has it |
| HeaderMap.Lookup | utils/proxyManager.js:193-194 | a name reads as a value held by a field of that name, and as absent only when no field has it |
| HeaderMap.Remove | utils/proxyManager.js:193-194 | `delete` removes exactly the fields with that name, and the name then reads as absent; without the name the headers are unchanged, and with distinct names the result is the headers with that one position cut out, the rest in order |
| HeaderMap.RemoveAppend | utils/proxyManager.js:193-194 | `delete` keeps the order of what remains: removing from a concatenation removes from each part |
| HeaderMap.LookupAfterRemove | utils/proxyManager.js:193-194 | deleting one name leaves the reading of every other name unchanged |
| HeaderMap.Put | index.js:204-207 | an assignment keeps every field's name and position, changes no other field, and appends a new name at the end |
| HeaderMap.PutThenLookup | index.js:204-207 | after assigning, the name reads as the new value, every other name reads as before, and distinct names stay distinct |
| HeaderMap.StripProxyHeaders | utils/proxyManager.js:192-194 | stripping keeps exactly the fields that are not `proxy-connection` or `proxy-authorization`; headers without either pass unchanged |
| HeaderMap.StripKeepsOrder | utils/proxyManager.js:192-194 | stripping is the in-order filter: it acts on each part of a concatenation separately and drops a single field exactly when it is a proxy header, which fixes the order of the field lines in the SOCKS head |
| HeaderMap.StripReadsLikeOriginal | utils/proxyManager.js:192-194 | after stripping, the two proxy headers read as absent and every other name reads as before |
| HeaderMap.RemovePutCommute | index.js:204-212 | deleting one name and assigning another commute, field order included |
| HeaderMap.StripPutCommute | index.js:204-212 | setting `host` before or after stripping gives the same headers, field order included |
| HeaderMap.ParseFieldLine | index.js:299-303 | a line holds a field exactly when it holds a colon; the field is the trimmed text before and after the first colon |
| HeaderMap.SerializeRequest | utils/proxyManager.js:237-239 | the SOCKS head is the request line and the field lines joined by CRLF, followed by an empty line |
| HeaderMap.SerializeRoundTrip | utils/proxyManager.js:237-239 | reading a written request head back gives the verb, the target and every field, in order |
| HeaderMap.FieldLineRoundTrip | index.js:299-303 | the field-line grammar reads a well-formed field's line back as that field |
| HeaderMap.FieldsFrom | index.js:298-304 | the header object built from the lines has distinct names and no more fields than there are lines |
| HeaderMap.FieldsFromLines | index.js:298-304 | folding the lines of distinct, well-formed fields into an object rebuilds those fields in order |
| HeaderMap.FieldsFromSnoc | index.js:298-304 | reading one more field line is assigning that field into the object |
| Timeouts.GetTimeouts | utils/proxyManager.js:17-43 | each field is the configured value unless it is `null`/`undefined`, in which case it is its default; an absent section counts as all absent; no field of the result is nullish |
| Timeouts.DefaultsWithoutConfig | utils/proxyManager.js:15-43 | without a `timeouts` section: request and socket timeouts 0, headers and keep-alive 86 400 000 ms, idle 0, keep-alive on after 60 000 ms, handshake 86 400 000 ms |
| Timeouts.ExplicitPolicyKept | utils/proxyManager.js:17-43 | a fully stated policy is taken over unchanged |
| Timeouts.ResolveIdempotent | utils/proxyManager.js:17-43 | resolving a resolved policy again changes nothing |
| Timeouts.ExplicitFalsyKept | utils/proxyManager.js:25-35 | a configured `0` or `false` is kept by the nullish default, where a logical-or default would have replaced it |
| Timeouts.TuneSocket | utils/proxyManager.js:45-49 | keep-alive is switched on exactly when the resolved setting is truthy; without configuration: idle 0, keep-alive on, 60 000 ms delay |
| ProxyAuth.AuthenticateAsWritten | utils/proxyManager.js:54-69 | the gate as written throws exactly on the bare header value `Basic`, and grants only the listener itself, only for a `Basic ` value |
| ProxyAuth.Authenticate | utils/proxyManager.js:54-69 | the corrected gate of both variants, which refuses the bare value `Basic` where the code throws: only a `Basic ` value is admitted; a listener without both credentials admits every such client; one with credentials admits exactly the payloads carrying them; the profile is the listener |
| ProxyAuth.CredentialsMatch | utils/proxyManager.js:63-66 | a payload that passes the check implies the listener's user name is a colon-free string and its password is absent or a colon-free string |
| ProxyAuth.BasicShape | utils/proxyManager.js:58-59 | the scheme is `Basic` with a payload exactly when the value starts with `Basic `; the payload is then the next space-free token; `Basic` without a payload is exactly the bare word |
| ProxyAuth.CredentialsMatchIff | utils/proxyManager.js:61-66 | with colon-free credentials, the check accepts exactly `user:password` and `user:password:…` |
| ProxyAuth.ColonCredentialsNeverMatch | utils/proxyManager.js:61-66 | a configured user name or password containing a colon never matches |
| ProxyAuth.AsWrittenAgreesElsewhere | utils/proxyManager.js:55-62 | the as-written and corrected gates agree on every value except the bare word `Basic`, where the first throws and the second refuses |
| ProxyAuth.BareBasicCrashes | utils/proxyManager.js:58-62 | `Proxy-Authorization: Basic` makes the as-written gate throw, even on a listener without credentials |
| ProxyAuth.ManagerConnectDenial | utils/proxyManager.js:86-98 | the raw refusal a `CONNECT` client gets carries the same status, the same fields in the same order and the same body as the refusal a plain request gets |
| ProxyAuth.ManagerRequestDenial | utils/proxyManager.js:165-177 | a refused request gets 200 with body `{}` when `maskProxyAuth` is truthy, else 407 with the `Basic realm="Proxy"` challenge; `Connection: close` either way |
| Tunnel.ManagerTarget | utils/proxyManager.js:103-104 | the host is a colon-free prefix of the target; a target without a colon is all host, on port 443 |
| Tunnel.IndexTarget | index.js:71-72 | the single-file variant always dials a non-zero port |
| Tunnel.TargetWithoutColon | utils/proxyManager.js:103-104 | a target without a colon is all host, and both variants dial 443 |
| Tunnel.UndefinedIsNaN | index.js:71-72 | `parseInt(undefined, 10)` is NaN, so a missing port falls back to 443 |
| Tunnel.TargetWithColon | utils/proxyManager.js:103-104 | the host is the text before the first colon; the port is read from the text up to the second colon, with `Number` in one variant and `parseInt(…, 10)` with 443 for NaN or 0 in the other |
| Tunnel.TargetsAgreeOnDecimalPort | index.js:71-72 | on `host:n` with `n` a non-zero decimal, both variants dial `(host, n)` |
| Tunnel.TargetsDisagreeOnEmptyPort | utils/proxyManager.js:103-104 | on `host:` the proxy engine dials port 0 and the single-file variant dials 443 |
| Tunnel.SocksRequestFor | utils/proxyManager.js:131-142 | the gateway is the listener's `SOCKS_HOST`/`SOCKS_PORT`; each SOCKS credential is passed only when truthy; the destination is the target |
| Tunnel.RouteFor | utils/proxyManager.js:112-142 | the route is direct exactly when `SOCKS_HOST` is falsy |
| Tunnel.ManagerConnect | utils/proxyManager.js:78-159 | on the corrected gate: a refused client gets the refusal text and no route; a direct route whose port Node refuses throws with nothing written; an opened route is spliced after the 200 line and the early bytes; a failed direct route is destroyed silently; a failed SOCKS route gets 502 |
| Tunnel.IndexConnect | index.js:55-161 | on the corrected gate: always 407 on refusal; no handshake timeout; a direct port outside 0 to 65535 throws with nothing written; a failed route is ended, never destroyed |
| Tunnel.ManagerConnectAsWritten | utils/proxyManager.js:78-126 | as written: the handler throws, with nothing written, exactly on the bare value `Basic` (then with no route) or on a direct route whose port Node refuses; a route is chosen exactly when the throwing gate grants; every other client is handled as by `ManagerConnect` |
| Tunnel.IndexConnectAsWritten | index.js:55-112 | as written: the same throws, on the bare value `Basic` and on a direct port outside 0 to 65535; every other client is handled as by `IndexConnect` |
| Tunnel.DecimalTargets | index.js:71-72 | on `host:n` with any integer `n` other than 0, negative ones included, both variants read the port as `n` |
| Tunnel.OutOfRangeDirectPortThrows | utils/proxyManager.js:112-113 | a direct target with a decimal port below 0 or above 65535 (`h:-1`, `h:70000`) makes both variants throw with nothing written |
| Tunnel.NaNDirectPortThrows | utils/proxyManager.js:103-113 | a direct target whose port text `Number` reads as NaN makes the proxy engine throw with nothing written |
| Tunnel.LetterTextIsNaN | utils/proxyManager.js:104 | `Number("abc")` is NaN, so `h:abc` is such a target |
| Tunnel.MaskOnlyOnRefusal | utils/proxyManager.js:84-101 | `maskProxyAuth` changes only what a refused client sees |
| ResponseHead.ManagerStatus | utils/proxyManager.js:252 | the status read from the status line is never 0, because 0 and NaN fall back to 502 |
| ResponseHead.ManagerHead | utils/proxyManager.js:250-257 | the proxy engine's head reader never fails and never yields status 0 |
| ResponseHead.ManagerFieldLine | utils/proxyManager.js:255-256 | the field name never holds a colon; a line without a colon becomes its own trimmed text with an empty value |
| ResponseHead.ManagerFields | utils/proxyManager.js:253-257 | the header object has distinct names and no more fields than there are lines |
| ResponseHead.StatusCode | index.js:285 | a status line that matches starts with `HTTP/1.0 ` or `HTTP/1.1 ` and is at least 11 characters long |
| ResponseHead.IndexHead | index.js:281-304 | a head is accepted exactly when its status line matches; the headers are the fields of the later lines that hold a colon |
| ResponseHead.StatusCodeOfLine | index.js:285-294 | every line `HTTP/1.x SP digits SP reason` matches, and the code is the number its digits denote |
| ResponseHead.StatusCodeShape | index.js:285 | a matching status line has exactly that form |
| ResponseHead.ManagerReadsMatchedStatus | utils/proxyManager.js:252 | on a status line the single-file variant accepts with a non-zero code, the proxy engine reads the same code |
| ResponseHead.StatusReadersAgree | index.js:285-294 | both readers take the code from a well-formed status line, except that the proxy engine turns 0 into 502 |
| ResponseHead.FieldGrammarsAgree | utils/proxyManager.js:254-257 | the two field grammars agree on lines with a colon; a line without one is skipped by one variant and becomes an empty-valued field in the other |
| ResponseHead.FieldReadersAgree | utils/proxyManager.js:253-257 | when every header line has a colon, both variants build the same header object |
| ResponseHead.HeadReadersAgree | utils/proxyManager.js:250-257 | a head with a well-formed, non-zero status line and colon-bearing field lines reads the same under both readers |
| ResponseHead.StatusManagerOfDigits | utils/proxyManager.js:252 | the proxy engine reads the code of any non-zero digit group on a well-formed status line |
| ResponseStream.ManagerStep | utils/proxyManager.js:246-264 | one chunk: the head is taken exactly when it was already taken or the chunk holds CRLF CRLF; before that nothing is written; after it the chunk is written verbatim; on the head chunk, the head read from the bytes before CRLF CRLF and then the bytes after it |
| ResponseStream.ManagerRun | utils/proxyManager.js:245-265 | nothing is written until a head is taken; once one is, the first event is that head |
| ResponseStream.FirstHeadChunk | utils/proxyManager.js:246-249 | the first chunk that holds CRLF CRLF by itself; no earlier chunk holds it |
| ResponseStream.ManagerRunMatches | utils/proxyManager.js:245-265 | the proxy engine's reader emits nothing before the first chunk that holds a whole head; then that head, the rest of that chunk, and every later chunk verbatim |
| ResponseStream.ManagerAfterHead | utils/proxyManager.js:262-264 | once a head has been seen, each further chunk is written verbatim |
| ResponseStream.AccStep | index.js:275-320 | one chunk: after the head, the chunk is written verbatim; without a head, the buffer grows by the chunk and at most an abort is written; the step that finds the head empties the buffer and writes the head first |
| ResponseStream.AccRun | index.js:271-320 | while no head is taken, the buffer holds every byte received and only aborts are written |
| ResponseStream.ReferenceGrows | index.js:275-319 | more bytes never undo a decision: an abort stays an abort and an answer only gains body bytes |
| ResponseStream.AccStepKeeps | index.js:275-320 | one more chunk keeps the accumulating reader in step with a reading of all bytes received so far |
| ResponseStream.AccStepAborted | index.js:286-292 | a rejected status line stays rejected: every later chunk aborts again |
| ResponseStream.AccRunInv | index.js:275-320 | after any chunk list, the reader's state and output match a reading of the bytes received so far |
| ResponseStream.AccRunObserved | index.js:275-320 | whatever the chunking, the client sees what reading the whole byte stream at once gives: the head once, then every byte after CRLF CRLF |
| ResponseStream.ChunkingIrrelevant | index.js:275-320 | two chunkings of the same bytes look the same to the client |
| ResponseStream.BytewiseObserved | index.js:275-320 | delivering one byte per chunk looks the same as delivering everything at once |
| ResponseStream.IndexRun | index.js:271-320 | the single-file variant shows the whole-stream reading for every chunking |
| ResponseStream.ManagerCorrectedInvariant | utils/proxyManager.js:245-265 | the corrected proxy-engine reader shows the whole-stream reading for every chunking, and always answers once the bytes hold CRLF CRLF |
| ResponseStream.ManagerDropsSplitHead | utils/proxyManager.js:245-265 | a head split as `status CRLF` + `CRLF body` makes the as-written reader emit nothing, while the corrected reader answers with the head and the body |
| ResponseStream.ManagerAgreesOnWholeHead | utils/proxyManager.js:245-265 | when the first chunk holds the whole head, the as-written and corrected readers show the same |
| ResponseStream.ManagerSeesWholeHead | utils/proxyManager.js:246-264 | with the head in the first chunk, the client gets that head and every byte after it |
| ForwardRelay.DirectPort | utils/proxyManager.js:200 | the direct port is the URL's port text, or 80 when the URL names none |
| ForwardRelay.ManagerRequest | utils/proxyManager.js:161-240 | on the corrected gate: refusal and invalid URL are answered before any upstream; the route is direct exactly when `SOCKS_HOST` is falsy; the direct path sets `host` to the URL's host; the SOCKS path writes the stripped headers unchanged and dials `Number(port)`, or 80 for NaN or 0, with the handshake timeout |
| ForwardRelay.IndexRequest | index.js:164-265 | on the corrected gate; headers on both paths are the client's with `host` from the URL, proxy headers removed; SOCKS port `parseInt(port, 10)`, or 80 for NaN or 0, and no timeout |
| ForwardRelay.ManagerRequestAsWritten | utils/proxyManager.js:161-178 | as written: the request is left unanswered exactly on the bare value `Basic`; it is relayed only when the throwing gate grants and the URL parses; every other request is handled as by `ManagerRequest` |
| ForwardRelay.IndexRequestAsWritten | index.js:164-177 | as written: the same, with `IndexRequest` |
| ForwardRelay.ManagerBareBasicUnanswered | utils/proxyManager.js:84-101 | with `Proxy-Authorization: Basic`, both proxy-engine handlers as written give no reply, while the corrected ones send the refusal |
| ForwardRelay.IndexBareBasicUnanswered | index.js:59-69 | with `Proxy-Authorization: Basic`, both single-file handlers as written give no reply, while the corrected ones send the 407 challenge |
| ForwardRelay.DirectHeaders | utils/proxyManager.js:192-203 | both variants send the same direct headers: `host` is the URL's host, the proxy headers are gone, every other name reads as the client sent it |
| ForwardRelay.SocksHeadHost | utils/proxyManager.js:236-240 | the proxy engine's SOCKS head reads back as the verb, the path and the stripped client headers, with the client's own `host`; the single-file variant's carries the URL's host |
| ForwardRelay.SocksPorts | utils/proxyManager.js:220 | both variants dial an explicit non-zero decimal port as given, and 80 when the URL names none |
| ForwardRelay.ManagerFailure | utils/proxyManager.js:268-278 | 500 for a failed direct request, 502 for a failed SOCKS connection, and for a later SOCKS socket error a 502 head only when none was sent |
| ForwardRelay.IndexFailure | index.js:223-328 | 500 for a failed direct request and the same 502 reply for every SOCKS failure |
| ForwardRelay.FailureStatusesAgree | utils/proxyManager.js:268-278 | wherever the proxy engine writes a head on failure, it writes the same head as the single-file variant |
| Registry.Stop | utils/proxyManager.js:335-347 | stopping closes every running server, leaves none and returns true |
| Registry.StopIdempotent | utils/proxyManager.js:335-347 | stopping twice closes nothing the second time |
| Registry.Opened | utils/proxyManager.js:303-325 | the listeners opened are exactly those before the first whose `listen` throws |
| Registry.Start | utils/proxyManager.js:288-333 | every running server is closed first; success exactly when configuration, TLS files, context and every `listen` go right; then one server per listener in order; a `listen` that throws leaves the earlier ones running |
| Registry.StartForgetsRunning | utils/proxyManager.js:288-291 | what runs after a start does not depend on what ran before |
| Registry.ReloadServesConfig | utils/proxyManager.js:349-352 | after a successful reload a port is served exactly when a configured listener names it |
| Registry.EmptyListStarts | utils/proxyManager.js:297-328 | an empty listener list starts successfully with nothing running, even with an invalid key or certificate |
| ConfigManager.ToInt | utils/configManager.js:52-56 | a value that passes the check reads as a number with radix 10 too |
| ConfigManager.ValidateListener | utils/configManager.js:44-60 | fails exactly when the port is falsy or unreadable; the port becomes its radix-10 reading; `SOCKS_PORT` is converted only when it reads as a number; nothing else changes |
| ConfigManager.NumericPortKept | utils/configManager.js:44-60 | a numeric port other than 0 passes and is kept as it is |
| ConfigManager.HexPortBecomesZero | utils/configManager.js:46-52 | the port text `"0x1F"` passes but is stored as 0, which a second validation rejects |
| ConfigManager.ValidateAgain | utils/configManager.js:44-60 | validation is idempotent whenever the stored port is not 0 |
| ConfigApi.PathPort | api/config.js:36-39 | the path port is refused with 400 exactly when `parseInt(…, 10)` is NaN |
| ConfigApi.FindPort | api/config.js:106 | `findIndex`: the first listener with the port, none earlier, and `None` exactly when no listener has it |
| ConfigApi.ListListeners | api/config.js:24-31 | the list, or `[]` when there is none |
| ConfigApi.GetListener | api/config.js:34-52 | 400 on a NaN port; 404 exactly when no listener has the port; otherwise the first listener with it |
| ConfigApi.AddListener | api/config.js:55-87 | 400 on a failed check; 400 exactly when the validated port is taken; otherwise 201, with the validated listener appended |
| ConfigApi.Merge | api/config.js:119 | the object spread: a field present in the update wins, an absent one keeps the old value |
| ConfigApi.UpdateListener | api/config.js:90-134 | errors in the source's order (path port, check, lookup, taken port); on success only the found entry changes, to the merge of old and new |
| ConfigApi.DeleteListener | api/config.js:137-167 | 404 exactly when no listener has the port; otherwise the first such listener is removed, the rest keep their order, and the removed one is shown |
| ConfigApi.AddKeepsPortsDistinct | api/config.js:66-72 | adding keeps listener ports distinct |
| ConfigApi.UpdateKeepsPortsDistinct | api/config.js:112-119 | updating keeps listener ports distinct |
| ConfigApi.ReplaceKeepsDistinct | api/config.js:113-119 | replacing an entry by one with its own port or a port nobody holds keeps ports distinct |
| ConfigApi.DeleteKeepsPortsDistinct | api/config.js:145-152 | deleting keeps ports distinct, and the deleted port is then absent |
| ConfigApi.RemoveKeepsDistinct | api/config.js:152 | removing one entry keeps ports distinct and drops its port |
| ConfigApi.AddThenGet | api/config.js:34-87 | a listener just added is what reading its port returns |
| ConfigApi.FindAppended | api/config.js:67-72 | a port nobody held is found at the appended entry |
| ConfigApi.DeleteThenGet | api/config.js:137-152 | with distinct ports, a deleted port then reads as not found |
| ConfigApi.ReloadReply | api/config.js:170-183 | 200 exactly when the reload reports success, else 500 with its message |
| ConfigApi.ReloadRouteReflectsRegistry | api/config.js:170-183 | the reload route answers 200 exactly when every configured listener is served afterwards |
| ConfigApi.Redacted | api/config.js:9-21 | the configuration is shown unchanged except that the admin account is cut down to its user name |
| ConfigApi.RedactionHidesPassword | api/config.js:12-16 | no admin password survives redaction, and redacting twice changes nothing |
| ConfigApi.DomainReply | api/config.js:186-195 | 200 with the certificate domain exactly when there is a non-empty one, else 500 with the route's message |
| CertUtils.NameRun | utils/certUtils.js:19 | the longest prefix free of `,` and `/` |
| CertUtils.FirstCn | utils/certUtils.js:19 | the leftmost position where `CN=` is followed by a name character |
| CertUtils.CommonName | utils/certUtils.js:19-20 | no common name exactly when the pattern matches nowhere; a found name is non-empty, free of `,` and `/`, is the text right after the first matching `CN=`, and runs up to the end or to a `,` or `/` |
| CertUtils.TlsDomain | utils/certUtils.js:7-25 | unreadable certificate: none; a non-empty SAN: its first entry, trimmed and untagged; otherwise the common name |
| CertUtils.FirstSanEntry | utils/certUtils.js:13-16 | later SAN entries never matter; the first entry loses only its `DNS:` tag |
| CertUtils.SanDomain | utils/certUtils.js:15-16 | the SAN domain never contains a comma |
| CertUtils.DnsEntry | utils/certUtils.js:15-16 | a tagged DNS name comes out untagged |
| CertUtils.LeadingCommonName | utils/certUtils.js:19-20 | without a SAN, a subject starting `CN=name` yields the name up to the next `,` or `/` |
| CertUtils.CommonNameAfter | utils/certUtils.js:19-20 | without a SAN, a subject `prefix CN=name rest`, where `prefix` holds no `CN=`, `name` is a run of name characters and `rest` is empty or starts with `,` or `/`, yields exactly `name` |

## Left out

- Sockets, piping, `pipeErrors` and the effect of `setTimeout`/`setKeepAlive`
  are not modelled. `Timeouts.TuneSocket` states only the values applied.
- The SOCKS5 handshake is a parameter (`connects`), and so is whether a
  direct connection to a port Node accepts opens. The SOCKS library's own
  checks of its options reject its promise, which leads to the `502`, so
  they are part of `connects`.
- Base64 decoding and UTF-8 text conversion are parameters: `decode` for
  the credential gate, and `text` for the response head via
  `ResponseStream.ManagerRead`.
- `ResponseStream.ManagerRun`: the reader takes its head reader as a
  parameter (`read`). `ManagerRead(text)` is the proxy engine's instance.
  The properties hold for every head reader.
- WHATWG URL parsing and X.509 parsing are not modelled. Their results are
  inputs (`Option<Url>`, `Option<Certificate>`).
- `readConfig`/`writeConfig` and the file system are not modelled. The
  routes take the parsed configuration, and return the new listener list.
  `writeConfig` and the `reloadSuccess` flag of the CRUD replies are not
  modelled.
- `isDomainAllowed` always returns true in both variants. Its `403` branch
  cannot be reached and is left out.
- Floating-point numbers are not modelled. `Number` and `parseInt` are
  modelled on integer text only: a fraction, an exponent or `Infinity`
  reads as NaN, not as a float.
- JavaScript's object key order puts integer-like keys first. It is left
  out, and so are `__proto__` keys and extra keys of a JSON body: headers
  and listeners keep insertion order.
- A `writeHead` that throws because headers were already sent is not
  modelled, and neither are repeated 502 aborts after an invalid status
  line. Each aborting chunk emits `Abort502` again.
- ResponseHead.ManagerHead, ResponseHead.IndexHead, ResponseStream.ManagerRun
  and ResponseStream.AccRun: Node's `writeHead` throws on a status outside
  100-999 and on a header name that is empty or not an HTTP token. Inside
  the `'data'` handler that throw is not caught. The model writes the head
  anyway: `"HTTP/1.1 0 OK"` reads as status 0, `"HTTP/1.1 -5 X"` as -5 in
  the proxy engine, and the lines `"a b"` and `":x"` as fields named
  `a b` and the empty name.
- Errors from `listen` that arrive asynchronously (port in use) are not
  modelled. Only a synchronous throw stops `start`.
- The message of a runtime `TypeError` in the routes is not modelled.
  Such errors appear as `InternalError(None)`.
- The config watcher, `server.js` bootstrapping, the auth routes and
  middleware, and the web UI are not part of this model. `index.js`
  building its servers at load time is not modelled either.
- `Registry.Reload` is `Start` and has no contract of its own.

## Findings

| source | as written | input that shows it | evidently intended | confidence | as-written member | corrected member |
|---|---|---|---|---|---|---|
| utils/proxyManager.js:58-62 | `authValue` is `undefined` when the header is the bare word `Basic`, and `Buffer.from(undefined, 'base64')` throws inside an async handler nobody awaits; with no `unhandledRejection` listener, Node 15 and later then end the whole process | header `Proxy-Authorization: Basic` on any listener | refuse the client like any other malformed credential | not executed | ForwardRelay.ManagerBareBasicUnanswered | Tunnel.ManagerConnect |
| index.js:24-27 | the same split and `Buffer.from(undefined, 'base64')` in the single-file variant's gate, with the same unhandled rejection ending the process | header `Proxy-Authorization: Basic` on any listener | answer with the 407 challenge | not executed | ForwardRelay.IndexBareBasicUnanswered | Tunnel.IndexConnect |
| utils/proxyManager.js:245-265 | each chunk is searched for CRLF CRLF on its own, and a chunk before the head is complete is dropped | response delivered as the chunks `"HTTP/1.1 200 OK\r\n"` and `"\r\nbody"` | accumulate until CRLF CRLF, as `index.js:275-320` does, so chunking does not matter | not executed | ResponseStream.ManagerDropsSplitHead | ResponseStream.ManagerCorrectedInvariant |
