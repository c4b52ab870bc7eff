# mstdlib core: SMTP EHLO negotiation, SMTP endpoints, HTTP headers, simple HTTP reader, Bluetooth enumeration

A Dafny model of five pieces of mstdlib, the C support library:

- **SMTP EHLO flow** (`smtp_ehlo.dfy`, module `SmtpEhlo`).
  - The EHLO state writes `EHLO <domain>\r\n` into the slot's output buffer.
  - The post-hook reads the reply the SMTP-response sub-machine collected. A failed sub-machine or a reply code other than 250 is an error; a code other than 250 also marks the endpoint as a connect failure with a bounded diagnostic.
  - On 250 the post-hook records whether STARTTLS is offered and picks an authentication mechanism from the `AUTH ` lines.
  - The per-session slot is a class. The mechanism choice for one line is specified by a pure maximum-preference function.
- **SMTP endpoint** (`smtp_endpoint.dfy`, module `SmtpEndpoint`).
  - An endpoint is a TCP server or a local process. It has a session capacity and two session lists, sending and idle.
  - Availability is computed in 64-bit unsigned arithmetic. Idleness looks only at the sending list.
  - Destruction drains both lists from their tails, destroying each session exactly once, and releases the configuration of the endpoint's own kind.
- **HTTP header storage** (`http_headers.dfy`, module `HttpHeaders`).
  - Replacing or merging a case-insensitive multi-value header dictionary.
  - Merging keeps the current values first and the new ones after, drops duplicates compared without case, and keeps the first occurrence.
  - Reading a header joins its values with `", "`.
- **Simple HTTP reader** (`http_simple_reader.dfy`, module `HttpSimpleReader`).
  - The callbacks that fill one message object from the streaming reader's events.
  - The body decoding applied to a complete message.
  - `M_http_simple_read`: its mapping of results to `MOREDATA` or errors, the reset of `len_read`, and the cleanup of `*simple`.
  - The parser wrapper, and the null-guarded accessors.
- **Bluetooth device enumeration** (`bluetooth_enum.dfy`, module `BluetoothEnum`).
  - A list of device records. `add` validates its arguments before appending.
  - The lookups are bounds-checked.

`strings.dfy` (module `Strings`) holds the library string helpers these rely on:
- ASCII case-insensitive comparison, full and bounded (`M_str_caseeq`, `M_str_caseeq_max`)
- splitting on a delimiter (`M_str_explode`) and joining
- `%llu`/`%zu` formatting, and `M_snprintf` truncation

Code outside the modelled files becomes explicit inputs:
- The SMTP-response sub-machine's outcome is a `ResponseReply`.
- The streaming HTTP reader, URI parsing, integer parsing, Content-Type analysis and the text codecs are the total functions of an `Env`.
- A streaming-reader run is the sequence of callback events it delivers, its own verdict when every callback succeeds, and the byte count it reports.

`determine_auth_method` resets the choice to none at the start of every `AUTH ` line (`net/smtp/m_flow_tcp_ehlo.c:48`). So the last `AUTH ` line alone decides (`LastAuthLineDecides`): `["AUTH CRAM-MD5", "AUTH LOGIN"]` yields LOGIN (`NoUpgradeAcrossLines`).

## Model

| member | source | states |
|---|---|---|
| Strings.CaseEqMaxIsPrefix | net/smtp/m_flow_tcp_ehlo.c:112-116 | comparing a line against a literal over the literal's length matches exactly the lines that start with the literal ignoring case; shorter lines never match |
| Strings.ToLower | net/smtp/m_flow_tcp_ehlo.c:53 | case folding moves only the ASCII capitals A-Z, each to its small letter |
| Strings.Lower | net/smtp/m_flow_tcp_ehlo.c:53 | a folded string has the same length and each character folded |
| Strings.LowerIdempotent | formats/http/m_http_int.c:77 | folding a folded key again changes nothing, so a key the case-insensitive dictionary stores under its folded form is found again under that form |
| Strings.CaseEq | net/smtp/m_flow_tcp_ehlo.c:53 | the reference definition of equality ignoring ASCII case: the folded strings are equal |
| Strings.CaseEqMax | net/smtp/m_flow_tcp_ehlo.c:112-116 | the reference definition of the bounded comparison: the first n characters of each string, or the whole string when shorter, are equal after folding (characterised by `CaseEqMaxIsPrefix`) |
| Strings.Split | net/smtp/m_flow_tcp_ehlo.c:50 | exploding gives at least one field and no field contains the delimiter |
| Strings.SplitFree | net/smtp/m_flow_tcp_ehlo.c:50 | a string without the delimiter explodes into itself alone |
| Strings.SplitAfterField | net/smtp/m_flow_tcp_ehlo.c:50 | a leading field followed by the delimiter becomes the first field, the rest explodes on its own |
| Strings.JoinSplit | net/smtp/m_flow_tcp_ehlo.c:50 | joining the fields of an explode with the delimiter restores the string |
| Strings.Join | formats/http/m_http_int.c:105 | a single part joins to itself |
| Strings.DecimalString | formats/http/m_http_simple_reader.c:230 | `%zu` text is non-empty, all digits, without a leading zero |
| Strings.SplitJoin | net/smtp/m_flow_tcp_ehlo.c:50 | exploding a join of delimiter-free parts on the delimiter gives the parts back |
| Strings.DecimalRoundTrip | net/smtp/m_flow_tcp_ehlo.c:103-104 | the `%llu` text of a number reads back as that number |
| Strings.Truncated | net/smtp/m_flow_tcp_ehlo.c:103 | a bounded snprintf keeps fewer characters than the buffer size, a prefix of the text, all of it when it fits |
| SmtpEhlo.EhloCommand | net/smtp/m_flow_tcp_ehlo.c:35 | the command is `EHLO `, the domain, then CRLF |
| SmtpEhlo.Slot.EhloState | net/smtp/m_flow_tcp_ehlo.c:31-38 | appends exactly `EHLO <domain>\r\n` to the output buffer, moves to the response state, returns NEXT |
| SmtpEhlo.UnexpectedCodeMessageBounded | net/smtp/m_flow_tcp_ehlo.c:103-104 | the diagnostic is shorter than the error buffer, and when it fits it ends with the decimal reply code, which reads back as the code |
| SmtpEhlo.SelectAuth | net/smtp/m_flow_tcp_ehlo.c:46-83 | the chosen mechanism is none or advertised on the line, and no token names a more preferred one |
| SmtpEhlo.AdvertisedSnoc | net/smtp/m_flow_tcp_ehlo.c:51-83 | a mechanism is on a line with one more token iff it was on the line before or is that token |
| SmtpEhlo.AdvertisedPermuted | net/smtp/m_flow_tcp_ehlo.c:51-83 | whether a mechanism is on a line does not depend on the order of the tokens |
| SmtpEhlo.SelectAuthSnoc | net/smtp/m_flow_tcp_ehlo.c:51-83 | one more token keeps the better of the current choice and that token; a later token of lower or equal preference never downgrades |
| SmtpEhlo.SelectAuthOrderIndependent | net/smtp/m_flow_tcp_ehlo.c:46-83 | two lines with the same tokens in any order choose the same mechanism |
| SmtpEhlo.SelectAuthIgnoresUnknown | net/smtp/m_flow_tcp_ehlo.c:51-83 | an unknown or empty token anywhere on the line does not change the choice |
| SmtpEhlo.DigestAnywhereWins | net/smtp/m_flow_tcp_ehlo.c:53-56 | a DIGEST-MD5 token in any position, in any case, selects DIGEST-MD5 |
| SmtpEhlo.AuthArgs | net/smtp/m_flow_tcp_ehlo.c:116-118 | an AUTH line is at least 5 characters and the mechanisms are what follows `AUTH ` |
| SmtpEhlo.StarttlsLineIsPrefix | net/smtp/m_flow_tcp_ehlo.c:112 | a STARTTLS line is one whose first 8 characters are STARTTLS in any case: `STARTTLSFOO` counts, shorter lines never |
| SmtpEhlo.AuthEqualsLineIgnored | net/smtp/m_flow_tcp_ehlo.c:116-117 | an `AUTH=` line is never an AUTH line |
| SmtpEhlo.StarttlsLineIsNotAuthLine | net/smtp/m_flow_tcp_ehlo.c:112-120 | a line matched as STARTTLS is never also examined as an AUTH line |
| SmtpEhlo.StarttlsAdvertisedSnoc | net/smtp/m_flow_tcp_ehlo.c:110-115 | the STARTTLS flag after one more line is the flag so far or that line's match |
| SmtpEhlo.NegotiatedAuthSnoc | net/smtp/m_flow_tcp_ehlo.c:109-121 | one more AUTH line replaces the choice so far; any other line keeps it |
| SmtpEhlo.NegotiatedAuth | net/smtp/m_flow_tcp_ehlo.c:108-121 | the reference definition of the negotiated mechanism: none before any line, and each line handed to the selection as an AUTH line replaces the choice (characterised by `NegotiatedAuthSnoc`, `NoAuthLineNoAuth`, `LastAuthLineDecides` and `NegotiatedAuthFromLine`) |
| SmtpEhlo.NegotiatedAuthFromLine | net/smtp/m_flow_tcp_ehlo.c:108-121 | the mechanism the reply negotiates is none or the choice of one of its lines handed to the selection as an AUTH line |
| SmtpEhlo.StarttlsAdvertised | net/smtp/m_flow_tcp_ehlo.c:108-115 | the reference definition of the STARTTLS flag: some line of the reply is a STARTTLS line |
| SmtpEhlo.IsStarttlsLine | net/smtp/m_flow_tcp_ehlo.c:112 | the bounded case-insensitive comparison against `STARTTLS` over 8 characters (characterised by `StarttlsLineIsPrefix`) |
| SmtpEhlo.IsAuthLine | net/smtp/m_flow_tcp_ehlo.c:116 | the bounded case-insensitive comparison against `AUTH ` over 5 characters, space included (characterised by `AuthArgs` and `AuthEqualsLineIgnored`) |
| SmtpEhlo.UnexpectedCodeMessage | net/smtp/m_flow_tcp_ehlo.c:103-104 | the diagnostic is the fixed text followed only by digits, and those digits read back as the reply code |
| SmtpEhlo.Slot.ScanReply | net/smtp/m_flow_tcp_ehlo.c:108-121 | after the loop over the reply lines the STARTTLS flag is set iff some line is a STARTTLS line and the mechanism is the one the reply negotiates |
| SmtpEhlo.NoAuthLineNoAuth | net/smtp/m_flow_tcp_ehlo.c:108-121 | a reply without AUTH lines leaves no mechanism |
| SmtpEhlo.LastAuthLineDecides | net/smtp/m_flow_tcp_ehlo.c:116-120 | the mechanism is the one the last AUTH line selects; earlier lines are forgotten |
| SmtpEhlo.NoUpgradeAcrossLines | net/smtp/m_flow_tcp_ehlo.c:48-50 | `AUTH CRAM-MD5` followed by `AUTH LOGIN` yields LOGIN |
| SmtpEhlo.LoginToken | net/smtp/m_flow_tcp_ehlo.c:79-80 | the token LOGIN names LOGIN |
| SmtpEhlo.LoginOnlySelectsLogin | net/smtp/m_flow_tcp_ehlo.c:50-83 | a line of arguments holding only LOGIN selects LOGIN |
| SmtpEhlo.LoginLine | net/smtp/m_flow_tcp_ehlo.c:112-120 | `AUTH LOGIN` is handed to the selection as an AUTH line and selects LOGIN |
| SmtpEhlo.Slot.DetermineAuthMethod | net/smtp/m_flow_tcp_ehlo.c:40-86 | the token loop with its break and continues leaves exactly the most preferred advertised mechanism of the line |
| SmtpEhlo.Slot.EhloResponsePost | net/smtp/m_flow_tcp_ehlo.c:88-126 | sub-machine error: ERROR_STATE and nothing changes; code other than 250: ERROR_STATE, connect failure, PROTOFORMAT, bounded diagnostic, flags untouched; 250: DONE, STARTTLS flag iff some line is a STARTTLS line, mechanism decided by the last AUTH line |
| SmtpEhlo.Slot.ScanLine | net/smtp/m_flow_tcp_ehlo.c:110-120 | one reply line: the STARTTLS flag becomes set iff the line is a STARTTLS line; an AUTH line replaces the mechanism with its own choice; other lines change nothing |
| SmtpEhlo.RunEhloFlow | net/smtp/m_flow_tcp_ehlo.c:128-142 | the EHLO state, then the response sub-machine, then the post-hook. A failed sub-machine: ERROR_STATE and the code, lines, failure flags, diagnostic, STARTTLS flag and mechanism all kept. Any reply is stored as the slot's code and lines. Code other than 250: ERROR_STATE, connect failure, PROTOFORMAT, the bounded diagnostic, STARTTLS flag and mechanism kept. 250: DONE, the STARTTLS flag iff some line is a STARTTLS line, the mechanism of the last AUTH line, failure flags and diagnostic kept |
| SmtpEndpoint.OwnedFields | net/smtp/m_net_smtp_endpoint.c:100-111 | the fields released are three distinct fields, exactly those of the endpoint's own kind |
| SmtpEndpoint.AvailableU64 | net/smtp/m_net_smtp_endpoint.c:26-29 | the unsigned difference of capacity and sending count is positive iff the two differ |
| SmtpEndpoint.AvailableWithinCapacity | net/smtp/m_net_smtp_endpoint.c:26-29 | within capacity, available iff fewer sessions are sending than the capacity |
| SmtpEndpoint.Reversed | net/smtp/m_net_smtp_endpoint.c:89-97 | the tail-first visit order has as many elements as the list |
| SmtpEndpoint.ReversedSuffixStep | net/smtp/m_net_smtp_endpoint.c:90-95 | taking one more session from the tail extends the visit order by exactly that session |
| SmtpEndpoint.ReversedMultiset | net/smtp/m_net_smtp_endpoint.c:89-97 | taking a list from its tail visits every element exactly as often as it occurs |
| SmtpEndpoint.Endpoint.IsAvailable | net/smtp/m_net_smtp_endpoint.c:26-29 | available iff the sending count differs from the capacity; idle sessions play no part |
| SmtpEndpoint.Endpoint.IsIdle | net/smtp/m_net_smtp_endpoint.c:31-34 | idle iff nothing is sending, whatever the idle list holds |
| SmtpEndpoint.Endpoint.CreateTcp | net/smtp/m_net_smtp_endpoint.c:37-61 | TCP type, capacity max_conns, empty lists, address, port, TLS flag, username and password copied; idle, and available iff max_conns is nonzero |
| SmtpEndpoint.Endpoint.CreateProc | net/smtp/m_net_smtp_endpoint.c:63-84 | PROCESS type, capacity max_processes, empty lists, command, args, env and timeout copied; idle, and available iff max_processes is nonzero |
| SmtpEndpoint.Endpoint.DrainSessions | net/smtp/m_net_smtp_endpoint.c:89-97 | the loop ends with both lists empty, having destroyed the sending list from its tail and then the idle list from its tail, each session exactly once |
| SmtpEndpoint.Endpoint.Destroy | net/smtp/m_net_smtp_endpoint.c:86-113 | drains both lists as above, then releases only the configuration fields of the endpoint's kind |
| HttpHeaders.SetInsert | formats/http/m_http_int.c:60-72 | inserting into a case-insensitive set list adds the value only when no equal value is present |
| HttpHeaders.Dedup | formats/http/m_http_int.c:60-72 | the reference definition of a case-insensitive set list filled in order: a value is kept exactly when no earlier value equals it ignoring case (its properties are the Dedup lemmas below) |
| HttpHeaders.MergedValues | formats/http/m_http_int.c:60-78 | the reference definition of a key's merged values: the current values, then the new ones, through one set list (its properties are `MergedValuesSpec` and the lemmas after it) |
| HttpHeaders.HasCaseEqSnoc | formats/http/m_http_int.c:60-72 | a value is in a list with one more element, ignoring case, iff it was before or equals that element |
| HttpHeaders.DedupSnoc | formats/http/m_http_int.c:60-72 | de-duplicating one more value is one more set-list insert |
| HttpHeaders.DedupCovers | formats/http/m_http_int.c:60-72 | de-duplication keeps every value present, ignoring case |
| HttpHeaders.DedupDistinct | formats/http/m_http_int.c:60-72 | after de-duplication no two values are equal ignoring case |
| HttpHeaders.DedupFromInput | formats/http/m_http_int.c:60-72 | every value kept is one of the inputs, unchanged |
| HttpHeaders.DedupOfDistinct | formats/http/m_http_int.c:60-72 | a list without case-duplicates is kept as it is |
| HttpHeaders.DedupPrefix | formats/http/m_http_int.c:60-72 | earlier values keep their places: the de-duplicated prefix starts the result |
| HttpHeaders.DedupAbsorbs | formats/http/m_http_int.c:60-72 | values already present add nothing |
| HttpHeaders.MergedValuesSpec | formats/http/m_http_int.c:57-78 | the merged values of a key are free of case-duplicates, hold every current and new value, only those, and start with the current values when those were distinct |
| HttpHeaders.MergedValuesIdempotent | formats/http/m_http_int.c:55-57 | merging the same new values a second time changes nothing |
| HttpHeaders.Merged | formats/http/m_http_int.c:55-83 | the merged dictionary has the current keys plus the keys given new values |
| HttpHeaders.MergedKeepsOthers | formats/http/m_http_int.c:55-57 | keys without new values keep their values |
| HttpHeaders.MergedIdempotent | formats/http/m_http_int.c:55-83 | merging the same headers twice equals merging them once |
| HttpHeaders.MergedValuesNonEmpty | formats/http/m_http_int.c:74-78 | a key given new values never ends up with none |
| HttpHeaders.MergedUpToStep | formats/http/m_http_int.c:55-80 | a key not yet visited still holds its current values, and merging it extends the set of merged keys by one |
| HttpHeaders.MergedUpToUpdated | formats/http/m_http_int.c:60-78 | storing the merged values of a newly visited key extends the merged part of the dictionary by that key |
| HttpHeaders.MergedUpToSkipped | formats/http/m_http_int.c:55-57 | visiting a key without new values extends the merged part without changing the dictionary |
| HttpHeaders.MergedUpToAll | formats/http/m_http_int.c:55-83 | once every key given new values is visited the dictionary is the merged one |
| HttpHeaders.MergedUpToNone | formats/http/m_http_int.c:54-55 | before the enumeration visits any key the dictionary is the current one, with nothing merged |
| HttpHeaders.MergedAnySpelling | formats/http/m_http_int.c:55-78 | reading the merged dictionary under any spelling of a key gives the merged values of that key when it had new values, and its current values otherwise |
| HttpHeaders.HeaderCell.Insert | formats/http/m_http_int.c:77 | a multi-value insert appends one value under the folded key, whatever spelling is given, and changes nothing else |
| HttpHeaders.HeaderCell.ReplaceValues | formats/http/m_http_int.c:74-78 | remove then re-insert leaves exactly the new list under the folded key, whatever spelling is given, and changes no other key |
| HttpHeaders.MergeValues | formats/http/m_http_int.c:60-72 | the two insert loops produce the merged values of the key |
| HttpHeaders.MergeKey | formats/http/m_http_int.c:57-80 | a key, in any spelling, with new values gets the merged values under its folded form; a key without keeps the dictionary unchanged |
| HttpHeaders.VisitKey | formats/http/m_http_int.c:55-57 | visiting a key, in any spelling, once per value, as the enumeration does, has the effect of one merge |
| HttpHeaders.MergeEnumeratedKey | formats/http/m_http_int.c:55-80 | visiting one more key of the new headers extends the merged part of the dictionary by that key |
| HttpHeaders.SetHeaders | formats/http/m_http_int.c:33-84 | merge with no new headers: unchanged; no merge: exactly the new headers, or an empty dictionary; merge: the merged dictionary |
| HttpHeaders.MergeAll | formats/http/m_http_int.c:54-83 | visiting every key of the new headers, in any order, leaves the merged dictionary |
| HttpHeaders.HeaderText | formats/http/m_http_int.c:86-107 | nothing when the key has no values, the single value when there is one, all values in stored order joined by `", "` otherwise |
| HttpHeaders.HeaderValue | formats/http/m_http_int.c:86-107 | the list-building loop and join give the header text |
| HttpHeaders.Spaced | formats/http/m_http_int.c:105 | each later value is seen behind the one space of the separator |
| HttpHeaders.JoinPrependFirst | formats/http/m_http_int.c:105 | a prefix of the first value stays the prefix of the joined text |
| HttpHeaders.JoinCommaSpace | formats/http/m_http_int.c:105 | joining with `", "` equals joining with `","` after putting a space before each later value |
| HttpHeaders.FreeConcat | formats/http/m_http_int.c:105 | two comma-free texts joined are comma-free |
| HttpHeaders.SpacedPartsFree | formats/http/m_http_int.c:105 | comma-free values stay comma-free behind the separator space |
| HttpHeaders.JoinedHeaderSplits | formats/http/m_http_int.c:99-106 | splitting a joined header on commas gives back the first value and the later ones behind one space |
| HttpSimpleReader.ContentLength | formats/http/m_http_simple_reader.c:78 | the first Content-Length value, empty when there is none |
| HttpSimpleReader.AppendHeader | formats/http/m_http_simple_reader.c:54-60 | the header gains the value at the end; other headers and the body are untouched |
| HttpSimpleReader.Step | formats/http/m_http_simple_reader.c:32-170 | every callback keeps the flags, never undoes completion and only appends to the body; a header appends its value; body and chunk data are appended; end of body, chunks or trailers completes the message; extensions and trailers fail iff their flag is set, changing nothing; start line, end of headers and body as the three functions below state |
| HttpSimpleReader.StartStep | formats/http/m_http_simple_reader.c:32-52 | type and version recorded; a request records its method and fails with URI error iff the URI is rejected, keeping the URI only when accepted; a response records code and reason; completion and body untouched |
| HttpSimpleReader.HeaderDoneStep | formats/http/m_http_simple_reader.c:62-96 | MULTIPART and UNKNOWN formats rejected unchanged; a missing length with LEN_REQUIRED rejected; a malformed or negative length rejected unchanged; a valid length is recorded and completes the message iff it is 0; no length otherwise succeeds unchanged |
| HttpSimpleReader.BodyStep | formats/http/m_http_simple_reader.c:98-111 | the data is appended, and the message becomes complete when no body length is known |
| HttpSimpleReader.FeedPreserves | formats/http/m_http_simple_reader.c:32-170 | over any run of callbacks the flags stay, a complete message stays complete, and the body only grows at its end |
| HttpSimpleReader.FeedStopsAtFailure | formats/http/m_http_simple_reader.c:464 | the first failing callback's effect and code are the run's result |
| HttpSimpleReader.Decoded | formats/http/m_http_simple_reader.c:172-235 | no decoding with NODECODE_BODY or with neither content type nor codec; a body changed by a successful decoding gets Content-Length equal to its new length; after decoding the codec is UTF-8 or unknown; form data loses its content type; only SUCCESS or TEXTCODEC_FAILURE result |
| HttpSimpleReader.SimpleRead.constructor | formats/http/m_http_simple_reader.c:239-248 | a new empty message with the given flags, not complete |
| HttpSimpleReader.SimpleRead.StartCb | formats/http/m_http_simple_reader.c:32-52 | the object changes as `Step` states for a start line |
| HttpSimpleReader.SimpleRead.HeaderCb | formats/http/m_http_simple_reader.c:54-60 | the object changes as `Step` states for a header |
| HttpSimpleReader.SimpleRead.HeaderDoneCb | formats/http/m_http_simple_reader.c:62-96 | the object changes as `Step` states for the end of headers |
| HttpSimpleReader.SimpleRead.BodyCb | formats/http/m_http_simple_reader.c:98-111 | the object changes as `Step` states for body data |
| HttpSimpleReader.SimpleRead.BodyDoneCb | formats/http/m_http_simple_reader.c:113-119 | the message becomes complete |
| HttpSimpleReader.SimpleRead.ChunkExtensionCb | formats/http/m_http_simple_reader.c:121-132 | fails iff FAIL_EXTENSION is set, changing nothing |
| HttpSimpleReader.SimpleRead.ChunkDataCb | formats/http/m_http_simple_reader.c:134-142 | chunk data is appended to the body |
| HttpSimpleReader.SimpleRead.ChunkFinishedCb | formats/http/m_http_simple_reader.c:144-150 | the message becomes complete |
| HttpSimpleReader.SimpleRead.TrailerCb | formats/http/m_http_simple_reader.c:152-162 | fails iff FAIL_TRAILERS is set, changing nothing |
| HttpSimpleReader.SimpleRead.TrailerDoneCb | formats/http/m_http_simple_reader.c:164-170 | the message becomes complete |
| HttpSimpleReader.SimpleRead.Deliver | formats/http/m_http_simple_reader.c:420-445 | each event reaches the callback registered for it |
| HttpSimpleReader.SimpleRead.RunReader | formats/http/m_http_simple_reader.c:463-464 | delivering a run's events until one fails leaves the state and code of `Feed` |
| HttpSimpleReader.DecodeBody | formats/http/m_http_simple_reader.c:172-235 | INVALIDUSE without an object; otherwise the object changes as `Decoded` states |
| HttpSimpleReader.RemoveThenInsert | formats/http/m_http_simple_reader.c:228-231 | removing Content-Length and inserting the new value leaves exactly the new value under the key |
| HttpSimpleReader.ReadResult | formats/http/m_http_simple_reader.c:412-491 | empty input gives MOREDATA with nothing read; a reader success without a complete message gives MOREDATA with nothing read; reader and callback failures pass through with the reader's count; a complete message is decoded; success iff a message is kept, and a kept message is complete |
| HttpSimpleReader.DoneBlock | formats/http/m_http_simple_reader.c:483-489 | on failure or without a caller handle the handle is destroyed; with a caller handle a failure leaves it NULL; a success with a caller handle destroys nothing |
| HttpSimpleReader.EmptyInputAsWritten | formats/http/m_http_simple_reader.c:451-458 | empty input reaches the cleanup with the handle unassigned |
| HttpSimpleReader.EmptyInputDestroysUnassigned | formats/http/m_http_simple_reader.c:451-458 | with `simple == NULL` and no data, the cleanup destroys the never-assigned local pointer |
| HttpSimpleReader.EmptyInputDestroysCallerObject | formats/http/m_http_simple_reader.c:456-489 | with a caller handle and no data, the cleanup destroys whatever the caller's pointer held before the call |
| HttpSimpleReader.EmptyInput | formats/http/m_http_simple_reader.c:456-458 | empty input destroys nothing and leaves the caller's handle NULL |
| HttpSimpleReader.Read | formats/http/m_http_simple_reader.c:412-491 | result and count as `ReadResult`; on success the caller holds a new object whose state is the decoded message; on failure the caller's handle is NULL; every object not handed to the caller is destroyed exactly once; empty input destroys nothing |
| HttpSimpleReader.Consumed | formats/http/m_http_simple_reader.c:500 | consuming n bytes drops exactly the first n when there are that many |
| HttpSimpleReader.ReadParser | formats/http/m_http_simple_reader.c:493-503 | the result is the read's, and the parser loses exactly the bytes reported read; on success the caller's handle holds a new object whose state is the decoded message and nothing is destroyed; on failure the caller's handle is NULL; with data, a failure or a missing caller handle destroys exactly one new object; an empty parser destroys nothing |
| HttpSimpleReader.IncompleteConsumesNothing | formats/http/m_http_simple_reader.c:467-470 | when the reader accepts the data but the message is not complete yet, the read asks for more and nothing is consumed from the parser |
| HttpSimpleReader.ReaderErrorConsumesReported | formats/http/m_http_simple_reader.c:464-473 | when the reader itself fails, its error is the result and the parser loses exactly the bytes the reader reported read |
| HttpSimpleReader.MessageTypeOf | formats/http/m_http_simple_reader.c:263-268 | UNKNOWN without an object, the message type otherwise |
| HttpSimpleReader.VersionOf | formats/http/m_http_simple_reader.c:270-275 | UNKNOWN without an object, the version otherwise |
| HttpSimpleReader.StatusCodeOf | formats/http/m_http_simple_reader.c:277-282 | 0 without an object, the status code otherwise |
| HttpSimpleReader.ReasonPhraseOf | formats/http/m_http_simple_reader.c:284-289 | nothing without an object, the reason phrase otherwise |
| HttpSimpleReader.MethodOf | formats/http/m_http_simple_reader.c:291-296 | UNKNOWN without an object, the method otherwise |
| HttpSimpleReader.UriOf | formats/http/m_http_simple_reader.c:298-303 | nothing without an object, the URI otherwise |
| HttpSimpleReader.HeadersDictOf | formats/http/m_http_simple_reader.c:339-344 | nothing without an object, the header dictionary otherwise |
| HttpSimpleReader.HeaderOf | formats/http/m_http_simple_reader.c:353-358 | nothing without an object or header; otherwise the header's values joined by `", "` |
| HttpSimpleReader.BodyOf | formats/http/m_http_simple_reader.c:367-380 | no body and length 0 without an object; the body and its length otherwise |
| HttpSimpleReader.ContentTypeOf | formats/http/m_http_simple_reader.c:382-387 | nothing without an object, the content type otherwise |
| HttpSimpleReader.CodecOf | formats/http/m_http_simple_reader.c:396-401 | UNKNOWN without an object, the codec otherwise |
| HttpSimpleReader.CharsetOf | formats/http/m_http_simple_reader.c:403-408 | nothing without an object, the charset otherwise |
| BluetoothEnum.Blanks | io/m_io_bluetooth.c:82-87 | one empty name per service |
| BluetoothEnum.NewDevice | io/m_io_bluetooth.c:78-92 | the record is well formed, holds the name, mac and UUIDs given, and the names given or all empty |
| BluetoothEnum.DevicesAfterAdd | io/m_io_bluetooth.c:75-94 | an accepted add appends exactly one new record at the end and keeps the rest; a refused add changes nothing |
| BluetoothEnum.BluetoothEnum.Init | io/m_io_bluetooth.c:47-58 | a new enumeration is empty |
| BluetoothEnum.Add | io/m_io_bluetooth.c:68-95 | the device list becomes `DevicesAfterAdd` of the old one; nothing happens for a NULL enumeration; well-formedness of all records is kept |
| BluetoothEnum.Count | io/m_io_bluetooth.c:60-65 | 0 for a NULL enumeration, the number of devices otherwise |
| BluetoothEnum.Name | io/m_io_bluetooth.c:97-106 | nothing for a NULL enumeration or an index past the end, the stored name otherwise |
| BluetoothEnum.Mac | io/m_io_bluetooth.c:108-117 | nothing for a NULL enumeration or an index past the end, the stored mac otherwise |
| BluetoothEnum.ServiceId | io/m_io_bluetooth.c:119-137 | found iff the enumeration exists and the device index is in range; the service index is not checked and past the end yields no name and no UUID |
| BluetoothEnum.At | io/m_io_bluetooth.c:102-104 | an element exactly for an index in range, the stored one; nothing past the end |
| BluetoothEnum.NameAt | io/m_io_bluetooth.c:97-106 | a name exactly for an index in range, the stored one |
| BluetoothEnum.MacAt | io/m_io_bluetooth.c:108-117 | a mac exactly for an index in range, the stored one |
| BluetoothEnum.ServiceAt | io/m_io_bluetooth.c:126-135 | the service lookup on the list: found iff the device index is in range, with the name and UUID at the service index |
| BluetoothEnum.ServiceNameWithUuid | io/m_io_bluetooth.c:130-133 | on a stored device a service index has a name exactly when it has a UUID |
| BluetoothEnum.AddThenLookup | io/m_io_bluetooth.c:68-117 | after an accepted add the new device is at the old count with the given name, mac and UUIDs, and the given or empty names |
| BluetoothEnum.AddKeepsEarlier | io/m_io_bluetooth.c:94 | an add never changes what earlier positions return |
| BluetoothEnum.AddKeepsWellFormed | io/m_io_bluetooth.c:75-92 | every stored device keeps one name per UUID, a name, a mac and at least one service |

## Left out

- The generic state-machine library and the SMTP-response sub-machine with its pre/post helpers (`net/smtp/m_flow_tcp_ehlo.c:125,133-139`) are not part of this model. The sub-machine's outcome is an input, and the post helper passes the status on unchanged.
- `sizeof(slot->errmsg)` is defined in a header that is not part of this model. The buffer size is a parameter of the slot (at least 1).
- The endpoint's read/write lock is left out; the model assumes sequential execution.
- `M_net_smtp_session_destroy` is not part of this model. Destroying a session is an event recorded in order.
- SmtpEndpoint.Endpoint.Destroy: the final `M_free` of the endpoint is not modelled. The lists end empty instead of being freed.
- The model does not enforce the pool's `|send| + |idle| <= max` rule, because the code shown does not.
- HttpHeaders.SetHeaders: the order of keys in the dictionary and the spelling a key was first stored with are not modelled. The dictionary is a map whose keys are all in folded form (the `Headers` type demands it), and every operation folds the key it is given.
- HttpHeaders.SetHeaders: the enumeration order of keys is not modelled. Keys are visited in an unspecified order; each key is visited once per value, as a multi-value enumeration does.
- Values stored in the header dictionary are compared with case folding only for ASCII letters.
- `M_http_reader_read` is not part of this model. A run is the event sequence it delivers, its verdict and its byte count. Callbacks the simple reader leaves NULL are not events.
- `M_http_set_uri` is not part of this model. Only whether it accepts the URI is modelled; a rejected URI leaves the stored one unchanged.
- The path, port, query string, query arguments, header-name list, Set-Cookie list and original content type are derived by code that is not part of this model. Their accessors are not modelled.
- `M_http_set_header_append` is not part of this model. It is modelled as appending the value, and for Content-Type setting the content type, codec and charset through an `Env` function.
- `M_http_update_content_type` is not part of this model. It is modelled as clearing the content type.
- `M_http_update_charset` is not part of this model. It is modelled as setting the codec to UTF-8 and the charset to `utf-8`.
- `M_str_to_int64_ex` is modelled only as a base-10 parse that succeeds with a 64-bit value or fails.
- `M_textcodec_decode` is an uninterpreted function returning the text and whether it counts as success.
- The 32-byte Content-Length buffer always fits the decimal length of a body, so no truncation is modelled there.
- HttpSimpleReader.Consumed: `M_parser_consume` is not part of this model. It is taken to drop the first n bytes and to refuse a count beyond the data.
- Memory allocation and freeing are not modelled beyond which objects are destroyed, and how often: `M_malloc`, `M_free`, the list and dictionary destroy calls, and `M_io_bluetooth_enum_destroy` with its device-free callback.
- `M_io_bluetooth_create` (`io/m_io_bluetooth.c:139-167`) is left out: it opens a platform device and registers I/O callbacks. `io/m_io_ble_int.h` holds only declarations.
- A NULL C string and the empty string are the same empty `string` here, as every check in the modelled code treats them alike. A NULL string list has length 0.

## Findings

| source | as written | input that shows it | evidently intended | confidence | as-written member | corrected member |
|---|---|---|---|---|---|---|
| formats/http/m_http_simple_reader.c:451-458 | empty input jumps to the cleanup before `*simple` is assigned, so the cleanup destroys the uninitialised local `sr`, or the caller's previous pointer | `M_http_simple_read(NULL, data, 0, flags, &len)`; or a caller whose pointer holds an earlier object or garbage | empty input returns MOREDATA with `*simple` NULL and destroys nothing | high for `simple == NULL` (destroying an uninitialised pointer); medium for a caller handle; not executed | HttpSimpleReader.EmptyInputAsWritten | HttpSimpleReader.EmptyInput |
