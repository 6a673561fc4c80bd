# Verification of oixc-proxy

`oixc-proxy` is a local HTTP and SOCKS5 gateway. This project models the parts of it whose
correctness is hardest to see by reading, in Dafny 4.11, and proves what its documentation and tests
promise of them:

- the Snell v4 record layer, the lazy-reply session reader, the two together, and the reuse pool
  (`SnellRecord`, `SnellReader`, `SnellWire`, `SnellPool`);
- HTTP/1.1 forwarding: request bodies, the rewritten request head, both as one request, the response head
  (`HttpBody`, `HttpChunkedGrammar`, `HttpRequestHead`, `HttpOneRequest`, `HttpResponseHead`);
- the traffic journal, the sampler that feeds it and the query that sums it
  (`TrafficJournal`, `TrafficRecorder`, `TrafficQuery`), and the calendar arithmetic of timestamps
  and build stamps (`Calendar`, `Timestamp`);
- node selectors, routers and their replacement, and the catalog service
  (`Selector`, `Gateway`, `CatalogService`);
- connection admission under a changing limit (`Admission`);
- the dial race and the API deadline (`DialRace`, `ApiDeadline`).

`dafny verify dfyconfig.toml` checks everything. Every file is one module; `Prelude` holds the shared
types.

## How the source is modelled

- AEAD is a pair of functions with the law `open(n, seal(n, p)) == p` and a 16-byte tag. Key
  derivation, HMAC, URL parsing, JSON decoding and UTF-8 validity are parameters.
- Random padding, record and chunk boundaries, read sizes, the order in which concurrent steps
  happen, and which I/O call fails are arbitrary inputs of the theorems.
- Objects the source updates in place are classes; what their methods do is stated against functions of
  the old state. Concurrent code (pool, admission) is a step relation with one step per atomic action.
- Bytes of texts are `char`s; bytes of the record layer are integers below 256. Counters that the source
  keeps in 64 bits are reduced modulo 2^64 where the source does.
- Main results are about every input or every run: a method is proved against a function on the whole
  input or the whole file, and that function is related to something that does not mention the code (a
  grammar, a day-by-day calendar, a whole-file scan, what a client reads back).

- Beside them stand laws in literal names, bytes and numbers (which headers, which status bytes, which
  settings, which connection is pooled), which hold the operations to their meaning without their own predicates.

## What the code does not do as written

Each of these is stated by a lemma or a method contract that shows the case, next to the exact condition
under which the property does hold.

- `build.rs:58` divides by 146 097 where the algorithm needs 146 096, so `civil_from_days` names 29
  February of every year divisible by 400 as 1 March (`Calendar.FirstWrongDay`). It is the inverse of
  the day count exactly on all other days (`Calendar.CivilInvertsDayNumber`, `Calendar.CivilCountsDays`).
  Its comment also promises the full `i64` range; the arithmetic fits exactly up to 719 468 days below
  the top of it (`Calendar.CivilFitsExactly`).
- `Journal::open` refuses a journal whose only content is 1 to 12 bytes of a torn first record
  (`TrafficJournal.RecoveryIsExact`). It refuses a file it has changed exactly if it cut off a torn tail
  and then could not sync, or found the last complete line corrupt (`TrafficJournal.RefusalTouchesExactly`,
  `TrafficJournal.RefusesAfterTruncating`).
- A failed unlock after a successful append reports failure for a sample that stays in the file, and the
  next flush counts its bytes again: conservation then holds exactly if that sample was all zero
  (`TrafficRecorder.UnlockFailureCountsTwice`).
- `admit_connection` compares with the limit it borrowed. The limit in force is respected for as long as it
  is never lowered; from every reachable state any lowering can be overshot, by at most one admission per change
  (`Admission.NoLoweringNoOvershoot`, `Admission.LoweringCanOvershoot`, `Admission.AdmissionRespectsLimit`).
- Whether a response head is refused as too large depends on how it is split, exactly for inputs that hold a
  head over the limit but end no longer than the limit after their last head (`HttpResponseHead.SplitDecidesExactly`):
  an input is refused under some split exactly if a head does not fit (`HttpResponseHead.TooLargeExactly`) and
  accepted under some split exactly if what is left unended does (`HttpResponseHead.SomeSplitFitsExactly`).
- A bare LF inside a request header is forwarded. An origin that takes it as a line end reads other lines
  than the proxy wrote, exactly if a forwarded line holds an LF, and may frame the body differently
  (`HttpRequestHead.LenientReaderAgreesExactly`, `HttpRequestHead.BareLfReframes`).
- `close_response_head` does not look for Connection options on folded lines; a header named only there
  reaches the client (`HttpResponseHead.FoldedOptionSurvives`, `HttpResponseHead.NamedAreDroppedExactly`).
- A build stamp as printed is not a timestamp `parse_time` reads (`Timestamp.PrintedStampIsRefused`).
- A reader that goes on after the first empty chunk crosses into the next session
  (`SnellReader.ReadPastEnd`), as far as the server has sent one (`SnellReader.SnellReader.Read`); the callers
  in the source stop there.
- `GatewayManager::replace` on a closed gateway installs the replacement although it fails
  (`Gateway.GatewayManager.Replace`); the service never replaces a closed gateway.

## Model

| member | source | states |
|---|---|---|
| `SnellRecord.NoncesDistinct` | src/snell/record.rs:324-331 | no two of the first 2^96 seals of a direction use the same nonce |
| `SnellRecord.LittleEndianBytes` | src/snell/record.rs:324-331 | the bytes of a nonce counter, each at its place |
| `SnellRecord.IncrementCounts` | src/snell/record.rs:324-331 | carrying byte by byte is adding one to the little-endian counter, modulo its width |
| `SnellRecord.IncrementNonce` | src/snell/record.rs:324-331 | the in-place loop is that increment |
| `SnellRecord.SwapTwice` | src/snell/record.rs:317-322 | scrambling padding and ciphertext twice restores both |
| `SnellRecord.SwapPadding` | src/snell/record.rs:317-322 | the in-place loop exchanges exactly the even positions both sides have |
| `SnellRecord.FrameRoundTrip` | src/snell/record.rs:78-145 | any legal frame with any padding reads back to its kind and payload, leaves the rest of the stream and an equal nonce counter |
| `SnellRecord.FrameOnWire` | src/snell/record.rs:78-145 | a frame byte by byte: the seven header bytes under the first seal, then padding and ciphertext with every other shared position exchanged |
| `SnellRecord.HeaderForm` | src/snell/record.rs:262-300 | what a reader makes of every header that opens: wrong version, sizes over 16383, a padded zero record, a cut body |
| `SnellRecord.UnopenedForm` | src/snell/record.rs:255-276 | an input too short for a header, or whose header does not open, is refused as such |
| `SnellRecord.StreamRoundTrip` | src/snell/record.rs:255-315 | any sequence of legal frames reads back frame by frame, with reader and writer nonces equal after each and every byte consumed |
| `SnellRecord.StreamConcat` | src/snell/record.rs:147-181 | frames written singly or batched give the same wire bytes |
| `SnellRecord.DataFrames` | src/snell/record.rs:159-181 | a write is cut into legal non-empty unpadded frames, none for an empty write |
| `SnellRecord.DataFramesCarryContent` | src/snell/record.rs:159-181 | a write of any size carries exactly its bytes and never a zero record |
| `SnellRecord.DataFrameSizes` | src/snell/record.rs:159-181 | every frame of a write but the last carries 16383 bytes |
| `SnellRecord.RecordWriter.Seal` | src/snell/record.rs:103-144 | every seal uses the next nonce and records it |
| `SnellRecord.RecordWriter.EncodeFrameAppend` | src/snell/record.rs:78-145 | succeeds exactly on legal sizes with randomness at hand, names the fault otherwise, appends the salt once and then the frame, and leaves the writer as it was on a size error |
| `SnellRecord.RecordWriter.WriteFrame` | src/snell/record.rs:147-157 | fails exactly for a fault of the frame or a failed transport; on success exactly the frame reached the wire, on a fault nothing did |
| `SnellRecord.RecordWriter.WritePayload` | src/snell/record.rs:159-181 | fails exactly if the transport did; on success the wire got the frames of the write whatever the batching, on failure a prefix of them |
| `SnellRecord.RecordReader.ReadFrameInto` | src/snell/record.rs:255-315 | reads the salt once and then what the frame grammar says, with every error case |
| `SnellRecord.RecordReader.ReadKeyed` | src/snell/record.rs:262-290 | the header part of a read |
| `SnellRecord.RecordReader.ReadBodyInto` | src/snell/record.rs:277-315 | the size checks, unscrambling and opening of a payload |
| `SnellReader.SnellReader.FillBuffer` | src/snell/client.rs:712-715 | the buffer is the next record, or anything after a failed read |
| `SnellReader.SnellReader.ReadExactPayload` | src/snell/client.rs:748-771 | takes exactly the next bytes of the session across record boundaries, or fails exactly if the session is too short |
| `SnellReader.SnellReader.ReadReply` | src/snell/client.rs:732-746 | accepts exactly a zero status byte, with each refusal case; what that comes to is stated in bytes by `RunConnection` |
| `SnellReader.SnellReader.EnsureReply` | src/snell/client.rs:717-730 | reads the reply once and repeats its error ever after |
| `SnellReader.SnellReader.WaitPayload` | src/snell/client.rs:691-699 | finds payload, the zero record or a failure, as the session bytes decide |
| `SnellReader.SnellReader.Read` | src/snell/client.rs:666-689 | a read of any size returns the next bytes of the session, and how it ends depends on the session's bytes alone |
| `SnellReader.SnellReader.CompleteReuseClose` | src/snell/client.rs:773-785 | how a close ends, in every case, from the stored error, the reply still pending and the zero record; a successful one stands exactly behind that record |
| `SnellReader.SnellReader.StartReuse` | src/snell/client.rs:520-544 | reuse starts exactly on a finished, quiet connection and begins with a pending reply |
| `SnellReader.SnellReader.RunSession` | src/socks5.rs:489-513 | the reads deliver the application bytes in order, each goes on exactly while something is left, and the first that does not tells a refusal, the end or a cut session apart |
| `SnellReader.NextSession` | src/snell/client.rs:582-599 | a session leaves a connection that carries the next exactly if no read failed, it was accepted and ends, and probe and CONNECT allow it |
| `SnellReader.RunConnection` | src/snell/client.rs:520-599 | on one physical connection the k-th session delivers only bytes between the zero records around it, without the reply, for every record split and read size; read off the bytes, a session starting with 0 delivers what follows, a refusal (2, code, message) gives its code and nothing else, anything else an error; another session follows exactly one that started with 0 and ended, with no failed read and probe and CONNECT allowing it |
| `SnellReader.RefusedSession` | src/snell/client.rs:732-746 | a session of 2, a code, a message and anything more delivers nothing, stores that code and has no successor |
| `SnellReader.AcceptedSession` | src/snell/client.rs:732-746 | a session of 0 and application bytes delivers those bytes |
| `SnellReader.ReadPastEnd` | src/snell/client.rs:691-699 | reading on after the first empty chunk yields the next session's reply byte |
| `SnellWire.ReadRecords` | src/snell/record.rs:255-315 | reading frames until one fails gives the records of the input, on every input |
| `SnellWire.WireRecords` | src/snell/client.rs:712-715 | the records of any legal frames with any padding are their payloads and zero records, followed by those of what comes after |
| `SnellWire.SessionFromWire` | src/snell/client.rs:661-785 | the k-th session of the record stream is the k-th the server wrote, to the byte |
| `SnellWire.RunWire` | src/snell/client.rs:520-599 | from the bytes of a connection, the k-th session delivers the payloads of the server's k-th, for every cut into frames, padding and read size, with replies, refusals and successors read off those bytes |
| `SnellWire.WriteAndRead` | src/snell/client.rs:427-447 | unless the transport failed, what a client writes in any pieces is what the server reads, as data records only |
| `SnellWire.WriteSessions` | src/snell/client.rs:402-447 | unless the transport failed, whole sessions of CONNECT, writes and zero record read back as exactly the trace the pool accounts for, and each session's bytes as its request and contents |
| `SnellPool.SessionsScan` | src/snell/client.rs:582-623 | a repetition of CONNECT, data and one zero record scans as that many sessions |
| `SnellPool.ScanIsSessions` | src/snell/client.rs:582-623 | a trace that scans between sessions is such a repetition |
| `SnellPool.StepKeeps` | src/snell/client.rs:314-400 | every event of dial, relay, finish, release and close keeps the pool invariant |
| `SnellPool.RunKeeps` | src/snell/client.rs:488-517 | so does every interleaving from the start |
| `SnellPool.EveryIdleConnectionIsClean` | src/snell/client.rs:500-517 | every pooled connection carries whole sessions only, 1 <= uses < max_uses, and the pool holds at most max_idle, none twice |
| `SnellPool.EveryConnectionHasOnePlace` | src/snell/client.rs:488-517 | a connection is pooled exactly if its place is idle, and none carries more than max_uses sessions |
| `SnellPool.CleanEndSendsOneZero` | src/socks5.rs:426-487 | a clean relay has sent one zero record, or leaves exactly one for finish |
| `SnellPool.RetiredStays` | src/snell/client.rs:546-549 | a retired connection never changes again, whatever follows |
| `SnellPool.DrainedStaysEmpty` | src/snell/client.rs:390-400 | after close has drained the pool it stays empty whatever follows |
| `SnellPool.ReleaseOutcome` | src/snell/client.rs:500-517 | from every reachable state a release puts the connection at the end of the pool exactly if it is open, not full and the connection not worn out, and retires it otherwise; nothing else changes |
| `SnellPool.DialOutcome` | src/snell/client.rs:314-374 | from every reachable state with an idle connection a dial takes the last: it is reused with one more CONNECT and use, or retired if stale |
| `SnellPool.CleanSession` | src/socks5.rs:426-487 | the client ending first, the server ending first, and one answered request each leave the data records written and one zero record, ready for release |
| `SnellPool.UncleanSession` | src/socks5.rs:385-459 | every other end of a relay retires the connection with nothing more written |
| `SnellPool.NoReuseSession` | src/snell/client.rs:582-599 | without reuse no zero record is written and the connection is retired |
| `SnellPool.CleanSessionIsPooled` | src/snell/client.rs:582-599 | from every reachable state a cleanly ended tunnel is pooled exactly under the release conditions, one whole session longer |
| `SnellPool.LocalOutcome` | src/snell/client.rs:582-623 | what happens to one connection changes no other |
| `SnellPool.CloseOutcome` | src/snell/client.rs:390-400 | close retires exactly the pooled connections |
| `HttpBody.LineLength` | src/http_proxy.rs:435-464 | an accepted line ends in CRLF and fits its limit |
| `HttpBody.NoLine` | src/http_proxy.rs:435-464 | a line without an end, one over the limit and one ending in a bare LF are refused, each as such |
| `HttpBody.SizedBody` | src/http_proxy.rs:351-353 | a body of stated length is that many bytes or cut off |
| `HttpBody.BufferedIndex` | src/http_proxy.rs:446-450 | searching only the buffered bytes finds the line end of the whole input |
| `HttpBody.FillBody` | src/http_proxy.rs:389-407 | pending output is sent exactly when the next read has to wait, nothing is lost or reordered, and a sink failure is reported exactly if a send failed |
| `HttpBody.CopyBodyBytes` | src/http_proxy.rs:409-433 | copies exactly the given number of bytes, or fails because the input is shorter or a send failed |
| `HttpBody.ReadBodyLine` | src/http_proxy.rs:435-464 | reads exactly the line at the start of the input, however it is split, with every error case |
| `HttpBody.ForwardTrailers` | src/http_proxy.rs:358-371 | takes exactly the trailer section |
| `HttpBody.ForwardChunk` | src/http_proxy.rs:354-379 | takes exactly one chunk, or the last one with its trailers |
| `HttpBody.ForwardBody` | src/http_proxy.rs:340-385 | unless a send failed, succeeds exactly if the input starts with a message body, with the same error otherwise; on success sends exactly head and that body and leaves all later input unread; on failure what was sent is a prefix of head and input; all whatever the split |
| `HttpChunkedGrammar.SizeLineParses` | src/http_proxy.rs:466-482 | every size line of the grammar parses to its value |
| `HttpChunkedGrammar.ParsedSizeLine` | src/http_proxy.rs:466-482 | every line that parses is a size line of that value |
| `HttpBody.HexReadsBack` | src/http_proxy.rs:466-482 | a number written in hexadecimal reads back |
| `HttpChunkedGrammar.WrittenBodyIsTaken` | src/http_proxy.rs:354-380 | every chunked body of section 7.1 of RFC 9112 within the limits is taken whole, whatever follows |
| `HttpChunkedGrammar.TakenIsWrittenBody` | src/http_proxy.rs:354-380 | everything taken is such a body |
| `HttpRequestHead.CollectFields` | src/http_proxy.rs:664-676 | the loop is the field-by-field parse, with its refusals |
| `HttpRequestHead.FillHead` | src/http_proxy.rs:697-716 | the loop writes the request line, the kept lines and the close option |
| `HttpRequestHead.RewriteAbsoluteRequest` | src/http_proxy.rs:626-725 | the whole rewrite, error cases included |
| `HttpRequestHead.HeadReadsBack` | src/http_proxy.rs:697-716 | the rewritten head splits back into exactly the lines written |
| `HttpRequestHead.KeptElements` | src/http_proxy.rs:698-711 | whatever the Connection options name, the kept lines hold every element of the framing fields |
| `HttpRequestHead.AcceptedFramingIsTheRule` | src/http_proxy.rs:750-793 | accepted framing is that of section 6.3 of RFC 9112 on the same elements |
| `HttpRequestHead.FramingAcceptedExactly` | src/http_proxy.rs:748-793 | a request is accepted exactly if section 6.3 settles its framing, no element of its framing fields is empty and its length fits 64 bits |
| `HttpRequestHead.ForwardedFramingAgrees` | src/http_proxy.rs:626-793 | for every accepted non-upgrade request, section 6.3 applied to the forwarded bytes gives the framing the proxy uses |
| `HttpRequestHead.NamedHeadersAreRemoved` | src/http_proxy.rs:698-741 | for every accepted request no hop-by-hop header and no header named by a Connection option reaches the origin, framing headers and a requested upgrade apart |
| `HttpRequestHead.ForwardedHeaders` | src/http_proxy.rs:696-741 | for every accepted request, upgrades included, the origin sees all lines of a header in order or none, as the hop-by-hop rules say, and one closing line |
| `HttpRequestHead.ForwardedByName` | src/http_proxy.rs:698-748 | with the names written out: connection, keep-alive, proxy-connection, proxy-authorization and te never reach the origin, upgrade exactly for a requested upgrade, host, content-length and transfer-encoding always, every other header unless a Connection option names it |
| `HttpRequestHead.ForwardedInOrder` | src/http_proxy.rs:697-716 | the origin gets exactly the lines that reach it, in the client's order, and the closing line |
| `HttpRequestHead.ForwardedTarget` | src/http_proxy.rs:626-662 | method and version are the client's; target, host and port those of the parsed URL |
| `HttpRequestHead.RequestLineForm` | src/http_proxy.rs:630-637 | a request line as it is written, with and without a version, and one without a target |
| `HttpRequestHead.FieldForm` | src/http_proxy.rs:664-676 | a header line as it is written reads as its name and its value without the blanks around it |
| `HttpRequestHead.NoFieldForm` | src/http_proxy.rs:664-676 | folded lines and bad names are refused, lines without a colon skipped |
| `HttpRequestHead.TokensOf` | src/http_proxy.rs:677-686 | a comma-separated list with any blanks has exactly its elements |
| `HttpRequestHead.FramingForm` | src/http_proxy.rs:750-793 | every outcome of the framing rule with its refusal, in the header values |
| `HttpRequestHead.LenientReaderAgreesExactly` | src/http_proxy.rs:526-530 | a reader that takes a bare LF as a line end finds the lines a strict one does exactly if no forwarded line holds an LF, and then frames the body as the proxy does |
| `HttpRequestHead.BareLfReframes` | src/http_proxy.rs:665-676 | a header value with a bare LF that such a reader frames differently |
| `HttpOneRequest.BodyIsTaken` | src/http_proxy.rs:340-385 | a body the proxy takes is taken as itself off what it sends, whatever follows |
| `HttpOneRequest.OriginReadsOneRequest` | src/http_proxy.rs:626-725 | whatever follows on the connection, the origin takes exactly the forwarded head and the client's body off it |
| `HttpOneRequest.ForwardOneRequest` | src/http_proxy.rs:129-153 | unless a send failed, the upload succeeds exactly if the client sends a whole body; the origin then reads this one request and nothing more, and every later byte of the client stays unread |
| `HttpResponseHead.FirstHeadEnd` | src/http_proxy.rs:235-246 | the search finds the least position at which the text ends in an empty line |
| `HttpResponseHead.ResumedSearch` | src/http_proxy.rs:206-217 | resuming two bytes before the old end finds the same head end as searching from 0 |
| `HttpResponseHead.CloseResponseHead` | src/http_proxy.rs:277-315 | the loop with its keep flag writes the status line, the kept lines and the close option |
| `HttpResponseHead.ForwardResponseHead` | src/http_proxy.rs:194-231 | the resuming loop does what searching from 0 every time does |
| `HttpResponseHead.SplitsDoNotMatter` | src/http_proxy.rs:194-231 | heads plus remaining chunks depend on the concatenated input alone on success, and so does every fault but an overlong head; on failure what was sent is a prefix of the input |
| `HttpResponseHead.TooLargeExactly` | src/http_proxy.rs:206-209 | some split is refused as too large exactly if a head does not fit |
| `HttpResponseHead.SomeSplitFitsExactly` | src/http_proxy.rs:206-209 | some split is not refused as too large exactly if what follows the last interim head ends, or is no longer than the limit |
| `HttpResponseHead.SplitDecidesExactly` | src/http_proxy.rs:206-209 | the refusal depends on the split exactly for inputs with a head over the limit whose last head ends or is short |
| `HttpResponseHead.ClosedHeadEnds` | src/http_proxy.rs:277-315 | the closed head ends where the proxy ended it, whatever body follows |
| `HttpResponseHead.ClosedStatus` | src/http_proxy.rs:248-272 | closing keeps the status |
| `HttpResponseHead.StatusForm` | src/http_proxy.rs:248-272 | a status line as it is written: interim are the 1xx codes but 101 |
| `HttpResponseHead.StatusIsForm` | src/http_proxy.rs:248-272 | nothing else is a status line |
| `HttpResponseHead.ClientReadsBack` | src/http_proxy.rs:188-231 | the client finds the origin's interim heads and body and the closed final head in what it receives |
| `HttpResponseHead.ClosedFields` | src/http_proxy.rs:274-315 | the client sees every line, folded ones included, of every field that is not dropped, none of one that is, and one close option |
| `HttpResponseHead.ClosedInOrder` | src/http_proxy.rs:277-315 | with the names written out: the status line, the lines that go through in order, and the closing line |
| `HttpResponseHead.OptionsForm` | src/http_proxy.rs:287-292 | a Connection line in any case, with any blanks, names exactly its elements in lower case |
| `HttpResponseHead.MixedText` | src/http_proxy.rs:278-282 | lines written with CRLF or a bare LF are found, empty ones dropped |
| `HttpResponseHead.NamedAreDroppedExactly` | src/http_proxy.rs:287-298 | every header the Connection fields name is gone exactly if the head has no line of one that only a folded line names; such a header reaches the client whole |
| `HttpResponseHead.UnfoldedNamedAreDropped` | src/http_proxy.rs:287-298 | without folded Connection lines every header they name is gone |
| `HttpResponseHead.FoldedOptionSurvives` | src/http_proxy.rs:277-315 | a final head that names a header on a folded Connection line only: the client still gets that header |
| `TrafficJournal.LineIsRecord` | src/traffic.rs:243-248 | every rendered record is one line, starts with the recognised prefix and fits the window |
| `TrafficJournal.LineText` | src/traffic.rs:86-95 | the text of a record |
| `TrafficJournal.LineDeterminesSample` | src/traffic.rs:243-248 | no two samples are written as the same line |
| `TrafficJournal.WindowCut` | src/traffic.rs:207-216 | the tail window finds the cut of a whole-file scan, or none if that lies before it |
| `TrafficJournal.Journal.Open` | src/traffic.rs:182-241 | opening through the window is recovery by a whole-file scan, on every file and every I/O outcome |
| `TrafficJournal.Journal.Append` | src/traffic.rs:243-274 | an append leaves all of the line, none of it, or a part of it and the journal poisoned; success and poisoning are characterised exactly |
| `TrafficJournal.RecoveryIsExact` | src/traffic.rs:182-241 | for complete records and an append cut anywhere, open leaves exactly the complete records, or refuses an untouched file exactly if it holds 1 to 12 bytes of a first record |
| `TrafficJournal.CompleteLinesStay` | src/traffic.rs:204-222 | on any file and any failure no complete line is lost |
| `TrafficJournal.RefusalTouchesExactly` | src/traffic.rs:182-235 | for every file and every outcome of truncate and sync: exactly when opening changes the file, and exactly when it refuses a file it has changed |
| `TrafficJournal.TailFaults` | src/traffic.rs:216-217 | a torn tail that cannot be cut off, or not for sure, is an I/O failure |
| `TrafficJournal.RefusesAfterTruncating` | src/traffic.rs:204-235 | such files exist for every journal: any torn tail behind any corrupt complete line |
| `TrafficJournal.ForeignFiles` | src/traffic.rs:194-216 | files that are no journal, and a last line longer than the window, are refused and left alone, each as such |
| `TrafficRecorder.Sampler.Flush` | src/traffic.rs:326-340 | the sampler advances exactly if the append succeeded |
| `TrafficRecorder.FlushStep` | src/traffic.rs:326-340 | every flush, whatever fails in it, is a step of the runs below |
| `TrafficRecorder.Accrues` | src/traffic.rs:64-72 | adding the wrapped difference catches up with the count modulo 2^64 and never overtakes it |
| `TrafficRecorder.StepKeeps` | src/traffic.rs:243-274 | counting, flushing, dying in an append and reopening keep the accounting invariant |
| `TrafficRecorder.BytesAreConserved` | src/traffic.rs:326-363 | through any run of failures, deaths and restarts in which an unlock fails at most on an all-zero sample: persisted plus unflushed equals counted modulo 2^64 while unpoisoned, persisted never exceeds counted, and the file is complete records and at most one torn one |
| `TrafficRecorder.RestartSucceeds` | src/traffic.rs:182-241 | after any run, opening recovers exactly the complete records, few-byte first records apart |
| `TrafficRecorder.UnlockFailureCountsTwice` | src/traffic.rs:272-273 | from every reachable accounting: after an append whose only failure is the unlock, and for good after the next flush, persisted plus unflushed equals counted exactly if the sample reported lost was all zero |
| `TrafficRecorder.UnlockFailureExample` | src/traffic.rs:272-273 | from an empty journal persisted bytes come to exceed counted ones |
| `TrafficQuery.Query` | src/traffic.rs:382-461 | the loop is the line-by-line scan |
| `TrafficQuery.QuerySumsWindow` | src/traffic.rs:382-461 | on complete records and a torn one the report sums exactly the window, upload, download and total included, and fails exactly if the total overflows |
| `TrafficQuery.SelectedExactly` | src/traffic.rs:426-430 | a window selects exactly the samples from its start on and before its end |
| `TrafficQuery.QueryNamesBadRecord` | src/traffic.rs:417-425 | a corrupt complete line is never skipped: the query names its position, unless the sum overflows before it |
| `TrafficQuery.QueryNamesLongRecord` | src/traffic.rs:417-420 | neither is a line over the limit skipped |
| `TrafficQuery.EmptyWindow` | src/traffic.rs:383-385 | a window that ends where it starts, or before, is refused, and no other |
| `TrafficQuery.NotedDescribes` | src/traffic.rs:431-442 | sample count, first and last time are those of the selected records |
| `TrafficQuery.NotedCounts` | src/traffic.rs:443-444 | the report counts exactly the late samples and the clock reversals |
| `TrafficQuery.WindowsAdjoin` | src/traffic.rs:426-430 | adjoining half-open windows share nothing and miss nothing |
| `TrafficQuery.QueryNeverOvercounts` | src/traffic.rs:382-461 | after any run a query of any window reports at most what was counted |
| `Calendar.NextDayNumber` | src/traffic.rs:544-550 | the closed form grows by one from each day to the next |
| `Calendar.DayNumberCountsDays` | src/traffic.rs:525-555 | the closed form is the day-by-day count from 1970-01-01 |
| `Calendar.EveryDateIsCounted` | src/traffic.rs:525-555 | every valid date is reached by counting its day number |
| `Calendar.CivilInvertsDayNumber` | build.rs:54-65 | civil_from_days inverts the day number exactly on all dates but the last of a 400-year era, which it calls 1 March |
| `Calendar.CivilCountsDays` | build.rs:54-65 | it names exactly those days as counting does, for every day before and after the epoch |
| `Calendar.FirstWrongDay` | build.rs:58 | 29 February 2000 is named 1 March 2000 |
| `Calendar.CivilFitsExactly` | build.rs:52-65 | every intermediate value fits 64 bits exactly for days up to 719468 below the largest |
| `Timestamp.WrittenStampParses` | src/traffic.rs:473-555 | every valid stamp with a zone is accepted as its Unix time, unless that precedes the epoch |
| `Timestamp.AcceptedIsWrittenStamp` | src/traffic.rs:473-555 | everything accepted with a zone is a valid stamp, read as the time it denotes |
| `Timestamp.UnixSecondsForm` | src/traffic.rs:473-476 | digits alone are Unix seconds, up to 64 bits |
| `Timestamp.WallClockForm` | src/traffic.rs:541-543 | without a zone the fields go to the local clock as they are written |
| `Timestamp.ZoneRoundTrip` | src/traffic.rs:507-523 | every zone but `-00:00` reads back to its offset |
| `Timestamp.OffsetShifts` | src/traffic.rs:507-523 | an offset east of UTC makes the time earlier by so much, one west later |
| `Timestamp.ClockCounts` | src/traffic.rs:544-555 | a UTC stamp is its days, hours, minutes and seconds |
| `Timestamp.BuildStampRoundTrip` | build.rs:44-50 | the text of a build stamp with `Z` in place of its suffix ` UTC`, read back, is its second, exactly except on the last day of an era |
| `Timestamp.PrintedStampIsRefused` | build.rs:44-50 | the text as printed, with the suffix ` UTC`, is refused by parse_time |
| `Timestamp.BuildStampForm` | build.rs:44-50 | a build stamp has a space, seconds and the time of day in its parts |
| `Selector.DecodeInvertsEncode` | src/surge.rs:84 | decoding inverts encoding on all bytes |
| `Selector.EncodeInvertsDecode` | src/surge.rs:96-98 | strictness: a text that decodes is the one encoding of its value |
| `Selector.SymbolsAreTheTable` | src/surge.rs:84 | the alphabet is the table of section 5 of RFC 4648 |
| `Selector.SelectorExists` | src/surge.rs:80-90 | a selector exists exactly for names of 1 to 187 bytes |
| `Selector.SelectorRoundTrip` | src/surge.rs:80-103 | the name of a selector is the name it was made from |
| `Selector.NameRoundTrip` | src/surge.rs:92-103 | a text that names a node is that node's selector |
| `Selector.SelectorsDiffer` | src/surge.rs:80-90 | different names never share a selector |
| `Selector.RenderSelectors` | src/surge.rs:42-53 | the selector loop fails exactly on an empty, invalid or repeating list |
| `Gateway.BuildRouter` | src/gateway.rs:116-202 | succeeds exactly if documents render, names are valid and distinct and new dialers can be set up; keeps the runtime of an unchanged profile and makes a new client for every other |
| `Gateway.RoutesToOwnNode` | src/gateway.rs:220-228 | exactly the catalog's selectors with the secret route, each to its own node |
| `Gateway.RoutesDiffer` | src/gateway.rs:220-228 | two nodes never share a route |
| `Gateway.GatewayManager.RetireExclusive` | src/gateway.rs:230-239 | closes every client the replacement does not share, once |
| `Gateway.GatewayManager.Replace` | src/gateway.rs:474-486 | every client that was ever reachable and no longer is has been closed once; on a closed gateway the replacement is installed and the call fails |
| `Gateway.GatewayManager.Close` | src/gateway.rs:488-494 | every client that was ever reachable has been closed once |
| `CatalogService.Service.Reload` | src/cli.rs:506-565 | succeeds exactly under the stated conditions; a failure changes nothing; success moves configuration, catalog, router and cache together, takes the fetched catalog exactly if one of the four account and API settings changed, and keeps the clients of unchanged profiles exactly under unchanged client settings |
| `CatalogService.Service.ApplyRefreshed` | src/cli.rs:608-655 | a failure changes nothing; success moves catalog, router, subscription and cache together |
| `CatalogService.Service.FinishRefresh` | src/cli.rs:571-606 | a failed forced refresh changes nothing, a successful one leaves the cache equal to memory, a refused ordinary one drops account metadata only |
| `CatalogService.Serve` | src/cli.rs:772-830 | after any run of commands configuration, catalog, cache and subscription are those of a simple machine in which a command applies whole or not at all; the router is that of the catalog in memory under the active filter, no active client was closed and every dropped one was closed once |
| `CatalogService.ReloadByFields` | src/cli.rs:508-565 | a reload fetches exactly if token, base URL, fallback URLs or app secret changed, and then catalog, time and subscription are the fetched ones; otherwise only the configuration changes |
| `CatalogService.RefreshByFields` | src/cli.rs:571-655 | what each kind of refresh does to catalog, time, subscription and cache |
| `CatalogService.ReusableIsKnown` | src/gateway.rs:144-150 | whether a client can be reused depends on the catalog in memory alone |
| `CatalogService.BuildableExactly` | src/gateway.rs:116-190 | a router can be built exactly if documents render, names are good and every new or changed node can be dialed |
| `CatalogService.Start` | src/cli.rs:658-699 | starts exactly if a catalog is there, publishes something and can be routed, in a consistent state, from the account's cache or a fetched catalog |
| `CatalogService.PublishedIsPart` | src/cli.rs:1179-1188 | the published nodes are exactly the catalog's that match the filter |
| `CatalogService.PublishedForm` | src/cli.rs:1179-1188 | everything is published on request, else the matching nodes, and never nothing |
| `CatalogService.PublishedInOrder` | src/nodes.rs:209-220 | publishing keeps the catalog's order |
| `CatalogService.PublishedRoute` | src/gateway.rs:182-189 | in every consistent state each published username with the active secret reaches its own node |
| `Admission.RunKeeps` | src/cli.rs:1078-1112 | every interleaving keeps the admission invariant |
| `Admission.CountIsLive` | src/cli.rs:1083-1093 | after every run the counter is the number of permits handed out and not given back, each given back at most once, and never exceeds the largest limit |
| `Admission.AdmissionRespectsLimit` | src/cli.rs:1095-1112 | an admission sees the count below the limit it borrowed, which is in force unless it changed; at most one admission per change finds the limit reached |
| `Admission.NoLoweringNoOvershoot` | src/cli.rs:1095-1112 | while the limit is never lowered every admission finds the count below the limit in force |
| `Admission.LoweringCanOvershoot` | src/cli.rs:1095-1112 | from every reachable state every lowering can be overshot, by a run in which it is the only change |
| `Admission.WakeupIsPending` | src/cli.rs:1107-1110 | a loop that waits although there is room has a wakeup pending |
| `Admission.WokenLoopAdmits` | src/cli.rs:1100-1106 | a woken loop with room admits |
| `DialRace.InterleaveAddresses` | src/transport/ech.rs:423-464 | the loop over two queues is the alternation of the two families |
| `DialRace.InterleavedOrder` | src/transport/ech.rs:423-464 | every address once, the preferred or first given in front, families alternating while both last, each in its own order |
| `DialRace.OrderWithinFamily` | src/transport/ech.rs:423-464 | within a family addresses are tried in the order they were first given, the preferred one apart |
| `DialRace.RaceConnects` | src/transport/ech.rs:479-531 | for every schedule: ends within 2n + 1 waits, waits only on running attempts, starts addresses in order and once, fails only after every one was tried and failed |
| `DialRace.ConnectHappyEyeballs` | src/transport/ech.rs:324-342 | a dial fails exactly if every address does, and starts with the preferred one |
| `ApiDeadline.SharesNeverShrink` | src/api.rs:141-145 | taking at most a share leaves the other attempts no smaller one |
| `ApiDeadline.TriesNextKinds` | src/api.rs:338-343 | another attempt follows a timeout, a network or a server failure, and nothing else |
| `ApiDeadline.WithFallback` | src/api.rs:131-166 | all attempts fit in the timeout, each gets at least floor(timeout / n), another URL is tried exactly after a timeout, a network or a server failure, and the result is the last attempt's |

## Left out

- SnellRecord.RecordReader.ReadFrameInto: the bytes a failed read leaves in the frame buffer, and the reuse of its capacity, are not modelled.
- SnellPool.StepKeeps: the pool, its lock and its flag are values of a step relation, not objects; idle timeouts, network generations and probes are one input, whether an entry is usable.
- HttpRequestHead.ForwardedFramingAgrees: says nothing of upgrade requests, whose bytes are relayed unframed.
- HttpResponseHead.ForwardResponseHead: a failing chunk source or client ends the run like an ended input and is not modelled separately.
- TrafficJournal.Journal.Open: the writer lock, file modes and failing reads; the model starts where the file is open and readable.
- TrafficJournal.RecoveryIsExact: reading JSON is any function that accepts what the journal writes.
- Timestamp.WrittenStampParses: timestamps without a zone, which go through the C library's local time.
- CatalogService.Service.Reload: status counters, events and the accept settings that follow a reload.
- Gateway.BuildRouter: the text of the rendered documents; that rendering succeeds is an input.
- Admission.RunKeeps: atomics are sequentially consistent; closing of the settings channel is not modelled.
- DialRace.RaceConnects: lengths of delays; that an attempt ends is assumed, when is not.
- ApiDeadline.WithFallback: timers that fire late.
- Cryptography: AES-GCM, Argon2id, HMAC, TLS and ECH appear only through the open/seal law or as parameters.
- UDP sessions, datagrams and the SOCKS5 handshake.
- CONNECT targets, proxy credentials and status replies of the HTTP front end: single-branch parsing.
- Display names in rendered provider documents, which the source does not make unique.
- Configuration parsing, catalog parsing, control socket, diagnostics, service installation and platform files.
