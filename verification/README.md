# zuhttp: a verified model of its core

zuhttp is an HTTP/1.1 and HTTP/2 client written in C. This project models, in Dafny, the parts of it
in which state, ownership and byte counting meet, and proves what they promise over every input,
every interleaving and every run.

What is outside (sockets, clocks, allocation, zlib, nghttp2, the chunk and head parsers, the URI
parser, the servers) appears as answers the environment may give in any order and combination. Code
that updates state in place is a class or a loop with invariants, proved against a specification;
code that only computes is a function, with its properties as lemmas; what runs concurrently is a
state machine over its mutex-held sections.

| files | part of the client |
|---|---|
| `PoolSpec`, `PoolRuns`, `PoolAcquire`, `PoolList`, `PoolKey` | the connection pool: its operations as values, every run of them, what an acquisition returns, the heap list that refines them, and the key |
| `Inflate`, `Body`, `Reader`, `Exchange`, `OpenBody`, `H2Body`, `OpenFrames`, `Response`, `Reuse`, `Growth` | the response: its head, decompression under caps, framing, whole, pulled and HTTP/2 bodies, when a connection may be reused, the growable buffer |
| `Engine`, `Redirect`, `Uri`, `Headers`, `Filter` | the hop loop: redirects, credentials, ownership of connections and of a streamed request body; origins; header lists |
| `H2Send`, `H2Recv`, `NwShared` | HTTP/2 request bodies and receive credit; the state the macOS backend shares with its completions |
| `Chunks`, `Utf8`, `Trace`, `Redact`, `RedactUrl`, `Decimal`, `Ascii`, `Base` | exact text: chunked writing, UTF-8, honest truncation, redaction, decimal and hexadecimal numbers |

The main theorems: `PoolRuns.PoolSafety`, `PoolAcquire.AcquireAmidReleases`,
`PoolAcquire.SurvivorsKeepOrder`, `PoolAcquire.ReleaseDisposition`,
`PoolAcquire.AcquiredWasReleasedAlike`, `NwShared.NoUseAfterFree`, `NwShared.ReadHandsOver`,
`Inflate.Inflater.Run`, `Exchange.ReadBody`, `Exchange.AcceptedIff`, `OpenBody.PulledIsFramed`,
`Engine.Perform`, `Engine.HeadersSent`,
`H2Send.Drive`, `H2Recv.CreditIsConservedIff`, `Chunks.RoundTrip`, `Chunks.WriteBody`,
`RedactUrl.UrlIdempotent`, `RedactUrl.SecretsAreMarked`, `Utf8.Valid`, `Trace.DetailIsHonest`,
`Headers.SectionReadsOneWay`, `Headers.StripEndsIff`.

## Where the code and its promise part

Each of these is modelled as the code does it, with an input on which the promise fails and the
condition under which it holds.

- A receive completion whose append runs out of memory and which also carries the peer's close sets
  both flags, and the read path tests the end first, so lost bytes are reported as a clean end
  (`NwShared.EndCanHideLoss`). A reported end is truthful if and only if the failure flag is clear
  (`NwShared.EndIsTruthfulIff`).
- Cancelling an HTTP/2 stream the server has already closed does nothing, and the next request
  resets the buffer, so connection window is lost for good (`H2Recv.AbortAfterCloseLosesWindow`).
  Credit is conserved if and only if each request finds the buffer drained
  (`H2Recv.CreditIsConservedIff`).
- The redirect record writes IPv6 hosts without brackets, so two servers can share one and a
  legitimate redirect be called a loop (`Uri.LiteralsCanCollide`). Equal records mean the same
  request if and only if both write a port or neither does (`Uri.TrailKeyDecides`). The other
  direction, on which loop detection rests, holds without condition.
- The cap on a decoded body is also given to the chunk decoder, which holds the encoded bytes to it.
  Ten bytes that gzip makes thirty of are refused under a cap of ten when they come in a chunk, while
  the same thirty bytes inflate to all ten otherwise (`Exchange.TenBytesRefusedOnlyWhenChunked`). A
  coded body that decodes to no more than the cap and is otherwise without fault is accepted if and
  only if it is not chunked or its encoded form stays within the cap as well (`Exchange.AcceptedIff`,
  and for every read `Exchange.ReadBody`).
- A chunk size is printed as an `unsigned long`, narrower than `size_t` on some platforms
  (`Chunks.OverlongPieceEndsTheBody`); a size line is true if and only if the length fits
  (`Chunks.SizeLineIsTrueIff`).
- Replacing a header validates before it removes, so that a refused value does not cost the old one.
  A value over a limit still does (`Headers.RefusedValueCostsTheOld`). After a refusal the list is as
  it was if and only if the field was malformed or there was none of that name (`Headers.List.Set`).
- The loop that strips credentials copies at most 256 bytes of a name and then starts over. It ends
  if and only if every secret name fits the copy (`Headers.StripEndsIff`); on one longer name it runs
  forever (`Headers.LongSecretNeverEnds`). Only the C tests call it: the engine filters credentials
  in its own header loop.
- On malformed chunked input the length is left as it came in, so that one step feeds the pipe raw
  bytes: a single such byte reaches the sink (`Exchange.MalformedReachesTheSink`). Short of the cap,
  with an identity coding and nothing outside in the way, the sink holds what the chunk parser
  decoded if and only if none of its verdicts was malformed (`Exchange.SinkIsDecodedIff`, and for
  every read `Exchange.ReadBody`).

## Model

| member | source | states |
|---|---|---|
| `PoolRuns.PoolSafety` | src/zuh_pool.c:169-367 | after every run of opens, releases, acquisitions, clears and fork checks, with releases re-entered from the probe, each stream ever opened is in exactly one of: caller, idle list, under probe, destroyed; releases equal idle + under probe + hits + stale + expired + capacity + unusable + fork + cleared + lost to memory; streams freed without a close number exactly those dropped for a fork; both caps and the newest-first order hold |
| `PoolRuns.KeptRun` | src/zuh_pool.c:169-367 | ownership, the tally, orderly destruction, both caps and the order are kept by every legal run from any state that has them |
| `PoolRuns.CapsOfRelease` | src/zuh_pool.c:318-367 | a release keeps idle within its cap, every host's count within the per-host cap, and the newest-first order |
| `PoolRuns.MassOfRelease` | src/zuh_pool.c:318-367 | a release adds exactly one to the places of the stream given and changes those of no other, whatever is evicted on the way |
| `PoolAcquire.AcquireTakesNewestGood` | src/zuh_pool.c:262-298 | when no probe re-enters the pool, the unlink-and-restart scan returns exactly the newest entry with an equal key that is neither expired nor stale; it destroys, newest first, exactly the newer matches that failed; all other entries stay in order |
| `PoolAcquire.AcquireAmidReleases` | src/zuh_pool.c:262-298 | with any releases re-entering from the probes: the scan is a series of turns, each on the newest match of its moment, which failed; then the newest match of the moment is usable and is handed out, or there is none, and none in the final list |
| `PoolAcquire.SurvivorsKeepOrder` | src/zuh_pool.c:262-298 | likewise: what was in the list and still is keeps its order, and what is new was brought by a re-entered release |
| `PoolAcquire.TurnShape` | src/zuh_pool.c:270-296 | a turn removes its match and, besides it, nothing but what the releases it lets in evict |
| `PoolAcquire.ReleaseEvicts` | src/zuh_pool.c:342-356 | what such a release evicts: the host's oldest entry when the host is at its cap, and then the oldest of all, down to one below the pool's |
| `PoolAcquire.ReleaseDisposition` | src/zuh_pool.c:318-367 | every release: kept, as the newest entry, exactly when it may be used again, has nothing to read, pooling is on and memory suffices; else closed and freed, the list as the fork guard left it; which counter goes up, and that no other does; with room nothing is evicted |
| `PoolAcquire.TurnCounts` | src/zuh_pool.c:228-298 | a turn whose probe lets nothing in: counted as miss, expired, stale or hit, with expiry at the timeout or later, and exactly the failed match closed and freed |
| `PoolAcquire.AfterForkMisses` | src/zuh_pool.c:188-298 | after a fork an acquisition hands out nothing of the parent's, frees every entry unclosed, counts it and misses, whatever the probes would let in |
| `PoolAcquire.ScanAsRun` | src/zuh_pool.c:262-298 | a whole scan, however its probes re-enter the pool, is a legal run, so what is proved of runs holds after it |
| `PoolAcquire.AcquiredWasReleasedAlike` | src/zuh_engine.c:173-274 | whatever the pool is about to hand out, after any run, was released as reusable, with nothing left unread on it, under an equal key, and any engine-built key it was released under, with pins as they can be configured, came from a request of the same origin, trust settings, pins and full proxy identity |
| `PoolSpec.FirstMatchIsNewest` | src/zuh_pool.c:262-298 | the index the scan stops at matches, and nothing newer does |
| `PoolSpec.LastOfHostIsOldest` | src/zuh_pool.c:301-316 | the eviction victim is of the host, and nothing older is; there is none only when the host has no entry |
| `PoolSpec.CountHostMeans` | src/zuh_pool.c:217-225 | the count is the number of places in the list that hold an entry of the host |
| `PoolSpec.DestroyedInOrder` | src/zuh_pool.c:179-206 | a clear closes and then frees each entry in list order; a fork frees each in that order and closes none |
| `PoolSpec.TurnMakesProgress` | src/zuh_pool.c:262-298 | a turn on a match hands the entry out or leaves strictly less to scan, re-entered releases counted |
| `PoolList.Pool.Acquire` | src/zuh_pool.c:262-298 | on the heap list, fork check and scan leave the state the specification gives, and return what it finds |
| `PoolList.Pool.ScanList` | src/zuh_pool.c:262-298 | walking links from the head, unlinking before probing and starting over refines the specified scan, and ends; no node is read once it has been freed |
| `PoolList.Pool.TakeTurn` | src/zuh_pool.c:270-296 | from the head to the next match: unlinked first, then expired, stale or handed out, as the specified turn |
| `PoolList.Pool.Probe` | src/zuh_pool.c:276-296 | whatever a probe that re-enters the pool makes it free, the entry under probe, being off the list, is alive when its answer comes |
| `PoolList.Pool.Release` | src/zuh_pool.c:318-367 | on the heap list a release leaves the entries, the calls made and the counters that the specification gives, which `PoolAcquire.ReleaseDisposition` and `PoolAcquire.ReleaseEvicts` spell out; nothing but the pool's own nodes changes, and no live node off the list is freed |
| `PoolList.Pool.MakeRoom` | src/zuh_pool.c:342-356 | the host's oldest goes first, then the pool's oldest until there is room; each turn finds a victim |
| `PoolList.Pool.EvictOldest` | src/zuh_pool.c:301-316 | the last match met on the way down is unlinked, closed, freed and counted; without a match nothing changes |
| `PoolList.Pool.CheckFork` | src/zuh_pool.c:188-206 | a tripped guard frees every entry without closing it and counts each; otherwise nothing changes |
| `PoolList.Pool.Clear` | src/zuh_pool.c:179-186 | every entry is closed, then freed, in order, and the list is empty |
| `PoolList.Pool.CountForHost` | src/zuh_pool.c:217-225 | the count of entries with equal port and, up to case, equal scheme and host |
| `PoolKey.KeyEqIsCanonicalEquality` | src/zuh_pool.c:75-96 | key equality is equality of keys with scheme and host folded: no field is ignored, it is an equivalence, and it refines the per-host grouping |
| `PoolKey.FieldsInjective` | src/zuh_engine.c:232-261 | the length-prefixed encoding of a field list is injective for all strings |
| `PoolKey.JoinFields` | src/zuh_engine.c:232-261 | the joining loop writes that encoding |
| `PoolKey.KeyDecidesIdentity` | src/zuh_engine.c:173-274 | for all pins: two requests get equal keys, with as many separators pin by pin, if and only if they agree on origin, verification, trust, pins, protocol mode and, when a proxy is in use, on its five defaulted fields |
| `PoolKey.JoinDecides` | src/zuh_engine.c:173-274 | the joined pins and the separators counted pin by pin determine the pin list |
| `PoolKey.ConfiguredKeyDecides` | src/zuh_engine.c:173-274 | with pins that hold no separator the key alone decides |
| `PoolKey.ValidPinsArePlain` | R/tls.R:63-72 | pins that can be configured hold no separator |
| `Decimal.TextValue` | src/zuh_buffer.c:80-91 | the decimal text of a number reads back as that number, in digits, without a leading zero |
| `Decimal.AppendU64` | src/zuh_buffer.c:80-91 | filling twenty characters from the back appends exactly the decimal text of any 64-bit value |
| `Decimal.ParseU64Strict` | src/zuh_framing.c:12-25 | accepts exactly the nonempty digit strings whose value fits 64 bits, and returns that value |
| `Ascii.CaseCompare` | src/zuh_headers.c:9-18 | zero exactly on equality up to ASCII case; otherwise the shorter text is the smaller, and of two as long the one with the smaller first difference |
| `NwShared.NoUseAfterFree` | src/zuh_tls_nw.c:304-329 | in every interleaving the count equals the references outstanding, at most one receive is pending, the state is freed at most once and only when no holder is left, and any action that can come next finds it allocated |
| `NwShared.ReadsAreInOrder` | src/zuh_tls_nw.c:343-484 | in every run, bytes handed to the reader are a prefix of those received; unless an append has failed nothing is missing; the end is reported only with the buffer read out (what a read does hand over: `NwShared.ReadHandsOver`) |
| `NwShared.ReadHandsOver` | src/zuh_tls_nw.c:419-484 | at any moment of any run a read hands over the oldest waiting bytes, as many as fit, so none only when none wait; then the end, if the peer has closed; and it leaves a receive outstanding while more can come |
| `NwShared.ReceiveBuffers` | src/zuh_tls_nw.c:343-440 | at any moment of any run a receive completion adds every region that fits in memory, in order, behind what waits, and sets failed and closed exactly on their causes |
| `NwShared.PhasesSettle` | src/zuh_tls_nw.c:1045-1075 | over any run set-up is never re-entered, failure never leads back to ready, and cancelled is final |
| `NwShared.CountedStep` | src/zuh_tls_nw.c:419-537 | every action keeps the count exact and the two pending counters in step with what is outstanding |
| `NwShared.EndCanHideLoss` | src/zuh_tls_nw.c:427-484 | a run that reports the end although a received byte was never delivered |
| `NwShared.EndIsTruthfulIff` | src/zuh_tls_nw.c:427-484 | in every run that reports the end, all bytes received were delivered if and only if the failure flag is clear |
| `Inflate.DeliverKeepsCaps` | src/zuh_inflate.c:133-176 | a delivery never passes the output cap, nor takes the total past the ratio's product where that applies, loses nothing when it succeeds, is refused for a limit only if the production exceeds one, and wastes at most the byte of headroom |
| `Inflate.HeadroomTellsExactly` | src/zuh_inflate.c:97-157 | whatever zlib has to say in a call: within both caps, exactly at them included, a chunk of it is delivered whole; near a cap a good delivery means that there was no more of it |
| `Inflate.AllowanceMeans` | src/zuh_inflate.c:97-131 | n more bytes are allowed exactly when the total then stays within each cap in force |
| `Inflate.OverMeans` | src/zuh_inflate.c:97-176 | a cap is passed exactly past the fixed one, or past the ratio times the input once 32 bytes are in |
| `Inflate.ClipIsWhole` | src/zuh_inflate.c:122-157 | what zlib says in one chunk is taken whole unless it passes a cap, and something is taken whenever zlib says something |
| `Inflate.MadeIsSaid` | src/zuh_inflate.c:235-292 | over any number of calls, what is put out is everything zlib said, in order, as long as that stays within the caps |
| `Inflate.ExplainedByAnswers` | src/zuh_inflate.c:235-292 | why a loop ended, in zlib's own answers: well only at the end of the stream with the input used up; for want of input only when zlib produced nothing and had used its input up or was stuck; as malformed only on an error or on input behind the end |
| `Inflate.GoesByAnswers` | src/zuh_inflate.c:235-292 | and that it did not end earlier: every call before the last left output, or input, or another gzip member to come |
| `Inflate.GuardSaysItFits` | src/zuh_inflate.c:97-116 | the division that guards the ratio's product against overflow is true exactly when the product fits |
| `Inflate.Inflater.Run` | src/zuh_inflate.c:178-293 | for any behaviour of zlib: within the caps the run makes all that zlib said, in order, and it ends where and why zlib's own answers put it, no call earlier and none later; past a cap, each call's output clipped to its window; without a call nothing was due; output stays within the output cap in every state and no run takes it past the ratio's product; the caller has all of it unless the run failed; with willing answers a run fails only past a cap or on input left after the end of the compressed stream |
| `Body.Pipe.Feed` | src/zuh_body.c:67-100 | the cap is checked before the sink sees a byte; on identity the sink gets the data or nothing, with the code each case dictates; on a coding it gets all that zlib made, and with nothing outside in the way a refusal means that a cap was passed or that input was left after the end of the compressed stream |
| `Body.BytesAreAllPieces` | src/zuh_body.c:154-163 | a stream yields, however split, all the pieces before its first end or error, in order, and ends as that says |
| `Body.Chunked.Decode` | src/zuh_response.c:177-248 | the caller gets the decoded bytes, nothing inside the trailer, and the raw bytes on malformed input; refused for the limit exactly when the decoded total passes it; refused as malformed only for a malformed chunk, a malformed trailer, or a trailer at its size limit, and exactly when one of these is the case; at the end message plus surplus is the wire, and the surplus is what the trailer did not use |
| `Body.Chunked.CollectTrailer` | src/zuh_response.c:136-175 | of n bytes collected: accepted exactly when complete and 0 < n within the limit, waiting for more exactly when n is 0 or they are incomplete and below the limit, refused exactly when malformed, past the limit, or at it without an end; at its end the trailer takes what it used and the rest is surplus |
| `Reader.BodyReader.NextBytes` | src/zuh_body.c:154-163 | the seed comes first and unbroken, then the stream, and nothing is lost or repeated |
| `Reader.BodyReader.Step` | src/zuh_body.c:165-257 | one read's worth: after every good step body + surplus + held equals seed + stream bytes and less is left to do; what is handed over is the framed prefix or what the chunk parser decoded, with the raw bytes behind it exactly when its verdict was malformed; the sink stays within the cap in failing steps too; a step that fails with nothing outside in the way does so because the wire gave out with the framing wanting more, a cap was passed or input left over, a chunk or trailer was malformed or the trailer at its limit, or the compressed stream had not ended with the framing |
| `Exchange.ReadBody` | src/zuh_body.c:259-267 | a good read leaves in the sink the framed prefix of seed and stream however these were split, or all that zlib made of it, and of a chunked body it has seen the last chunk and the end of the trailer; with nothing outside in the way a read fails for one of those reasons, with identity coding exactly when there is no framed prefix, with the code the ending dictates; a chunked body is malformed only where a verdict asked for says so or its trailer reaches the limit; a faultless coded body is accepted if and only if it is not chunked or its encoded form stays within the cap; the cap holds for every framing, coding and outcome; message + surplus is what was received |
| `Exchange.MalformedForCause` | src/zuh_response.c:136-248 | a chunked body that the wire suffices for is malformed only if one of the outside's verdicts on a chunk or on the trailer was, or the trailer bytes received reach the limit |
| `Exchange.AcceptedIff` | src/zuh_body.c:120-142 | a coded body without fault (enough wire, no malformed chunk or trailer and no trailer at its limit, a compressed stream that ends where the framing does, no cap passed by what zlib makes) is accepted if and only if it is not chunked, or its encoded form stays within the cap too |
| `Exchange.RefusedIsOver` | src/zuh_inflate.c:97-176 | a coded body that is not chunked and is refused for the limit does decode to more than a cap allows |
| `Exchange.TenBytesRefusedOnlyWhenChunked` | src/zuh_response.c:215-221 | ten bytes under a cap of ten, refused as a chunk of thirty encoded bytes and otherwise inflated whole |
| `Exchange.SinkIsDecodedIff` | src/zuh_response.c:201-206 | the sink holds what the chunk parser decoded if and only if none of the verdicts the parser was asked for was malformed, and else the raw bytes behind it |
| `Exchange.AbsorbMalformed` | src/zuh_response.c:201-206 | malformed bytes without a cap are delivered as they are and then refused |
| `Exchange.MalformedReachesTheSink` | src/zuh_response.c:201-206 | one malformed byte that is delivered and then refused |
| `Exchange.DoneIsFramed` | src/zuh_body.c:165-248 | a reader whose books balance at its end has read the framed body of the wire |
| `Reuse.ReuseOnlyWhenClean` | src/zuh_pool.c:430-470 | the verdict is reuse if and only if the exchange went well, is self-delimited and persistent by its version and Connection tokens, and left nothing over |
| `Response.ReadFinalHead` | src/zuh_engine.c:540-566 | what was received is the heads of so many interim responses, then one head that is not interim, then the seed of the body, nothing lost between them; without a final head, the parser refused what was left, or wanted more than is allowed, than memory held, or than there was, and then everything had been read |
| `H2Body.ReadFrames` | src/zuh_h2.c:548-585 | an HTTP/2 body is read whole exactly when its stream closes cleanly and, if coded, the compressed stream has ended; the sink then has all its DATA, or all that zlib made of it; with nothing outside in the way it fails only as the stream does, past a cap, on input left over, or when the compressed stream has not ended |
| `H2Body.CarriedIsAllData` | src/zuh_h2.c:192-210 | the body of a stream is the DATA before its close and the DATA that comes with it, in order and nothing behind; before a failure or an endless wait, what came until then |
| `H2Body.Session.Deliver` | src/zuh_h2.c:531-546 | what is held is handed over once, whatever the pipe says of it |
| `H2Body.Session.Cancel` | src/zuh_h2.c:619-637 | cancelling an open stream makes the connection reusable if and only if the reset went out and the session takes requests; a closed one is left as it is |
| `OpenBody.Pulled.Read` | src/zuh_engine.c:811-859 | pulled pieces extend what was delivered, never more than asked; nothing comes back for one byte or more only at the end; a pull that runs out of memory loses nothing; an error is remembered with its cause, and failed and aborted bodies keep answering with theirs |
| `OpenBody.Pulled.Settle` | src/zuh_engine.c:826-848 | a failure or the end disposes of the connection once, as reusable if and only if the body ended with no surplus and the response allowed it |
| `OpenBody.Pulled.Abort` | src/zuh_engine.c:861-870 | over HTTP/1.1, aborting disposes of a connection still held, as cancelled, and changes nothing otherwise |
| `OpenBody.Pulled.Free` | src/zuh_engine.c:890-900 | after freeing, the connection has been disposed of exactly once |
| `OpenBody.PulledIsFramed` | src/zuh_engine.c:811-859 | whatever sizes were asked for, a body that ended cleanly delivered what the buffered form leaves in its sink; one that failed with nothing outside in the way has one of the four reasons, and with identity coding exactly the code of a wire without a framed body; its connection is reused only when nothing else was received |
| `OpenFrames.PulledIsCarried` | src/zuh_engine.c:811-859 | a body pulled over HTTP/2 that ended cleanly delivered all the DATA of its stream, or all zlib made of it, and before that a prefix; it fails, with nothing outside in the way, only as its stream does or for what the body itself calls for |
| `OpenFrames.Pulled.Read` | src/zuh_engine.c:811-859 | pieces over HTTP/2 extend what was delivered, nothing comes back only at the end, and an error is remembered with its cause |
| `OpenFrames.Pulled.Settle` | src/zuh_engine.c:826-848 | an end gives the HTTP/2 connection back for reuse if and only if its session can carry another request |
| `OpenFrames.Pulled.Abort` | src/zuh_engine.c:861-870 | aborting over HTTP/2 resets the stream and gives the connection back for reuse if and only if the reset went out and the session takes requests, or the stream had closed and it does |
| `OpenFrames.Pulled.Free` | src/zuh_engine.c:890-900 | after freeing, the HTTP/2 connection has been disposed of exactly once |
| `Growth.NewCap` | src/zuh_buffer.c:7-34 | the 1.5x loop ends with room for what is needed, within the ceiling, at a reachable size, and at most half as much again as needed |
| `Growth.Bytes.GrowTo` | src/zuh_buffer.c:7-34 | contents survive; it succeeds exactly when the block is large enough or may grow and memory is there; the limit flag is set exactly when the ceiling is the reason |
| `Growth.Bytes.Append` | src/zuh_buffer.c:59-69 | all of the data or none of it is appended, with the exact condition for each |
| `Growth.Bytes.Consume` | src/zuh_buffer.c:93-98 | exactly the first n bytes go |
| `Engine.Perform` | src/zuh_engine.c:1558-1579 | for every behaviour of the outside: each connection obtained is in exactly one place, disposed of or handed to a pulled body, which is freed if the run then fails; as many are given back for reuse as exchanges were clean; a streamed source is released exactly once, by the engine or with the body it went with; at most max_redirects + 1 requests, which form a sound chain along the course the answers set; a good run ends on a hop that is no redirect to follow, whose body was read to its end unless the sink wanted no more, and the caller gets that body, within max_body |
| `Engine.PerformHops` | src/zuh_engine.c:906-1556 | the hop loop ends, sends at most max_redirects + 1 requests, starts with the caller's, its requests form a chain, each after the first is the one the answer before it called for, and none over https goes out on a connection dialled here before its handshake is done |
| `Engine.ChainPair` | src/zuh_engine.c:1438-1524 | between any two requests of a chain: no repeated record, no way back to http, no dropped body resent, no streamed body after the first, no secret header off the origin of the earlier one |
| `Engine.HeadersSent` | src/zuh_engine.c:1114-1122 | which of the caller's headers each request of a chain carries: all but Content-Length and, once two requests in succession differed in origin, all but the secret ones |
| `Engine.MovedAsCalledFor` | src/zuh_redirect.c:47-109 | a followed redirect asks for the place it names: after 303 without a body, and by GET unless the method was HEAD; after 301 or 302 by GET and without a body for a POST, and else, as after 307 and 308, with method and body unchanged; credentials stay only with the origin |
| `Engine.RulesMean` | src/zuh_engine.c:1295-1345 | a hop is followed when its status is one of five, redirects are allowed and it names a place; its body may then be 64 KiB, and else the caller's limit or 16 MiB; a body is pulled when the caller wants that, has no sink, and the hop is not followed |
| `Engine.RunHop` | src/zuh_engine.c:1015-1417 | a hop gets to its response exactly when proxy, connection, protocol, every part of the request, sending and room for the head allow it; whichever of its steps fails, its connection is disposed of once or handed over; the report on its exchange is truthful, and is what the connection is given back with; the source goes along exactly with an HTTP/2 hand-over |
| `Engine.ReachesMeans` | src/zuh_engine.c:1010-1225 | what it takes to be waiting for a response, in full: over https a connection dialled here has been through its tunnel and its handshake; the protocol asked for; every part of the request built; the request sent and room for the head |
| `Engine.Reach` | src/zuh_engine.c:1010-1225 | the way to the response: a connection in hand with the request on it exactly when every step goes well, else neither |
| `Engine.OpenStream` | src/zuh_engine.c:413-535 | pool, backend or TCP with tunnel and TLS: exactly when opening succeeds, over https dialled here only behind a good handshake, and nothing half-open left when it does not |
| `Engine.ChooseProtocol` | src/zuh_engine.c:692-723 | which protocol is spoken and when none can be; a connection that cannot is closed |
| `Engine.Prepare` | src/zuh_engine.c:1025-1180 | the request goes on exactly when every part it needs can be built; the first that cannot decides the error, and closes the connection |
| `Engine.Receive` | src/zuh_engine.c:1217-1411 | an HTTP/1.1 connection is judged reusable if and only if the body was read whole and the exchange left it in step, and then the bytes received are exactly the heads and the message; an HTTP/2 one if and only if the body was read whole and the session takes requests, or, when the sink stopped, only if it does after the reset; the body is the framed one, within the cap; and with nothing outside in the way and a cap that leaves it alone an identity body is read whole exactly when the wire has one, and otherwise fails with the code the wire dictates |
| `Engine.Exchange1` | src/zuh_engine.c:1270-1370 | heads, framing and body over HTTP/1.1: no answer only for want of a head or a framing; what was received is heads + message + surplus; the body of a good read is all that was framed or, exactly when decoding is wanted and there is a coded body, all that zlib made of it; with identity coding it is the framed one behind the heads, or the code that of a wire without one; any other failure of a calm read is one of the reader's; within the cap whatever the outcome |
| `Engine.Exchange2` | src/zuh_engine.c:1234-1262 | an HTTP/2 response: a good one has closed cleanly and has all the DATA of its stream as its body or, exactly when decoding is wanted and there is a coded body, all that zlib made of it; with identity coding, nothing outside in the way and DATA within the cap, the outcome is that of the stream; within the cap whatever the outcome |
| `Engine.Judge2` | src/zuh_engine.c:1379-1410 | the exact verdict on an HTTP/2 connection, after its body or after the reset for a sink that stopped; a body too long or broken off is forgiven on a redirect to be followed (that it is forgiven nowhere else: `Engine.Perform`) |
| `Engine.Follow` | src/zuh_engine.c:1438-1524 | a redirect is followed exactly when the policy allows it, the body can be replayed or dropped, the host fits and the record is new; which cause each error has; the next request is the one its status calls for and relates as promised to all before it |
| `Engine.LeadsOn` | src/zuh_redirect.c:47-109 | a redirect that is followed keeps every relation to the requests before it: never from https to http, a dropped body stays dropped, credentials only while the origin is the same |
| `Engine.CarryHeaders` | src/zuh_engine.c:1114-1122 | the caller's headers in order: each of them if and only if it is not Content-Length and not, once stripped, a secret one |
| `Engine.NoRequestTwice` | src/zuh_redirect.c:143-164 | no two requests of a run agree on method, origin and target, however a default port is written |
| `Engine.SecretsStayHome` | src/zuh_engine.c:1114-1122 | a request that carries a secret caller header goes to the first request's origin, and so did every request before it |
| `Uri.SameOriginIsEquivalence` | src/zuh_uri.c:50-59 | reflexive, symmetric and transitive, default ports included |
| `Uri.SameOriginMeans` | src/zuh_uri.c:43-59 | of parsed addresses: same scheme, host and port, where no port means 443 for https and 80 for http |
| `Uri.OriginFits` | src/zuh_uri.c:61-71 | a host within the length check never truncates the origin text |
| `Uri.SameRequestSameKey` | src/zuh_redirect.c:123-141 | requests for one resource have one record |
| `Uri.TrailKeyDecides` | src/zuh_redirect.c:123-141 | equal records with agreement on writing a port, if and only if equal method, origin and target |
| `Uri.NamedHostsNeverCollide` | src/zuh_uri.c:61-71 | for hosts without a colon the record alone decides |
| `Uri.LiteralsCanCollide` | src/zuh_uri.c:61-71 | two IPv6 servers with one record |
| `Headers.SectionReadsOneWay` | src/zuh_headers.c:241-250 | no valid field can smuggle in another: a written header section and its blank line determine the fields, their order and what follows |
| `Headers.ValidMeans` | src/zuh_headers.c:25-58 | a valid name has no colon, space or line break; a valid value has no CR, LF or NUL |
| `Headers.ValueValidMeans` | src/zuh_headers.c:46-58 | a value is valid if and only if it is tabs, printable ASCII and bytes above it |
| `Headers.List.Add` | src/zuh_headers.c:132-164 | a field enters exactly when it is valid and keeps every limit; the running total is always the size on the wire; a refusal changes nothing |
| `Headers.AdmitsMeans` | src/zuh_headers.c:132-164 | the limits in numbers: each counts only when set, and may be reached but not passed |
| `Headers.List.Remove` | src/zuh_headers.c:171-189 | exactly the fields of that name, in any case, leave; the others keep their order and the total follows |
| `Headers.List.Set` | src/zuh_headers.c:191-199 | added if and only if valid, within every limit of the list without that name, and memory suffices; after a refusal the list is unchanged if and only if the field was malformed or there was none of that name |
| `Headers.RefusedValueCostsTheOld` | src/zuh_headers.c:191-199 | a value over a limit that is refused and costs the one it was to replace |
| `Headers.StripCredentials` | src/zuh_redirect.c:25-45 | when the loop ends, which is when secret names fit the copy, it leaves exactly the fields that are not secret, in order |
| `Headers.StripEndsIff` | src/zuh_redirect.c:25-45 | the loop ends if and only if every secret name fits the copy |
| `Headers.LongSecretNeverEnds` | src/zuh_redirect.c:25-45 | a list on which it does not end |
| `H2Send.Provider.BodySource` | src/zuh_h2.c:214-255 | a chunk within the window extends what was sent; the end is signalled if and only if the whole body is out and a source has ended; an ended source is not asked again; progress whenever the window is open |
| `H2Send.Provider.OwnBody` | src/zuh_h2.c:587-606 | taking the body over changes nothing about what is still to be sent, and leaves none of it on loan unless memory ran out |
| `H2Send.Drive` | src/zuh_h2.c:214-255 | for every sequence of windows, split into pieces and change of ownership, the chunks concatenate to a prefix of the request body, to all of it at the end, and the count sent is their length |
| `H2Recv.CreditIsConservedIff` | src/zuh_h2.c:531-577 | on every run no byte is credited twice, and credit returned plus bytes held equals DATA accepted if and only if each request found the buffer empty |
| `H2Recv.WindowComesBack` | src/zuh_h2.c:531-546 | handing the buffer over, or cancelling an open stream, empties it and gives back the window of all it held, on the stream's level too while that is open; where requests found it empty all the window is then back |
| `H2Recv.AllIsAccepted` | src/zuh_h2.c:192-200 | a connection that has not failed has accepted every DATA byte sent to it, and holds no more than its buffer |
| `H2Recv.FailsForCause` | src/zuh_h2.c:192-200 | receiving fails exactly for want of memory or of room in the buffer, cancelling exactly when the reset does not go out |
| `H2Recv.AbortAfterCloseLosesWindow` | src/zuh_h2.c:619-637 | a run on which window is lost |
| `Chunks.RoundTrip` | src/zuh_engine.c:1198-1216 | what is written for a source decodes, per section 7.1 of RFC 9112, to its pieces concatenated, and the decoder stops exactly where the body does whatever follows |
| `Chunks.CutShortIsSeen` | src/zuh_engine.c:1198-1216 | no proper prefix of a written body decodes as a whole one |
| `Chunks.WriteBody` | src/zuh_engine.c:1198-1216 | the writing loop succeeds exactly when the source ends and the stream takes every byte; what is on the wire is always a prefix, and decodes to the body if and only if it succeeded |
| `Chunks.HexNumber` | src/zuh_engine.c:1205-1207 | the hexadecimal text of a number reads back as that number, without a leading zero |
| `Chunks.SizeLineIsTrueIff` | src/zuh_engine.c:1205-1207 | the size printed is the length if and only if the length fits the cast |
| `Chunks.OverlongPieceEndsTheBody` | src/zuh_engine.c:1205-1207 | a piece as long as the type's range is read as the end of the body |
| `Utf8.Valid` | src/zuh_headers.c:60-84 | accepts exactly the byte strings that encode some sequence of Unicode scalar values |
| `Utf8.ValidStep` | src/zuh_headers.c:60-84 | validity is decided character by character from the lead byte's length and range |
| `Trace.CopyDetail` | src/zuh_trace.c:56-73 | the slot holds the specified text, terminated, for every capacity and for no text at all |
| `Trace.DetailIsHonest` | src/zuh_trace.c:56-73 | valid text stays valid and fits: the whole, nothing when the mark cannot fit, or the longest run of whole characters that leaves room for the mark, and the mark |
| `Trace.BoundaryIff` | src/zuh_trace.c:56-73 | in valid text a cut leaves a valid prefix if and only if the byte after it does not continue a character |
| `Redact.IsSecretParam` | src/zuh_redact.c:86-108 | secret if and only if the name, as written or as percent-decoded within 128 bytes, is listed |
| `Redact.SecretHeaders` | src/zuh_redact.c:6-65 | a header is secret if and only if its name is one of six or a configured one, in any case |
| `Redact.DecodeUndoesSpelling` | src/zuh_redact.c:86-108 | percent-decoding gives a name back whichever of its characters were escaped, and in whatever case |
| `Redact.EscapedNameIsSecret` | src/zuh_redact.c:86-108 | so no listed name of up to 128 characters hides behind escapes |
| `Redact.RedactQueryLoop` | src/zuh_redact.c:110-132 | the loop rewrites each segment on its own and keeps each separator |
| `Redact.SplitJoin` | src/zuh_redact.c:110-132 | a query is its segments and separators and nothing more |
| `Redact.RedactedQueryShape` | src/zuh_redact.c:110-132 | read back, a redacted query has the original separators and the redacted segments, one for one |
| `Redact.QueryIdempotent` | src/zuh_redact.c:110-132 | redacting a query twice is redacting it once |
| `RedactUrl.RedactUrlText` | src/zuh_redact.c:134-201 | the scanning code computes the specified redaction for every text |
| `RedactUrl.UrlParts` | src/zuh_redact.c:134-201 | read back, a redacted URL is the original part by part, less its userinfo and with only its query changed |
| `RedactUrl.UrlAsWritten` | src/zuh_redact.c:134-201 | a URL written out as scheme, userinfo, host and rest comes back as scheme, host and the redacted rest |
| `RedactUrl.PlainUrlAsWritten` | src/zuh_redact.c:134-201 | and without userinfo its host comes back whole |
| `RedactUrl.RestAsWritten` | src/zuh_redact.c:134-201 | path, query and fragment written out come back as the path, the redacted query and the fragment |
| `RedactUrl.UrlIdempotent` | src/zuh_redact.c:134-201 | redacting a URL twice is redacting it once, for every text and policy |
| `RedactUrl.NoUserinfoSurvives` | src/zuh_redact.c:134-201 | no at sign is left in an anchored authority |
| `RedactUrl.SecretsAreMarked` | src/zuh_redact.c:134-201 | every parameter with a secret name has exactly the marker as its value; every other segment, every separator, the path and the fragment are the original ones |

## Left out

- `Inflate.Inflater.Run`: the ratio bounds a run once 32 bytes are in and the product fits; what came out before stays out.
- Sockets, name resolution, TLS, certificates, proxies' handshakes, clocks and polling: their results are inputs.
- zlib, nghttp2, picohttpparser and uriparser: any answers within what they were offered; zlib may answer finitely often per run.
- The per-chunk limit of the chunk decoder, which the body reader never sets, and allocation failure of its trailer buffer.
- `zuh_framing_decide` and `header_has_token`: the framing and the Connection tokens are inputs to the body and reuse models; they would add branching, not state.
- Response head parsing, the content of what request building adds, cookies, proxies and digest details.
- File sinks and their rename, the R interface, error texts, trace rendering and `zuh_trace_add_at`.
- 64-bit wrap-around of byte counters other than the inflater's input total: they are unbounded here, and would need 2^64 bytes.
- Allocation failure where it only aborts an operation before it changes anything, such as key building and trail growth; where it matters it is an input.
- Stale-probe details (timeouts, pings): a probe passes or fails as the environment says, and may release streams while it runs, but not acquire, clear or check for a fork.
- The pool's `stats.idle`, a copy of the list length made when statistics are read.
- Release functions a connection's protocol layers call on each other; a connection is disposed of as one thing.
- The macOS backend's trust evaluation, establishment report contents, capacity doubling of its receive buffer, and the process that forks with a live connection.
- The shared state of the macOS backend and the HTTP/2 receive credit are machines over values: the mutex and the C fields as memory are not modelled.
- HTTP/2 frames, header blocks, pings and GOAWAY; of the driver, only the request body and receive credit.
- `Engine.RunHop`: a request's own bytes going out over HTTP/1.1 are one step that succeeds or fails (`Chunks.WriteBody` has them for a streamed body), and a hand-over is not tied to the two classes of pulled bodies.
- `Engine.Receive`: for a sink that stopped over HTTP/2 it says only that the session must still take requests; `Engine.Judge2` has the exact verdict.
- `Redact.IsSecretParam`: a name whose decoded form is longer than 128 bytes is judged as written only, as in the code.
- `Headers.StripCredentials`: assumes that secret names fit the 256-byte copy, without which the loop does not end (`Headers.StripEndsIff`).
- `PoolAcquire.AcquiredWasReleasedAlike`: assumes pins without the separator, as the R layer requires of them.
- `Chunks.RoundTrip`: assumes lengths that fit an unsigned long, without which it is false.
- `Uri.TrailKeyDecides`: assumes methods without spaces, hosts without slashes and targets that start with one, as the request builder and parser ensure.
