# Doppel, modelled and verified

Doppel is a proxy whose upstream connections look like a chosen browser's. This project models
the protocol machines it implements by hand and proves what they promise, for every input,
every run and every interleaving.

`dafny verify dfyconfig.toml` checks all of it.

## What is modelled

- **The HTTP/2 client connection.** `H2Stream` is the life of one stream as a transition
  system: the caller blocked in `RoundTrip`, its two one-slot channels, its body pipe, and the
  read loop's work on it. `H2Conn` is the shared connection: id allocation, the stream map,
  `closed`, the read loop and the log of frames written. Each region under the connection's lock
  is one step, and what a goroutine does after leaving the lock is owed until performed, so
  everything else can happen in between. `H2Projection` shows that sharing is invisible to a
  stream, which lifts the single-stream theorems to connections. `H2Effects`, `H2Response`,
  `H2Fate` and `H2ConnLaws` say what every event does: how every stream ends, which response
  and which error its caller gets, what closes the connection. `RequestMeaning` says what the
  peer is told of a request. `H2Lifecycle`, `H2Credit`, `H2StreamCredit`,
  `H2Wire` and `Hpack` hold the laws about ids, closing, flow-control credit, the outgoing wire
  and header compression (RFC 7541, with an arbitrary indexing strategy); `H2EndToEnd` puts them
  together, from the callers' requests to what the peer reads. `H2Client` is the connection as
  an object with mutable fields. Its methods state the model's new state as a function of the
  old, and `H2Runs` shows for every operation of a caller or of the read loop that this is a run
  of the transition system; `Take`, `RemoveStream`, `FailStream`, `FailAllStreams` and
  `HandleHeaders` are the parts those operations are made of.
- **The connection pool** (`Pool`, `PoolSafety`, `PoolLaws`, `PoolClose`): lookup, adoption, eviction and
  closing by any number of concurrent requests, and where every dialled connection ends up.
- **Both ends of SOCKS5** (`Socks5`, `Socks5Laws`, `Socks5Compose`, `Socks5Io`, `Socks5Text`): two byte machines
  written independently, run against each other over a network that fragments and delays, and
  what becomes of the target's text.
- **The leaf certificate cache** (`LeafCache`, `HostPort`).
- **Header order and serialisation** (`HeaderOrder`, `FieldList`, `Http1`, `Http1Parse`): the
  sort from an unordered map, the HTTP/2 field list, and the HTTP/1.1 printer with a parser
  written from RFC 9112 as its inverse.
- **Host patterns** (`Patterns`) and **profile tables** (`Profiles`).

Map iteration order, goroutine scheduling, write failures, what the peer sends and when a
reader reads are arbitrary everywhere.

## Where the code falls short of a promise

Each is proved with its exact condition, and the model keeps the code's behaviour.

- A caller can be left waiting: END_STREAM processed before a response or an error was given
  (`H2Stream.BecomesLostIff`, `H2Projection.LossOnConnIff`,
  `H2Projection.UnansweredEndLosesCaller`).
- Ids are unique for exactly 2^31 allocations and acceptable to the framer for the first 2^30
  of them (`H2Lifecycle.NoReuseIff`, `H2Lifecycle.IdUsableIff`).
- A connection increment above 2147418112 that the framer still accepts pushes the peer's window
  past 2^31-1; profile loading does not refuse one (`H2Credit.WindowSafeIff`,
  `H2Credit.SmallestUnsafe`). An announced initial window above 2^31-1 is not refused either
  (`H2StreamCredit.StreamWindowsSafeIff`).
- Header order depends on map iteration when two keys spell one ranked name differently
  (`HeaderOrder.DeterministicIffNoTies`).
- The HTTP/1.1 printer checks nothing it prints, and its framing is wrong when a header passed
  in, under another spelling or without a body, contradicts its own (`Http1Parse.RoundTripIff`,
  `Http1Parse.RivalLengthBreaksFraming`). The HTTP/2 field list has the same weakness
  (`FieldList.AnnouncedLengthIff`), and lets a header key pose as a pseudo-header
  (`FieldList.PseudoBeforeRegularIff`).
- A bare host is cached under another key than the same host with a port when it contains
  brackets, as the address literal `[::1]` does, or exactly one colon
  (`HostPort.NormalizeForgetsPortIff`, `HostPort.LoopbackHasTwoKeys`).
- A second header block without `:status`, as real trailers are, breaks a body that is otherwise
  complete (`H2Fate.CleanEndIff`).
- `<local>` compares the host without folding case, unlike every other pattern
  (`Patterns.CaseMattersIff`).
- Closing the round tripper misses connections that requests in progress have yet to adopt or to
  dial (`PoolClose.CloseMissesIff`, `PoolClose.AdoptionOutlivesClose`).

Code and documentation disagree in one place that the model touches:
`internal/profile/profile.go:61-62` says that a zero `ConnectionWindowUpdate` means no
WINDOW_UPDATE, while `internal/upstream/h2profile.go:55-60` sends 1073741824; the model follows
the code.

## Model

| member | source | states |
|---|---|---|
| Hpack.RestartSoundIffCapacity | internal/upstream/h2client.go:150-164 | restarting the encoder for every block is sound, for every request sequence and every indexing choice, if and only if the decoder's table is at least as large as the encoder's (or the encoder's is below 32 octets and holds nothing) |
| Hpack.RestartedBlocksDecode | internal/upstream/h2client.go:150-164 | a decoder whose table persists across blocks, whatever it holds at the start, decodes block k to exactly request k's fields |
| Hpack.BlockDecodes | internal/upstream/h2client.go:150-164 | one block decodes to its fields while the encoder's table is a newest-first prefix of the decoder's, and leaves it one |
| Hpack.InsertKeepsPrefix | internal/upstream/h2client.go:152 | an insertion with its evictions on both sides keeps the encoder's table a prefix of the decoder's |
| Hpack.EvictIsLongestFit | internal/upstream/h2client.go:152 | eviction (section 4.3 of RFC 7541) leaves the longest prefix that fits |
| Hpack.SmallDecoderFails | internal/upstream/h2client.go:152 | with a smaller decoder table some request sequence and some indexing choices decode wrongly |
| Hpack.KeptEncoderFailsAfterUnsentBlock | internal/upstream/h2client.go:126-134 | why the restart is needed: an encoder kept after a block that was never sent produces a block the peer cannot decode |
| Hpack.ResponsesReadableIff | internal/upstream/h2client.go:39-40 | the client's decoder reads every response header block of a peer that keeps its encoder, whatever the indexing, if and only if that encoder's table holds at most 2^20 octets |
| Hpack.BlocksInTurnDecode | internal/upstream/h2client.go:39-40 | a decoder that sees every block keeps up with an encoder that keeps its table |
| Hpack.OnlyIncrementalInserts | internal/upstream/h2client.go:152 | only a literal with incremental indexing changes a table, alike on both sides |
| H2Wire.DataFrameShape | internal/upstream/h2client.go:135-146 | every DATA frame of a request but the last carries 16384 octets, the last 1 to 16384, all under the request's id, and only the last ends the stream |
| H2Wire.DataFrames | internal/upstream/h2client.go:135-146 | a body of n octets takes n / 16384 DATA frames, rounded up |
| H2Wire.OneEndStream | internal/upstream/h2client.go:131-146 | exactly one frame of a request carries END_STREAM: its last |
| H2Wire.ParseInvertsWire | internal/upstream/h2client.go:116-148 | a strict reassembler reads the shared wire back as the writes made, in order, each request whole, or cut where its write failed |
| H2Wire.CollectWhole | internal/upstream/h2client.go:135-146 | collecting DATA behind HEADERS gives the body whole and stops at its last frame |
| H2Wire.CollectCut | internal/upstream/h2client.go:142-145 | a write that fails after n DATA frames leaves exactly the first n chunks and no END_STREAM |
| H2Wire.PeerRecoversFieldLists | internal/upstream/h2client.go:116-164 | the blocks found on the wire decode, with one persistent table, to the field lists of the requests that were written |
| H2Stream.EofOnlyAfterEndStream | internal/upstream/h2client_response.go:60-101 | truncation is never a clean end: in every run of one stream, an open body shows end-of-file only after END_STREAM was processed, and its reader has then read exactly the DATA payloads in order |
| H2Stream.OtherEndsAreErrors | internal/upstream/h2client_response.go:93-131 | every other way to lose the stream leaves an error on the open body's pipe, or work owed that will |
| H2Stream.EndIsFinal | internal/upstream/h2client_response.go:99-130 | the first close of a pipe is the one its reader sees, whatever happens later |
| H2Stream.NoWaiterLost | internal/upstream/h2client.go:67-91 | with a peer that sends :status before it ends the stream, a caller blocked in RoundTrip is in the map, or has a response or an error in its channels, or is held by a goroutine about to signal it |
| H2Stream.PeerAnswersFirst | internal/upstream/h2client_response.go:60-101 | with such a peer, END_STREAM always finds the response delivered, and no caller is lost in any run |
| H2Stream.BecomesLostIff | internal/upstream/h2client_response.go:60-101 | exact condition: a step loses a waiting caller if and only if it processes END_STREAM for one that has been given neither a response nor an error |
| H2Stream.LostStays | internal/upstream/h2client.go:80-90 | once lost, only the caller's own context wakes it |
| H2Stream.UnansweredEndLosesCaller | internal/upstream/h2client_response.go:78-80 | the concrete exchange: empty DATA with END_STREAM as the only answer loses the caller |
| H2Stream.StepKeepsInv | internal/upstream/h2client_response.go:17-131 | every step of every goroutine keeps: the pipe holds fed minus read octets, a clean close only after END_STREAM, an error pending wherever a stream was taken away |
| H2Stream.RunKeepsHistory | internal/upstream/h2client_response.go:17-131 | over every run the octets fed to the pipe are those that arrived since the request, and END_STREAM is what finished a finished stream |
| H2Stream.FailNowSettles | internal/upstream/h2client_response.go:125-131 | failing a stream is the same whether its two pieces of work run at once or other goroutines run around them |
| H2Effects.EventsTakeEffect | internal/upstream/h2client_response.go:60-131 | over every run: once a frame with END_STREAM has arrived and readLoop is done with it, the stream is registered no longer; so after a refused payload, and at once after a reset, GOAWAY, read error or Close; a caller that left or closed its body is registered no longer, and a body refuses data exactly once closed |
| H2Effects.EndFinishes | internal/upstream/h2client_response.go:60-101 | if the stream was registered when the frame arrived, its payload was taken whole and nothing else took it out, END_STREAM is what finished it |
| H2Effects.EventsTakeEffectOnConn | internal/upstream/h2client_response.go:60-131 | the same between frames of a shared connection |
| H2Effects.EndFinishesOnConn | internal/upstream/h2client_response.go:60-101 | the same on a shared connection |
| H2Effects.ErrorsHaveCauses | internal/upstream/h2client_response.go:33-36 | every error a caller gets, from RoundTrip or its body, is the reason of an event of its own stream: that code's reset or GOAWAY, a read error, Close, a block without :status, its own cancellation or failed write |
| H2Effects.ErrorsHaveCausesOnConn | internal/upstream/h2client_response.go:103-131 | the same on a shared connection |
| H2Effects.FirstErrorStays | internal/upstream/h2client_response.go:125-129 | the first error offered stays until the caller takes it |
| H2Effects.TakesTheError | internal/upstream/h2client.go:84-86 | and that is the error it leaves with |
| H2Response.CallerGetsResponse | internal/upstream/h2client_response.go:17-54 | over every run, the response a caller holds is that of the first block with a status since its request: the number its last :status field says, and exactly the block's non-pseudo fields, in order |
| H2Response.CallerGetsResponseOnConn | internal/upstream/h2client_response.go:17-54 | the same for every caller of a shared connection |
| H2Response.StatusSaid | internal/upstream/h2client_response.go:22-28 | the status is the number written in the last :status field |
| H2Response.NoStatusSaid | internal/upstream/h2client_response.go:22-28 | without such a field it is 0 |
| H2Response.NumberRead | internal/upstream/h2client_response.go:26 | every number, signed or not, is read as written |
| H2Response.NoNumberRead | internal/upstream/h2client_response.go:26 | anything else reads as 0 |
| H2Response.RegularSelects | internal/upstream/h2client_response.go:23-32 | the headers are the fields at exactly the positions that hold no pseudo-header, in order |
| H2Response.NotFoundIsDelivered | internal/upstream/h2client_response.go:22-28 | a 404 is a 404 |
| H2Response.ExchangeCompletes | internal/upstream/h2client_response.go:17-101 | progress: a peer that answers with any status and any body can leave its caller with that status, those headers and exactly that body, ended by end-of-file |
| H2Fate.CleanEndIff | internal/upstream/h2client_response.go:17-131 | the converse and more: a stream that END_STREAM finished ends in end-of-file, or is about to, if and only if no reset, GOAWAY, read error, Close or block without :status came between request and END_STREAM; otherwise its pipe is broken |
| H2Fate.CleanEndOnConnIff | internal/upstream/h2client_response.go:17-131 | the same for every stream of a shared connection, in every interleaving |
| H2Fate.RunKeepsFate | internal/upstream/h2client_response.go:17-131 | in every reachable state a registered stream's pipe is broken exactly when something has failed the stream |
| H2Fate.IdleOwesNoStatus | internal/upstream/h2client_response.go:33-36 | readLoop goes on only when a block without :status has been signalled in full |
| H2Conn.StepKeepsInv | internal/upstream/h2client.go:116-200 | every step keeps the connection invariant: closed implies no registered stream, registered ids are those allocated and name their own stream, the log is well formed |
| H2ConnLaws.ClosesIff | internal/upstream/h2client_response.go:113-117 | a step closes the connection exactly if it is Close, a read error or GOAWAY, and a closed one has no stream registered |
| H2ConnLaws.ClosedIff | internal/upstream/h2client_response.go:113-117 | in every run the connection is closed exactly if one of them has happened |
| H2ConnLaws.ReadFailStops | internal/upstream/h2client.go:168-172 | after a failed read no frame is taken |
| H2ConnLaws.AnswersOnArrival | internal/upstream/h2client.go:174-181 | a PING is answered with its own payload, SETTINGS with one acknowledgement, nothing else is answered on arrival, and nothing once closed |
| H2ConnLaws.RequestRegisters | internal/upstream/h2client.go:116-148 | a request written whole waits under the next id; another leaves only its frames |
| H2ConnLaws.OpenedMeans | internal/upstream/h2client.go:37-65 | which profiles open a connection, and the three frames with which it opens |
| H2Projection.RunProjects | internal/upstream/h2client.go:166-192 | non-interference: in every interleaving of frames, callers and teardown on any number of streams, each stream ends up exactly as the single-stream machine does on that stream's own steps |
| H2Projection.StepProjects | internal/upstream/h2client_response.go:17-123 | one shared step is the stream's own step, or invisible to it |
| H2Projection.NoWaiterLostOnConn | internal/upstream/h2client.go:67-114 | no waiter is lost on a shared connection, through END_STREAM, reset, GOAWAY, read error and Close |
| H2Projection.EofOnConn | internal/upstream/h2client_response.go:60-101 | on a shared connection too, end-of-file means END_STREAM and the whole body |
| H2Projection.RunKeepsInv | internal/upstream/h2client.go:116-200 | the connection invariant in every reachable state |
| H2Projection.LossOnConnIff | internal/upstream/h2client_response.go:60-101 | on a shared connection a step loses a caller if and only if it ends that caller's stream unanswered |
| H2Projection.UnansweredEndLosesCaller | internal/upstream/h2client_response.go:78-80 | the concrete run on a new connection that loses its caller |
| H2Lifecycle.ClosedForever | internal/upstream/h2client_response.go:113-123 | closed never reverts; after it no stream is registered and nothing reaches the wire |
| H2Lifecycle.NoReuseIff | internal/upstream/h2client.go:122-123 | ids do not repeat (section 5.1.1 of RFC 7540) among the first n allocations if and only if n <= 2^31 |
| H2Lifecycle.IdsRepeatIff | internal/upstream/h2client.go:122-123 | two allocations get the same id if and only if they are a multiple of 2^31 apart |
| H2Lifecycle.IdUsableIff | internal/upstream/h2client.go:122-133 | every id is odd, and is one the framer accepts exactly in the first 2^30 of every 2^31 allocations |
| H2Lifecycle.HeaderIdsRise | internal/upstream/h2client.go:116-148 | HEADERS on the wire carry odd, strictly increasing ids below 2^31 |
| H2Lifecycle.PeerReadsRequests | internal/upstream/h2client.go:116-164 | end to end, over every run: the peer reads from the shared wire exactly the requests made, in the order of the lock, and decodes every block it got to that request's own field list |
| H2Lifecycle.RunLog | internal/upstream/h2client.go:116-148 | the request entries of the wire log are the run's requests, in order, with ids by allocation order |
| H2EndToEnd.PeerReadsOriginals | internal/upstream/h2client.go:67-164 | from the callers' own requests, over every run: the peer of the shared connection decodes, in order, of each request whose HEADERS got out, a field list that says that request, with its body whole, or a prefix where a write failed |
| H2EndToEnd.RunCarriesMore | internal/upstream/h2client.go:116-164 | runs whose requests are all made by SendRequest satisfy the hypothesis of that theorem |
| H2EndToEnd.AllSent | internal/upstream/h2client.go:131-147 | when no HEADERS write fails, no request is missing |
| RequestMeaning.FieldListSays | internal/upstream/h2client.go:150-164 | every field list of a request says that request: its own method, scheme, path and authority where not empty, each once, and then exactly its headers' values, none repeated, lost or torn from its key |
| RequestMeaning.PseudoFieldsMean | internal/upstream/h2client_response.go:133-153 | the pseudo-headers are the request's own method, scheme, path, and its host or else its URL's, each if not empty |
| RequestMeaning.WireHeadersMean | internal/upstream/h2client_response.go:155-166 | which header keys are sent: all but Host and Connection in any spelling, with the caller's values except for a body's Content-Length |
| RequestMeaning.RegularFieldsMean | internal/upstream/h2client_response.go:166-190 | the regular fields are those values under lower-case names, key by key, in order and number |
| RequestMeaning.DefaultPseudoOrder | internal/upstream/h2profile.go:62-67 | without an order in the profile: method, authority, scheme, path |
| H2Credit.CreditConserved | internal/upstream/h2client_response.go:65-77 | between frames of an open connection whose control writes all got out: connection credit returned equals the sum of stream credits equals octets accepted by the pipes, stream by stream too |
| H2Credit.CreditNeverExceedsReceived | internal/upstream/h2client_response.go:65-77 | in every run, with or without failed writes, stream credit is at most connection credit, which is at most octets accepted, which is at most octets received |
| H2Credit.StreamCreditIsBytesRead | internal/upstream/h2client_response.go:65-77 | the credit a stream has got back is the number of octets its reader has read |
| H2Credit.RunKeepsCredit | internal/upstream/h2client_response.go:65-77 | the credit invariant at every step, also inside a handler |
| H2Credit.WindowBound | internal/upstream/h2client.go:57-61 | the peer's connection window never exceeds 65535 plus the initial increment |
| H2Credit.WindowSafeIff | internal/upstream/h2client.go:57-61 | no run of a connection opened with this profile value can push the peer's window above 2^31-1 (section 6.9.1 of RFC 7540) if and only if the value is at most 2147418112 (0 standing for the default), or above 2147483647, where the framer refuses it and there is no connection |
| H2Credit.SmallestUnsafe | internal/upstream/h2client.go:57-61 | the witness: a connection opens with 2147418113 and its peer's window overflows |
| H2StreamCredit.StreamCreditBounded | internal/upstream/h2client_response.go:65-77 | in every run, also after failed writes and closing: no stream gets more credit than its pipe accepted, nor accepts more than was received for it |
| H2StreamCredit.StreamWindowBound | internal/upstream/h2client_response.go:65-77 | the peer's window for a stream never exceeds the announced initial window |
| H2StreamCredit.StreamWindowsSafeIff | internal/upstream/h2profile.go:12-25 | no run can push a stream window of the peer above 2^31-1 (section 6.9.2 of RFC 7540) if and only if the announced SETTINGS_INITIAL_WINDOW_SIZE is at most that |
| H2StreamCredit.SmallestUnsafeSetting | internal/upstream/h2profile.go:12-25 | the witness: a profile may announce 2^31 |
| H2StreamCredit.NoEmptyCredit | internal/upstream/h2client_response.go:65-77 | no WINDOW_UPDATE grants nothing |
| H2Client.H2ClientConn.WriteRequestFrames | internal/upstream/h2client.go:116-148 | refines the locked region of writeRequest: id, map, wire and result, for a transport that fails after any number of frames |
| H2Client.H2ClientConn.WriteFrames | internal/upstream/h2client.go:194-200 | refines writeControl, silent once closed |
| H2Client.H2ClientConn.Close | internal/upstream/h2client.go:99-114 | refines Close, idempotent |
| H2Client.H2ClientConn.CanTakeNewRequest | internal/upstream/h2client.go:93-97 | not closed |
| H2Client.H2ClientConn.Take | internal/upstream/h2client_response.go:93-97 | refines the locked region of removeStream |
| H2Client.H2ClientConn.FailStream | internal/upstream/h2client_response.go:103-111 | refines failStream |
| H2Client.H2Stream.Fail | internal/upstream/h2client_response.go:125-131 | the first error stays on the channel and the first reason on the pipe |
| H2Client.FailEach | internal/upstream/h2client_response.go:119-121 | the loop fails every taken stream, in whatever order the map gives them |
| H2Client.EmitRequest | internal/upstream/h2client.go:131-146 | the loop shrinking the body emits a prefix of the request's frames, all of them when nothing fails |
| H2Client.ReadBlock | internal/upstream/h2client_response.go:22-32 | status is the last :status field's number, the headers are the fields that are not pseudo-headers |
| H2Client.HeaderBlock | internal/upstream/h2client.go:150-164 | the block is an encoding of pseudo then regular fields from an empty table, whatever the indexing strategy |
| H2Client.OpenWire | internal/upstream/h2client.go:49-62 | what the handshake puts on the wire, in order |
| H2Client.Connect | internal/upstream/h2client.go:37-65 | newH2ClientConn: fails for an unknown setting, a refused increment or a failed write, closes the transport exactly when it fails, and states what reached the wire; otherwise the connection starts in the opening state |
| H2Client.H2ClientConn.SendRequest | internal/upstream/h2client.go:67-78 | RoundTrip until the request is written: a field list of the request, its encoding from an empty table, and the frames, together one step of the transition system |
| H2Client.H2ClientConn.LeaveRoundTrip | internal/upstream/h2client.go:84-89 | the error branches of RoundTrip remove the stream |
| H2Client.H2ClientConn.CloseBody | internal/upstream/h2client_response.go:218-222 | h2Body.Close: the reading side closed, then the stream removed |
| H2Client.H2ClientConn.Dispatch | internal/upstream/h2client.go:166-192 | readLoop hands each frame to its handler |
| H2Client.H2ClientConn.StopReading | internal/upstream/h2client.go:168-172 | readLoop after a failed read: closed, and every registered stream failed |
| H2Client.H2ClientConn.HandleHeaders | internal/upstream/h2client_response.go:17-58 | refines handleHeaders: a block with :status becomes the response, or the trailers while a response still waits in its slot; one without fails the stream, which stays registered; END_STREAM after a status ends it |
| H2Client.H2Stream.Push | internal/upstream/h2client_response.go:50-54 | a block with a status goes into the response slot, or into the trailers while the slot is still full |
| H2Client.H2ClientConn.RemoveStream | internal/upstream/h2client_response.go:93-101 | refines removeStream: out of the map, then the pipe closed cleanly unless it was closed before |
| H2Client.H2ClientConn.FailAllStreams | internal/upstream/h2client_response.go:113-123 | refines failAll: every registered stream is failed, the map is empty, closed is set |
| H2Client.H2ClientConn.StartData | internal/upstream/h2client_response.go:60-80 | refines handleData up to the blocking pipe write, and all of it for an empty frame |
| H2Client.H2ClientConn.FinishData | internal/upstream/h2client_response.go:70-80 | refines handleData once the pipe has taken everything: both credits in order, then the end of the stream |
| H2Client.H2ClientConn.AbandonData | internal/upstream/h2client_response.go:66-69 | refines handleData when a closed pipe refuses the rest of a payload: the stream is removed, no credit |
| H2Runs.CloseRun | internal/upstream/h2client.go:99-114 | Close is one atomic step that takes every stream, followed by the signalling owed to each |
| H2Runs.FailStreamRun | internal/upstream/h2client_response.go:103-111 | failStream is the arrival of a reset and the two pieces of work it owes |
| H2Runs.HandleHeadersRun | internal/upstream/h2client_response.go:17-58 | the sequential handler is a run of the transition system |
| H2Runs.DispatchRun | internal/upstream/h2client.go:166-192 | whatever frame readLoop dispatches, doing so is a run of the transition system that starts with its arrival |
| H2Runs.GoAwayRun | internal/upstream/h2client.go:188-189 | failAll after GOAWAY is such a run |
| H2Runs.ReadFailRun | internal/upstream/h2client.go:168-172 | failAll after a read error is such a run |
| H2Runs.AbandonDataRun | internal/upstream/h2client_response.go:66-69 | so is the end of handleData on a closed pipe |
| H2Runs.FinishDataRun | internal/upstream/h2client_response.go:65-81 | and its end after a completed pipe write |
| H2Runs.LeaveRun | internal/upstream/h2client.go:84-89 | and leaving RoundTrip with an error |
| H2Runs.CloseBodyRun | internal/upstream/h2client_response.go:218-222 | and closing a response body |
| PoolSafety.NoLeak | internal/upstream/roundtripper.go:48-163 | no connection is leaked: in every interleaving each open connection is in exactly one place, pooled under its own host, in the hands of one call, or owned by a response body |
| PoolSafety.BoundedResend | internal/upstream/roundtripper.go:48-81 | a request is written only on connections dialled for its host, never twice on one, on at most one when it has a body and at most two otherwise |
| PoolSafety.CloseWhenQuiet | internal/upstream/roundtripper.go:83-93 | closing an idle RoundTripper closes every connection no response body owns |
| PoolSafety.RunKeepsInv | internal/upstream/roundtripper.go:48-163 | place and host-key invariants in every reachable state |
| PoolSafety.RunKeepsTried | internal/upstream/roundtripper.go:48-81 | a connection a call has used and evicted can never be handed to it again |
| PoolLaws.PooledSurvives | internal/upstream/roundtripper.go:95-151 | from every reachable state, an open pooled connection stays pooled and open through every step but an eviction for its host, its own end, and closing the pool |
| PoolLaws.LookupRoutes | internal/upstream/roundtripper.go:95-112 | a look-up that finds an open connection uses it; otherwise the request dials and a dead one is gone |
| PoolLaws.AdoptRoutes | internal/upstream/roundtripper.go:114-138 | adoption keeps an open pooled connection and closes the new one; otherwise the new one is pooled, open, and a dead one closed |
| PoolLaws.SendRoutes | internal/upstream/roundtripper.go:51-55 | an open connection is written on, a closed one fails at once |
| PoolLaws.FailureRoutes | internal/upstream/roundtripper.go:52-60 | a failure evicts and closes what is pooled for the host, and then exactly a first attempt without a body dials again |
| PoolLaws.DialRoutes | internal/upstream/roundtripper.go:63-66 | a dial gives one new open connection to the request's own host |
| PoolLaws.PlainRoutes | internal/upstream/roundtripper.go:155-171 | an HTTP/1.1 exchange hands its open connection to the response body, or closes it |
| PoolLaws.HandshakeRoutes | internal/upstream/roundtripper.go:114-119 | a failed HTTP/2 handshake closes the connection |
| PoolLaws.BodyCloseRoutes | internal/upstream/roundtripper.go:215-227 | closing a response body closes the connection under it |
| PoolLaws.CloseRoutes | internal/upstream/roundtripper.go:83-93 | closing the pool empties it and closes exactly what was in it |
| PoolClose.CloseMissesIff | internal/upstream/roundtripper.go:48-163 | exact condition: after Close, requests already in progress can leave an open connection in the pool if and only if, when it closes, one of them has yet to dial, or will dial again because it has no body and is on its first attempt, or holds an open HTTP/2 connection it has yet to adopt |
| PoolClose.AdoptionOutlivesClose | internal/upstream/roundtripper.go:83-138 | the concrete run: dial, handshake, Close, adopt leaves the new connection pooled and open |
| Pool.RoundTripper.CachedH2 | internal/upstream/roundtripper.go:95-112 | refines the locked region of cachedH2: a dead connection is dropped and closed |
| Pool.RoundTripper.AdoptH2 | internal/upstream/roundtripper.go:114-138 | refines the locked region of adoptH2: a usable pooled connection wins, a dead one is closed and replaced |
| Pool.RoundTripper.Evict | internal/upstream/roundtripper.go:140-151 | whatever is pooled for the host leaves the pool and is closed |
| Pool.RoundTripper.Close | internal/upstream/roundtripper.go:85-93 | the pool is empty and every pooled connection closed |
| LeafCache.OneCertificatePerHost | internal/ca/ca.go:178-201 | all calls for one normalised host return the same certificate, and its subject is that host |
| LeafCache.EntriesNeverChange | internal/ca/ca.go:193-199 | a cache entry once written never changes, in any continuation of any run |
| LeafCache.Authority.Lookup | internal/ca/ca.go:181-183 | the region under the read lock |
| LeafCache.Authority.Publish | internal/ca/ca.go:193-200 | the re-check and publish region is one step of the sequential memo table |
| LeafCache.Authority.LeafFor | internal/ca/ca.go:178-201 | the uninterrupted call: cached, or minted and entered, or failed without a change |
| LeafCache.Linearizable | internal/ca/ca.go:178-201 | for any number of callers and any interleaving of lookup, mint and publish: the hits and publications, in order, are a legal history of a sequential memo table, and correspond one to one to the calls that returned, each with its normalised host, the certificate it minted or hit, and the one it returned |
| LeafCache.RealTimeOrder | internal/ca/ca.go:178-201 | that history respects real time: a call that returned before another entered comes before it |
| LeafCache.MintsOnlyOnMiss | internal/ca/ca.go:181-191 | a call mints only if its look-up missed, and a hit returns the cached certificate |
| LeafCache.FailedMint | internal/ca/ca.go:188-191 | a failed mint changes nothing but the call |
| HostPort.SplitJoin | internal/proxy/socks5.go:104 | splitting a joined host and port gives both back |
| HostPort.NormalizeFoldsCase | internal/ca/ca.go:274-279 | the letter case of a host, with or without a port, makes no difference to its key |
| HostPort.NormalizeForgetsPortIff | internal/ca/ca.go:274-279 | exact condition, for every host: with a port, as a client writes it, it has the same cache key as without if and only if it has no brackets and not exactly one colon |
| HostPort.LiteralHasTwoKeys | internal/ca/ca.go:274-279 | for every address literal: bare, its key keeps the brackets; with a port, the key is the address alone |
| HostPort.LoopbackHasTwoKeys | internal/ca/ca.go:274-279 | the concrete hosts: [::1] and [::1]:443 |
| HostPort.SplitShape | internal/upstream/proxy.go:189-193 | a text that splits is its host, in brackets or not, and its port, and neither has brackets of its own |
| HostPort.NameIsKey | internal/ca/ca.go:274-279 | the key of a name is its lower-case text, with or without a port |
| HostPort.AddressIsKey | internal/ca/ca.go:274-279 | the key of an address literal with a port is the address in lower case |
| Socks5Compose.EndsCompose | internal/upstream/proxy.go:123-159 | the client and the server of the repository, over a network that cuts and delays bytes at will: every maximal run is finite and ends with both successful, agreed on the canonical target, with no byte left unread on either side |
| Socks5Compose.TunnelBytesSurvive | internal/proxy/socks5.go:54-105 | tunnel bytes sent behind the handshake are left intact for the tunnel |
| Socks5Compose.StuckIsDone | internal/upstream/proxy.go:123-159 | no reachable state is stuck before the exchange is complete: no deadlock |
| Socks5.RequestRoundTrip | internal/proxy/socks5.go:54-134 | the server decodes the client's greeting and request, with any bytes behind it, to the canonical target and stops exactly at its end |
| Socks5.RequestExistsIff | internal/upstream/proxy.go:189-220 | exactly a name of more than 255 bytes cannot be asked for |
| Socks5.ServerSelfDelimiting | internal/proxy/socks5.go:54-134 | what the server decides depends only on the bytes it consumed, and no proper prefix is enough |
| Socks5.ClientSelfDelimiting | internal/upstream/proxy.go:123-260 | the same for the client |
| Socks5.ServerIsCausal | internal/proxy/socks5.go:54-105 | more input never takes back a reply or a verdict, and nothing beyond the input is consumed |
| Socks5.ClientIsCausal | internal/upstream/proxy.go:123-159 | the same for the client |
| Socks5.AddressRead | internal/proxy/socks5.go:76-134 | a request of each address type is read back whole wherever it stands in the stream |
| Socks5.AuthRoundTrip | internal/upstream/proxy.go:161-175 | the username and password message decodes (section 2 of RFC 1929) to the credentials and leaves what follows |
| Socks5Laws.ConnectedIff | internal/upstream/proxy.go:123-260 | in terms of the proxy's octets: the client is connected exactly after an accepted method and a reply with status 0 and a whole bound address; with any other status it fails with that status |
| Socks5Laws.RefusedIsNotConnected | internal/upstream/proxy.go:233-235 | the concrete input: a refused connection fails |
| Socks5Laws.SelectionIff | internal/upstream/proxy.go:133-150 | which failure each method selection leads to |
| Socks5Laws.MalformedReplyIff | internal/upstream/proxy.go:222-260 | which failure each malformed reply leads to |
| Socks5Laws.RequestMeans | internal/upstream/proxy.go:199-219 | the octets of a request: the address by type, mapped IPv6 as IPv4, and the port in network order |
| Socks5Laws.ClientWrites | internal/upstream/proxy.go:123-159 | what the client has written after each input |
| Socks5Laws.AgreedIff | internal/proxy/socks5.go:54-105 | in terms of the client's octets: the server agrees exactly to a CONNECT of version 5 with a whole address of a known type |
| Socks5Laws.AgreedTarget | internal/proxy/socks5.go:89-134 | and to the target those octets name |
| Socks5Laws.RefusedIff | internal/proxy/socks5.go:60-93 | which inputs it refuses for which reason |
| Socks5Laws.ServerWrites | internal/proxy/socks5.go:71-103 | the octets it answers with |
| Socks5Text.EndsAgreeOnText | internal/proxy/socks5.go:99-104 | as text: after every complete exchange the server returns the very target the client was given if and only if its host and port were written canonically and bracketed only where needed |
| Socks5Text.SameTextIff | internal/upstream/proxy.go:189-198 | the same for the two conversions alone |
| Socks5Text.CanonicalName | internal/upstream/proxy.go:189-198 | for a name only the port's spelling and the brackets matter |
| Socks5Text.TargetIsValid | internal/upstream/proxy.go:189-206 | every target text the client accepts gives a valid target |
| Socks5Text.TargetOfText | internal/upstream/proxy.go:189-198 | host and port written together are read back, and no port above 65535 |
| Socks5Io.ServeNegotiation | internal/proxy/socks5.go:54-105 | the byte-reading server does what its specification says: verdict, bytes written and bytes consumed, on every input |
| Socks5Io.ServeConnect | internal/proxy/socks5.go:76-105 | the part after the method selection |
| Socks5Io.ReadAddress | internal/proxy/socks5.go:107-134 | the address of each type, or the error, and how far the reader moved |
| Socks5Io.DialHandshake | internal/upstream/proxy.go:123-159 | the byte-reading client does what its specification says |
| Socks5Io.BuildRequest | internal/upstream/proxy.go:199-219 | the request built piece by piece |
| Socks5Io.BuildAuth | internal/upstream/proxy.go:165-174 | the authentication message built piece by piece |
| Socks5Io.ReadReply | internal/upstream/proxy.go:222-260 | the reply with its bound address is consumed exactly |
| Socks5Io.TruncatedAddress | internal/proxy/socks5.go:89-93 | an input that ends inside the address is answered like an unknown address type |
| HeaderOrder.OrderHeaders | internal/profile/profile.go:161-187 | for every map iteration order the result is a sorted arrangement of exactly the map's keys |
| HeaderOrder.DeterministicIffNoTies | internal/profile/profile.go:161-187 | the result is independent of map iteration if and only if no two keys are different spellings of one ranked name |
| HeaderOrder.OrderingUnique | internal/profile/profile.go:172-185 | without ties the sorted arrangement is unique |
| HeaderOrder.OrderingMeaning | internal/profile/profile.go:158-160 | ranked names come first, by last position in the list; the others are alphabetical |
| HeaderOrder.LessIsStrictWeakOrder | internal/profile/profile.go:172-185 | the comparator is a strict weak order whose ties are exactly the spellings of a ranked name |
| HeaderOrder.RankOfIsRank | internal/profile/profile.go:162-165 | a name's rank is its last position in the list, whatever its case |
| HeaderOrder.BuildRank | internal/profile/profile.go:162-165 | the loop builds that rank table |
| HeaderOrder.StableSortSorts | internal/profile/profile.go:172-185 | stable insertion by the comparator sorts and permutes |
| HeaderOrder.SortedIsFixed | internal/profile/profile.go:172-185 | every sorted arrangement is a possible result |
| FieldList.PseudoHeadersComplete | internal/upstream/h2client_response.go:133-153 | for an arbitrary profile list, each non-empty pseudo-header is sent exactly once with its own value, and nothing else is |
| FieldList.PseudoHeaders | internal/upstream/h2client_response.go:133-153 | the two loops emit the present values by first mention, the default order last |
| FieldList.RegularHeaders | internal/upstream/h2client_response.go:155-191 | the fields of the headers that go on the wire, key by key in one of the orders the profile allows; the last loop adds nothing |
| FieldList.RegularHeadersConserve | internal/upstream/h2client_response.go:155-191 | no field is lost, duplicated or invented, whatever the order and the map iteration |
| FieldList.ValuesStayInOrder | internal/upstream/h2client_response.go:172-174 | the values of one key stay together and in order |
| FieldList.RegularNamesAreKeys | internal/upstream/h2client_response.go:170-176 | a regular field's name is a header key in lower case and its value one of that key's values |
| FieldList.PseudoBeforeRegularIff | internal/upstream/h2client.go:153-162 | all pseudo-headers precede all regular fields (section 8.1.2.1 of RFC 7540) if and only if no header key with a value begins with a colon |
| FieldList.EmitFirstOrder | internal/upstream/h2client_response.go:141-151 | of two pseudo-headers sent, the list first mentions the earlier one earlier |
| FieldList.AnnouncedLengthIff | internal/upstream/h2client_response.go:155-166 | every content-length sent is the length of the DATA sent (section 8.1.2.6 of RFC 7540) if and only if the lengths the caller passed in and the code does not replace agree; a body is always announced |
| FieldList.FieldListMeans | internal/upstream/h2client.go:150-164 | a request's field list holds each non-empty pseudo-header with its value and every value of every header that goes on the wire |
| FieldList.RequestFields | internal/upstream/h2client.go:153-162 | pseudo-headers followed by regular headers form a field list of the request |
| Http1Parse.LengthLines | internal/upstream/roundtripper.go:193-195 | the recipient's body length is the body's exactly when every length the caller left in the headers says so |
| Http1Parse.HostLines | internal/upstream/roundtripper.go:170-179 | the recipient finds exactly one Host line exactly when no second spelling of it carries a value |
| Http1Parse.ValuesOfSole | internal/upstream/roundtripper.go:198-202 | per-name value order is kept |
| Http1Parse.RivalLengthBreaksFraming | internal/upstream/roundtripper.go:193-195 | the concrete input: a POST with a length under a lower-case key; in every order and with anything behind it, the parser does not recover it |
| Http1Parse.RoundTripIff | internal/upstream/roundtripper.go:169-213 | for every request, map order and suffix: an HTTP/1.1 parser recovers method, target, the ordered fields, exactly the body and exactly what followed, if and only if method, target, names and values fit their lines and no header passed in rivals the printer's Host and Content-Length or announces a transfer coding |
| Http1Parse.HeadParsesIff | internal/upstream/roundtripper.go:197-203 | method, target and field lines come back as printed if and only if they fit their lines |
| Http1Parse.FieldsParseIff | internal/upstream/roundtripper.go:198-203 | any list of fields is recovered in order if and only if its names are tokens and its values trimmed lines |
| Http1.WriteRequest | internal/upstream/roundtripper.go:169-213 | the printed octets for every map iteration order; an unreadable body writes nothing |
| Http1.WriteLines | internal/upstream/roundtripper.go:198-202 | the nested loops print one line per value, in order |
| Http1.SentMeans | internal/upstream/roundtripper.go:170-195 | the printed headers: the caller's, Host from the request or else its URL, and the body's length when there is a body or the method is POST or PUT |
| Http1.PrintedForm | internal/upstream/roundtripper.go:197-203 | the octets of a request line, two field lines and the body |
| Patterns.SuffixIsDomain | internal/mitm/mitm.go:231-237 | the suffix test accepts a name if and only if it is the domain or lies below it at a label boundary |
| Patterns.MatchesPassthrough | internal/mitm/mitm.go:215-245 | selects a target exactly when the declarative rule selects its host part |
| Patterns.MatchesBypass | internal/upstream/dialer.go:116-143 | selects a host exactly when the same rule does |
| Patterns.OrderIndependent | internal/mitm/mitm.go:220-245 | the order of the list does not matter |
| Patterns.CaseMattersIff | internal/mitm/mitm.go:225-230 | the host's letter case matters in exactly one situation: a <local> entry, localhost spelled with a capital, and no other entry that selects it |
| Patterns.RuleFoldsHost | internal/upstream/dialer.go:128-140 | every other entry ignores the host's case |
| Patterns.LoopsAgree | internal/mitm/mitm.go:216-219 | with one list, both loops decide alike: on every host without brackets and that host joined with a port, and on every bare host that is not read as host and port |
| Patterns.JoinedHostIff | internal/mitm/mitm.go:216-219 | the host part of a joined target is the host if and only if that has no brackets |
| Patterns.BareHostIff | internal/mitm/mitm.go:216-219 | a bare host is its own host part if and only if it does not split; without brackets, if and only if it has not exactly one colon |
| Patterns.EntryMeans | internal/mitm/mitm.go:220-243 | what each kind of entry selects: blank nothing, <local> three names, a dotted one a domain, any other one name |
| Patterns.ListMeans | internal/mitm/mitm.go:220-244 | a list selects what one of its entries selects |
| Profiles.LoadAll | internal/profile/profile.go:199-219 | a directory's profiles load if and only if each is valid and none shares a name or alias with an earlier one; the result is the table of all names |
| Profiles.LoadableIff | internal/profile/profile.go:199-230 | that condition does not depend on the order of the files: all valid and pairwise disjoint names |
| Profiles.TableMeans | internal/profile/profile.go:221-230 | every name leads to the one profile that bears it |
| Profiles.Register | internal/profile/profile.go:221-230 | stops at the first taken name, leaving the names before it entered |
| Profiles.Validate | internal/profile/profile.go:120-145 | succeeds exactly on profiles with distinct non-empty trimmed names and the three required traits, and which problem is reported when |
| Profiles.ValidMeans | internal/profile/profile.go:120-145 | the valid profiles, in terms of the fields as given |
| Text.TrimSpaceMeans | internal/profile/profile.go:126 | trimming removes all white space at both ends and nothing else |
| Text.SpaceMeans | internal/profile/profile.go:126 | what counts as white space, in ASCII |
| Text.LexMeans | internal/profile/profile.go:183 | the order of unranked names: by the first difference, or the shorter first |

## Left out

- H2Stream.NoWaiterLost: assumes the peer sends a block with `:status` before DATA that ends the stream, because the code loses the caller otherwise; BecomesLostIff is the exact condition.
- H2Projection.RunProjects: covers runs of at most 2^31 allocations, because after that a reused id makes two streams one to the read loop (IdsRepeatIff); the framer already refuses every id after the first 2^30.
- H2Credit.CreditConserved: says nothing about runs in which a WINDOW_UPDATE could not be written, because the code ignores that error and the credit is gone; CreditNeverExceedsReceived covers them.
- H2Credit.StreamCreditIsBytesRead: excludes streams whose reader closed in the middle of a payload, because that payload is never credited.
- H2Client.H2ClientConn.Dispatch: methods of the class run one at a time, because interleaving is in the transition system, whose runs H2Runs relates to them; each method relates to the model only the stream objects it touches.
- H2Client.H2ClientConn.FailAllStreams: closing the transport after it is not a step; the read error it causes is.
- Pool.RoundTripper.Evict: closes the connection inside the method; in the transition system that close is a separate step, as it is outside the lock in the code.
- Http1.WriteRequest: transport errors and the split into two writes are not modelled; octets are characters.
- Patterns.SuffixIsDomain: case folding is ASCII only, where the library folds Unicode.
- Profiles.LoadAll: starts from decoded profiles; directory listing, file reading and JSON are not modelled.
- Socks5Text.EndsAgreeOnText: how address literals are read and printed is a parameter, assumed to give four or sixteen bytes and text without brackets.
- Socks5Compose.EndsCompose: a name of more than 255 bytes is refused by the client before it sends a request (RequestExistsIff).
- H2Wire.ParseInvertsWire: a failing transport cuts the wire between frames only; a write that stops inside a frame is not modelled.
- Hpack.ResponsesReadableIff: dynamic table size updates by the peer are not modelled.
- H2Runs.HandleHeadersRun: assumes that the stream owes nothing for an earlier block without `:status`, which IdleOwesNoStatus proves of every reachable state up to 2^31 allocations.
- TLS, uTLS templates, certificate minting and key generation: minting is an arbitrary result bound to its host.
- The framer's byte format, Huffman coding, CONTINUATION, padding and server push: frames are values, and DATA carries no padding.
- Interim (1xx) responses and trailers as such: the code takes the first block with a status as final; a later one with a status is kept as trailers while the first still waits in its slot, and put into the emptied slot, where nobody reads it, otherwise; a block without a status, such as a real trailer block, fails the stream. The model does the same.
- The peer's SETTINGS and windows: the client ignores both when sending.
- Decompression of response bodies, and the parsed Content-Length, canonical header spelling and status text of responses.
- The range limit of strconv.Atoi on `:status`.
- Timeouts, DNS, sockets, and liveness when a reader stops reading: the pipe then blocks the read loop, and only safety is proved.
- WebSocket forwarding, raw tunnels, serving and signal handling: byte copying.
- Command line, launcher, configuration and the wizard; Profile.Apply and the SETTINGS name table: no property beyond their bodies.
