# A verified model of the live packaging and delivery core

This project models, in Dafny, the parts of an RTMP/HLS origin where the hard logic lives, and proves what they
keep over every run.

- **Packaging.** `Segmenter` turns timestamped frames into segments and low-latency parts; `SegmenterRuns` says what a
  whole run publishes, `SegmenterLedger` says it again from the messages alone, without buffers, and `SegmenterCuts`
  where the cuts fall. `Store` is the live segment store, stated against the history of everything ever appended.
  `Playlist` and `KeyTag` print a media playlist and define how a player reads its segments, `PlaylistSheet` how it reads
  everything else (RFC 8216). `StreamSink` joins segmenter and store.
- **Blocking reload.** `LiveEdge` defines the position a request waits for; `BlockingReload` (its requests in
  `BlockingReloadRequests`, its end in `BlockingReloadWork`, one run in full in `BlockingReloadRun`) and
  `DeferredResponses` (read off the schedule in `DeferredTrace`) are step-by-step models of the threads involved, one step
  per lock region.
- **HTTP.** `HttpMessage` and `Framing` define what a connection's whole input means; `HttpHeaders` says it for requests
  as clients write them; `Connection` processes input in arbitrary chunks with arbitrary partial writes.
  `SessionRedirect` is the playback-session redirect, `SessionQuery` what its checks mean for a query's own pairs.
- **Cluster and dispatch.** `NodeRegistry` places viewers. `Json`, `JobWire` and `JobParser` are the job body's printer
  and parser; `JsonValues` is about values and members the parser has no field for, and about what is accepted.
- **Transcoder output.** `AnnexB` splits NAL units and builds AVCC samples, `AvcTags` takes them apart again, and
  `RenditionFeed` joins both over a whole run.
- **Threads.** `ThreadPool` is `parallel_for`.

Conventions: clocks, socket results, the order in which a hash map is walked, handler answers, muxer output and
encryption results are arbitrary inputs. Integers are unbounded unless a width is written out. Text is a sequence of
characters, each standing for one octet. Conditions a caller must meet for a strong statement (distinct names, an
in-order producer, converted frames) are antecedents, not restrictions on what may be called.

What the code does that its comments or a first reading do not say:

- `DeferredResponse::cancel` sets `delivered_` and not `resolved_`, so a timed-out waiter is not dropped by
  `release_waiters`, as its comment says, but stays in the list until its position is reached
  (`NobodyStuckAtQuiescence` describes the list exactly, `ExpiredWaiterHoldsItsSlot` shows a run).
- A head whose blank line begins within `max_header_bytes` and ends beyond it is accepted or refused depending on how it
  arrives (`PrefixRefusedIffStraddling`, at one input `StraddlingHead`); everything else is independent of the split.
- At a detected timestamp jump the output clock advances exactly when it comes out positive; a far-forward splice
  followed by a step back within the threshold can leave it at zero (`CutIsStrictExactlyWhenPositive`,
  `JumpNeedNotAdvance`). If the frame at which a jump is detected does not convert, the timeline base moves although
  `last_ts_` does not, and the timeline can fall back (`UnconvertedJumpBreaksTimeline`).
- Before anything is published the preload hint assumes that numbering starts at zero (`HintNamesNextPart`).
- A `#` in a request's path or in a query pair the redirect keeps is copied into the Location, where it begins a
  fragment the client does not send back; exactly then the next request fails the checks (`RedirectIsFixpoint`).
- A fallback copy keeps the discontinuity flag of the segment it repeats.
- A rendition name with a control octet other than newline, carriage return and tab is printed by the origin and
  refused by the agent (`JobRoundTrip` states both halves).

## Model

| member | source | states |
|---|---|---|
| SegmenterRuns.RunKeepsInv | src/hls/segmenter.cpp:92-198 | over every run, buffer, open parts, part offset and flags agree, and everything published so far is well-formed, numbered and in order |
| SegmenterRuns.PartsMakeTheSegment | src/hls/segmenter.cpp:112-198 | the parts published since the last segment are the next segment's parts and concatenate to its bytes; a part is independent iff its first frame is a keyframe |
| SegmenterRuns.NamesNeverRepeat | src/hls/segmenter.cpp:126-176 | no segment or part name is used twice in a run, across both kinds |
| SegmenterRuns.PublishesInOrder | src/hls/segmenter.cpp:112-198 | the callbacks are an in-order producer: parts 0, 1, 2, ... of the next segment, then that segment with exactly those parts |
| SegmenterRuns.SegmentsAreWellCut | src/hls/segmenter.cpp:222-277 | in every run whose frames convert, each segment lasts less than the maximum and, but for the first, opens on a keyframe or is flagged |
| SegmenterRuns.TimelineIsMonotone | src/hls/segmenter.cpp:29-33 | in every run in which no frame at a jump fails to convert and no in-threshold step goes back, decoding times never decrease and strictly increase at jumps and reconnects |
| SegmenterRuns.ConvertedIsTame | src/hls/segmenter.cpp:246-289 | a run whose frames all convert is such a run |
| SegmenterRuns.UnconvertedJumpBreaksTimeline | src/hls/segmenter.cpp:246-289 | a run in which the frame at a jump does not convert and the next one falls back to zero |
| SegmenterRuns.CutIsStrictExactlyWhenPositive | src/hls/segmenter.cpp:246-253 | at a jump or reconnect the decoding time strictly increases iff the unclamped clock is positive; otherwise both are zero |
| SegmenterRuns.JumpNeedNotAdvance | src/hls/segmenter.cpp:54-62 | a concrete run whose second jump leaves the decoding time unchanged |
| SegmenterRuns.ClockOf | src/hls/segmenter.cpp:64-90 | which messages move the clock, and to where: a reconnect, a video frame written or not, audio before any video; a media gap does not |
| SegmenterRuns.OutputGrows | src/hls/segmenter.cpp:151-198 | nothing published is taken back |
| SegmenterLedger.ReceptionStep | src/hls/segmenter.cpp:206-368 | configurations, the open segment and the last timestamp are what the messages alone say; so is the list of frames written: a video frame that converts with parameter sets known, an audio frame with its configuration known and a segment open |
| SegmenterLedger.PublishesTheLedger | src/hls/segmenter.cpp:112-198 | over every run each segment's octets are the tables of the frame that opened it and the packets of its frames in order, and its number, name, duration, flag, parts and keyframe prefix are those of the ledger; so is the open buffer |
| SegmenterLedger.CloseAgrees | src/hls/segmenter.cpp:151-198 | a flush publishes exactly the ledger's open segment, or nothing if it has no frame |
| SegmenterLedger.EndPartAgrees | src/hls/segmenter.cpp:112-149 | a part is closed exactly when the ledger's rule says, with exactly the frames since the last one |
| SegmenterLedger.RoomAgrees | src/hls/segmenter.cpp:246-277 | jump, due cut and forced cut happen exactly when the ledger's rules say |
| SegmenterCuts.MediaConserved | src/hls/segmenter.cpp:295-359 | the media of all published segments and of the open one, in a row, is the media of the frames written, octet for octet |
| SegmenterCuts.CutsAreExact | src/hls/segmenter.cpp:255-277 | of every published segment: its frames follow the previous one's; none of its video frames after the first called for a cut or jumped; unflagged it opened for a keyframe no sooner than the target; its parts tile it and each but the last ends at the first frame the part target after its start |
| Segmenting.Segmenter.constructor | src/hls/segmenter.cpp:26-27 | starts as the empty run |
| Segmenting.Segmenter.MaybeClosePart | src/hls/segmenter.cpp:112-149 | the fields move as the run function closing a part says |
| Segmenting.Segmenter.FlushSegment | src/hls/segmenter.cpp:151-198 | the fields move as the run function flushing a segment says |
| Segmenting.Segmenter.CrossJump | src/hls/segmenter.cpp:246-253 | a detected jump closes, flags and moves the base |
| Segmenting.Segmenter.CutIfDue | src/hls/segmenter.cpp:255-271 | a due keyframe closes the segment, an overrun closes and flags |
| Segmenting.Segmenter.PrepareSegment | src/hls/segmenter.cpp:246-277 | both, then the opening of a segment if none is open |
| Segmenting.Segmenter.OnVideoHeader | src/hls/segmenter.cpp:216-237 | a changed parameter set closes the segment and flags the next |
| Segmenting.Segmenter.OnVideoFrame | src/hls/segmenter.cpp:239-311 | one coded video frame, converted or not |
| Segmenting.Segmenter.OnAudioHeader | src/hls/segmenter.cpp:322-337 | a changed audio configuration closes the segment and flags the next |
| Segmenting.Segmenter.OnAudioFrame | src/hls/segmenter.cpp:339-368 | audio never opens a segment and keeps the part cadence |
| Segmenting.Segmenter.MarkPublisherReconnect | src/hls/segmenter.cpp:64-79 | closes, flags, moves the base past everything seen and forgets the codecs |
| Segmenting.Segmenter.MarkMediaDiscontinuity | src/hls/segmenter.cpp:81-90 | closes and flags without touching the timeline |
| Segmenting.Segmenter.Finish | src/hls/segmenter.cpp:371-377 | publishes the tail once |
| StreamSinks.PublishedNamesDistinct | src/hls/segmenter.cpp:126-176 | the segment names and the part names of a run are distinct |
| StreamSinks.SegmentsNumbered | src/hls/segmenter.cpp:170-172 | the segments of a run are numbered from `initial_sequence` on without a gap |
| StreamSinks.StreamSink.constructor | src/hls/stream_sink.cpp:7-22 | starts over an emptied store |
| StreamSinks.StreamSink.PassOn | src/hls/stream_sink.cpp:8-18 | the store's log becomes the segmenter's output, item for item |
| StreamSinks.StreamSink.Receive | src/hls/stream_sink.cpp:29-35 | a media message keeps store and segmenter in step |
| StreamSinks.StreamSink.Playlist | src/hls/segment_store.cpp:345-400 | serving a playlist leaves the pipeline and the store's log as they are |
| StreamSinks.StreamSink.Finish | src/hls/stream_sink.cpp:37-42 | the tail reaches the store, which is then ended, once |
| StreamSinks.StreamSink.StoreSeesOrderlyProducer | src/hls/stream_sink.cpp:7-22 | over every run the store gets in-order events, distinct names, numbers without a gap and only accounted parts |
| StreamSinks.StreamSink.HintNamesNextPart | src/hls/segment_store.cpp:381-391 | under the configured names the preload hint names the very next part iff something has been published or numbering starts at zero |
| StoreParts.RenumberedName | src/hls/segment_store.cpp:11-20 | renumbering a name with a digit-free suffix replaces exactly its own number |
| StoreParts.LastIndexIsLast | src/hls/segment_store.cpp:13 | an occurrence, and none behind it |
| StoreParts.BackfillIsExact | src/hls/segment_store.cpp:153-193 | copies owed: one for every full cadence gone by, up to the retention, none too few; the cadence is the newest segment's own duration, or the target, and before the first copy a quarter of it more, half a second at most |
| StoreParts.BackfillIsBounded | src/hls/segment_store.cpp:153-193 | so never more than the stall can hold, none until interval plus grace, none at once |
| StoreParts.LookupIsExact | src/hls/segment_store.cpp:239-261 | an index over a suffix of distinctly named values hits exactly those values |
| StoreParts.DurationWithinInterval | src/hls/segment_store.cpp:153-157 | a copy never lasts longer than the interval it is counted for |
| StoreInvariants.EraseParts | src/hls/segment_store.cpp:218-227 | forgetting a segment's parts leaves exactly the others indexed and counted, without saturating |
| StoreInvariants.SegmentDropped | src/hls/segment_store.cpp:213-230 | dropping the oldest keeps suffix, index and the count of flagged segments gone |
| StoreInvariants.SegmentAppended | src/hls/segment_store.cpp:131-134 | appending keeps suffix and index |
| StoreInvariants.PartAppended | src/hls/segment_store.cpp:111-113 | adding a part keeps byte counter and index exact |
| StoreInvariants.ProducerNumbered | src/hls/segment_store.cpp:67-80 | in stall-repeat mode a producer's segment continues the numbers, under its own name pattern |
| StoreInvariants.FallbackNumbered | src/hls/segment_store.cpp:195-207 | so does a copy |
| Store.SegmentStore.RepeatModeNumbering | src/hls/segment_store.cpp:67-80 | over every run in stall-repeat mode, real and fallback segments mixed: history and window are numbered without a gap, MEDIA-SEQUENCE plus index is each number, every name is prefix + own number + suffix, no name repeats |
| Store.Numbered | src/hls/segment_store.cpp:67-80 | when a segment is renumbered, to what, and when it is flagged |
| Store.ClaimedStores | src/hls/segment_store.cpp:42-90 | what is stored has the producer's octets or the encryptor's with its key, the producer's duration, its flag or the recovery's, and no byte range that no longer fits |
| Store.DropFront | src/hls/segment_store.cpp:213-230 | forgets exactly the oldest segment and its parts |
| Store.Evict | src/hls/segment_store.cpp:210-237 | afterwards both caps hold or one segment remains, and nothing was dropped that the caps did not demand |
| Store.ClaimParts | src/hls/segment_store.cpp:82-90 | the open parts become the segment's, and stay counted and indexed |
| Store.ListedTheSameForEver | src/hls/segment_store.cpp:356-370 | in every later playlist that lists it a segment has the same key, discontinuity number and URI, and, when the history has no gap in its numbers, its own media sequence number |
| Store.WindowReadsBack | src/hls/segment_store.cpp:356-399 | the text printed for a window reads as that window of the append history |
| Store.WindowSheet | src/hls/segment_store.cpp:356-399 | that text tells a player each duration, the parts of the newest segments and of the open one, a target that covers all and is asked for, the delays with their floors, the part to ask for next and the end |
| Store.PollIsBounded | src/hls/segment_store.cpp:147-193 | the count a poll owes: at most window + grace copies, none at an instant not after the newest append |
| Store.Render | src/hls/segment_store.cpp:356-399 | a player reading the playlist sees the newest segments with numbers counted over the whole history, and everything else the configuration asks for |
| Store.SegmentStore.constructor | include/rtmp_server/hls/segment_store.hpp:124 | an empty store |
| Store.SegmentStore.Append | src/hls/segment_store.cpp:131-145 | history grows by one; indexes, bytes and caps are kept; exactly the segments beyond the caps go |
| Store.SegmentStore.AddSegment | src/hls/segment_store.cpp:42-95 | what is stored under which number and with which media, and every invariant kept |
| Store.SegmentStore.AppendProduced | src/hls/segment_store.cpp:92 | a producer's segment moves history, producer log, stamps and live edge together |
| Store.SegmentStore.AddPart | src/hls/segment_store.cpp:97-118 | ignored without low latency; else the open list, index, bytes and live edge move together |
| Store.SegmentStore.MarkEnded | src/hls/segment_store.cpp:402-409 | the edge becomes one every position is within |
| Store.SegmentStore.MarkLive | src/hls/segment_store.cpp:411-414 | the edge is live again, segments untouched |
| Store.SegmentStore.Clear | src/hls/segment_store.cpp:416-428 | everything starts over, the log included |
| Store.SegmentStore.HasReached | src/hls/segment_store.cpp:284-318 | for an in-order producer, true iff the position was published |
| Store.SegmentStore.FindSegment | src/hls/segment_store.cpp:239-250 | under distinct names, hits exactly the retained segments |
| Store.SegmentStore.FindPart | src/hls/segment_store.cpp:252-261 | under distinct names, hits exactly the retained parts |
| Store.SegmentStore.CopiesWithinOutage | src/hls/segment_store.cpp:147-208 | after any polls, the durations of all segments appended since the newest real one sum to no more than the time since it came |
| Store.SegmentStore.AdvertisedStaysFetchable | src/hls/segment_store.cpp:210-237 | a segment a playlist listed is found by name through `retention_grace_segments` more appends, unless the byte cap evicts something after that playlist |
| Store.SegmentStore.AppendCopy | src/hls/segment_store.cpp:196-206 | one copy of the newest segment under the next number |
| Store.SegmentStore.AppendCopies | src/hls/segment_store.cpp:195-207 | as many copies as the clock allows, all repeating one segment; the producer's side of the log stands still |
| Store.SegmentStore.AppendFallbackIfDue | src/hls/segment_store.cpp:147-208 | exactly the copies due at the measured instant: one for every full cadence of the stall or a full retention of them; nothing changes when none is due |
| Store.SegmentStore.Playlist | src/hls/segment_store.cpp:345-400 | makes up for the stall to within one cadence or by a full retention, nothing changing when nothing is due and the producer's side of the log standing still, then prints what reads back as the live window of the history |
| Store.SegmentStore.PollTwice | src/hls/segment_store.cpp:345-354 | of two polls at one instant the second appends and changes nothing |
| Store.SegmentStore.PollThrough | src/hls/segment_store.cpp:345-354 | any number of polls in an outage: at most window + grace copies each, all copies together no longer than the time since the newest real segment |
| LiveEdge.HasReachedIffPublished | src/hls/segment_store.cpp:284-313 | the edge test is true iff some event published the position |
| LiveEdge.HasReachedIsMonotone | src/hls/segment_store.cpp:284-313 | once reached, always reached |
| LiveEdge.PastLastPartWaitsForNextSegment | src/hls/segment_store.cpp:305-312 | a part index past the end of a complete segment is satisfied exactly when the next segment's first part or that segment appears, or the stream ends |
| KeyTag.KeyTagRoundTrip | src/hls/playlist.cpp:36-51 | a player reads back exactly the segment's key, absent and NONE both meaning clear |
| KeyTag.ReadsAttributes | src/hls/playlist.cpp:43-50 | an attribute list reads back as the attributes printed |
| Playlist.PlaylistReadsBack | src/hls/playlist.cpp:64-200 | reading the text gives every segment once, in order, with its number, its own key and the count of flags up to it |
| PlaylistSheet.SecondsReadBack | src/hls/playlist.cpp:13-24 | a printed duration is read back to the millisecond |
| PlaylistSheet.SheetReadsBack | src/hls/playlist.cpp:64-200 | reading the text gives every duration, every listed part with its URI and flag, version, target, delays, preload hint and end |
| Playlist.TargetCoversSegments | src/hls/playlist.cpp:66-76 | TARGETDURATION is at least every duration rounded up |
| Playlist.TargetDuration | src/hls/playlist.cpp:69-76 | the loop computes that target |
| Playlist.AppendParts | src/hls/playlist.cpp:53-60 | the part lines, in order |
| Playlist.AppendSegmentLines | src/hls/playlist.cpp:153-174 | the lines of one segment |
| Playlist.BuildHead | src/hls/playlist.cpp:93-126 | the header lines |
| Playlist.BuildMediaPlaylist | src/hls/playlist.cpp:137-200 | the loop prints exactly the lines the reader's theorem is about |
| BlockingReload.ReachedWaiterHasPassPending | src/control/hls_http_handler.cpp:594-622 | in every interleaving, an unresolved waiter whose position is reached has a release pass still to come or under way |
| BlockingReloadRequests.RequestOutcome | src/control/hls_http_handler.cpp:918-968 | in every interleaving a request's thread next serves it iff something published by the time it asked answers its position, else parks it on that very position iff the list has room, else turns it away |
| BlockingReloadRequests.TurnedAwayIsServed | src/control/hls_http_handler.cpp:964-968 | a request turned away is served by its thread's next step |
| BlockingReloadRequests.EveryRequestAccountedFor | src/control/hls_http_handler.cpp:918-968 | any position was asked for as often as it was served at once, parked on or is still being decided on |
| BlockingReloadRequests.ServedPlaylistIsAtOrPastRequest | src/control/hls_http_handler.cpp:926-968 | whoever was served without waiting and not turned away got a playlist that holds the position |
| BlockingReloadRequests.SettledForEver | include/rtmp_server/control/http_server.hpp:117-147 | of the answer and the deadline the first settles a waiter and nothing after it changes its outcome |
| BlockingReload.NobodyStuckAtQuiescence | src/control/hls_http_handler.cpp:594-622 | when all threads are idle no unresolved waiter's position is reached, and the list is exactly the parked requests whose position is not |
| BlockingReloadRun.ExpiredWaiterHoldsItsSlot | src/control/hls_http_handler.cpp:605-612 | a run in which a timed-out request still fills the only slot and the next one is not parked |
| BlockingReload.ReleasedPlaylistIsAtOrPastRequest | src/control/hls_http_handler.cpp:615-621 | a released playlist was rendered at or past the asked position |
| BlockingReload.BusyThreadsCanMove | src/control/hls_http_handler.cpp:594-622 | a thread with work, or the one holding the lock it needs, can always take a step |
| BlockingReloadWork.PendingWorkRunsOut | src/control/hls_http_handler.cpp:594-622 | without new publications, requests and timeouts no run goes on for more steps than the work there is, so every pending pass ends |
| BlockingReloadWork.ParkedWithinLimit | src/control/hls_http_handler.cpp:940-948 | in every run no more requests are parked than `max_blocked_requests_per_stream` |
| DeferredTrace.BookkeepingFollowsSchedule | src/control/async_http_server.cpp:545-580 | who is connected under which number, and where each request was deferred, is what the schedule says |
| DeferredTrace.AnswersAreFirstSupplied | include/rtmp_server/control/http_server.hpp:117-135 | every answer, stored or mailed response is exactly what the first resolve of its request supplied, or the request's timeout response |
| DeferredTrace.ResolvedIsAnsweredOrOnItsWay | include/rtmp_server/control/http_server.hpp:101-135 | a request deferred and resolved, in either order, on a connection still open has been answered or what was supplied first is on its way |
| DeferredTrace.TimeoutAnswersUnlessOnItsWay | src/control/async_http_server.cpp:935-951 | a deadline answers with the timeout response iff no response is on its way, and otherwise leaves the connection parked |
| DeferredTrace.CompletionGetsThrough | src/control/async_http_server.cpp:759-787 | from wherever a completion is its own steps are enabled in turn and end with its request answered by it |
| DeferredResponses.AnsweredAtMostOnceByItsOwnResponse | src/control/async_http_server.cpp:720-787 | over every run no request is answered twice, and each answer is one of its own request's responses, on its own connection |
| DeferredResponses.DeliveredIsAnsweredOrOnItsWay | include/rtmp_server/control/http_server.hpp:101-146 | once delivered, a request on an open connection has been answered or a response is on its way; until then the connection is parked on it |
| DeferredResponses.CompletionAnswersItsRequestOrNobody | src/control/async_http_server.cpp:759-787 | a completion answers its own request, or nobody if the descriptor was reused |
| HttpMessage.ParseRequestHead | src/control/http_message.cpp:18-57 | the position-advancing parser computes the line-by-line reading |
| HttpMessage.ParseHeaders | src/control/http_message.cpp:41-55 | the header loop, later duplicates winning |
| HttpMessage.ValueOf | src/control/http_message.cpp:47-48 | the value without its leading spaces |
| HttpMessage.RequestLineReadsBack | src/control/http_message.cpp:19-37 | a request line written out is read back as verb, path, query and version |
| HttpHeaders.FieldsAdded | src/control/http_message.cpp:41-55 | a name without capitals maps to the last field equal to it but for letter case, without the spaces in front, and to nothing if there is none |
| HttpHeaders.WrittenHeadReadsBack | src/control/http_message.cpp:18-57 | a head written out from a request line and any fields is found at its blank line, whatever follows, and read back with every field so looked up |
| HttpHeaders.WrittenHeadFrames | src/control/async_http_server.cpp:624-648 | for every such head: refused for its size, for a length that is no number, or for one over the limit, and otherwise taken with exactly the length its Content-Length field says |
| HttpHeaders.WrittenRequestFrames | src/control/async_http_server.cpp:650-662 | with its body behind it the request is taken with exactly that body and what follows is left |
| HttpHeaders.KeptAliveExactly | src/control/async_http_server.cpp:699-711 | kept iff the server allows it, the request is not the last, and the last Connection field is keep-alive, or is not close on HTTP/1.1 |
| HttpHeaders.PayloadIsSlice | src/control/async_http_server.cpp:789-819 | the body, or exactly the slice of the shared buffer |
| HttpHeaders.AnswerIsHeadAndPayload | src/control/async_http_server.cpp:789-819 | the head for the decision taken, then the payload, and nothing for a slice outside its buffer |
| HttpHeaders.RefusalEndsConnection | src/control/async_http_server.cpp:821-828 | a refused input is answered with the error head of its status and ends the connection |
| Framing.HeadOkExtends | src/control/async_http_server.cpp:624-648 | a head once taken is taken the same whatever follows |
| Framing.WholeExtends | src/control/async_http_server.cpp:651-657 | a complete request is not changed by what follows |
| Framing.HeadRejectExtends | src/control/async_http_server.cpp:624-644 | a refusal stands whatever follows, unless the blank line straddles the limit |
| Framing.PrefixRefusedIffStraddling | src/control/async_http_server.cpp:625-631 | a prefix of an acceptable head can be refused iff the blank line straddles the limit |
| Framing.StraddlingHead | src/control/async_http_server.cpp:625-631 | one head a limit of 15 accepts whole and refuses when its first 15 octets come alone |
| Connections.AdvanceSends | src/control/async_http_server.cpp:879-885 | counting a partial write loses and repeats nothing |
| Connections.Push | src/control/async_http_server.cpp:838-886 | whatever the socket takes, bytes gone plus bytes left are the response |
| Connections.Connection.constructor | src/control/async_http_server.cpp:559-564 | a new connection |
| Connections.Connection.Flush | src/control/async_http_server.cpp:830-903 | a finished response ends the connection or makes it ready for the next request |
| Connections.Connection.BeginResponse | src/control/async_http_server.cpp:789-819 | a slice outside its buffer closes with nothing written; otherwise the response is owed and begun |
| Connections.Connection.Fail | src/control/async_http_server.cpp:821-828 | a refused input is answered and the connection not reused |
| Connections.Connection.Dispatch | src/control/async_http_server.cpp:668-718 | the request is handed over once and its answer owed |
| Connections.Connection.TakeHead | src/control/async_http_server.cpp:624-648 | takes a head, refuses the input, or waits |
| Connections.Connection.TakeBody | src/control/async_http_server.cpp:650-662 | dispatches a complete request, or waits |
| Connections.Connection.ConsumeInput | src/control/async_http_server.cpp:620-666 | nothing already received is left waiting |
| Connections.Connection.OnReadable | src/control/async_http_server.cpp:592-618 | any chunk, read only when not writing |
| Connections.Connection.OnWritable | src/control/async_http_server.cpp:905-918 | pipelined input is served when the response is out |
| Connections.Connection.OnPeerGone | src/control/async_http_server.cpp:609-616 | closes without dispatching or sending |
| Connections.Connection.InputDecidesOutcome | src/control/async_http_server.cpp:592-666 | at rest or closed by the server, requests and bytes are exactly what the whole input means; otherwise prefixes of it |
| Connections.Connection.StreamDecidesOutcome | src/control/async_http_server.cpp:592-666 | a connection the server has closed, however much it had read, or one at rest after all of the peer's bytes, has done exactly what those bytes mean |
| Connections.SplitDoesNotMatter | src/control/async_http_server.cpp:592-666 | the same peer stream in any chunks and write portions gives the same requests, the same bytes and the same closing, error answers and refused keep-alive included |
| SessionRedirect.ParseQuery | src/control/hls_http_handler.cpp:18-33 | the map of first values of the pairs |
| SessionRedirect.QueryWithoutSessionParams | src/control/hls_http_handler.cpp:83-100 | the other non-empty pairs, joined in order |
| SessionRedirect.PercentEncode | src/control/hls_http_handler.cpp:62-79 | the loop computes the encoding |
| SessionRedirect.EncodeIsPlain | src/control/hls_http_handler.cpp:62-79 | no character of the encoding can end a pair, a query or a request line |
| SessionRedirect.EncodingReadsBack | src/control/hls_http_handler.cpp:62-79 | percent-decoding gives the text back |
| SessionRedirect.RedirectQuery | src/control/hls_http_handler.cpp:849-855 | the query of the Location |
| SessionRedirect.RedirectIsFixpoint | src/control/hls_http_handler.cpp:818-892 | following the redirect asks for the same path, passes all checks and keeps the unrelated pairs in order, iff no `#` in the path or a kept pair makes the client drop the rest |
| SessionRedirect.OtherParamsKept | src/control/hls_http_handler.cpp:83-100 | every other parameter has the value it had |
| SessionQuery.ParamsAreFirstValues | src/control/hls_http_handler.cpp:18-33 | a key maps to the value of the first pair that gives it one |
| SessionQuery.AcceptedExactly | src/control/hls_http_handler.cpp:818-829 | a query passes iff its first session value is 32 hexadecimal digits, its first stream value is not empty and, with the shared cache, its first cache value is 1 |
| SessionQuery.RedirectCarries | src/control/hls_http_handler.cpp:849-855 | the redirect carries the session minted, the stream's own name and the cache mark, whatever the query brought along under those names |
| NodeRegistry.StatusOf | src/cluster/node_registry.cpp:70-96 | the row's own fields, when a node is healthy and when it drains |
| NodeRegistry.EligibleByRow | src/cluster/node_registry.cpp:246-263 | somebody is eligible iff some row was heard of within the timeout, is not asked to drain, delivers to viewers and is not full, and is that row's node |
| NodeRegistry.BeforeIsLexicographic | src/cluster/node_registry.cpp:329 | the order of names is that of strings |
| NodeRegistry.AtMostIsRatio | src/cluster/node_registry.cpp:298-324 | comparing cross products is comparing exact load ratios |
| NodeRegistry.Registry.constructor | src/cluster/node_registry.cpp:51-52 | an empty table, the cursor at zero |
| NodeRegistry.Registry.CollectEligible | src/cluster/node_registry.cpp:246-263 | exactly the serving nodes, in whatever order the table is walked |
| NodeRegistry.Preferred | src/cluster/node_registry.cpp:264-296 | region, then edges, then sized nodes, each only if any is left |
| NodeRegistry.LeastLoaded | src/cluster/node_registry.cpp:298-324 | exactly the nodes no other is less loaded than |
| NodeRegistry.CrossProductFits | src/cluster/node_registry.cpp:305-311 | the products compared are below 2^64 |
| NodeRegistry.SortById | src/cluster/node_registry.cpp:329 | the same nodes in order of their names |
| NodeRegistry.ListIsUnique | src/cluster/node_registry.cpp:329-331 | a set of nodes has one such list, so the table's order cannot show |
| NodeRegistry.ChoiceServes | src/cluster/node_registry.cpp:264-324 | a choice may serve, no preference is passed over, and nobody left is less loaded |
| NodeRegistry.Registry.Locate | src/cluster/node_registry.cpp:243-332 | nobody iff no row may serve; otherwise the least-loaded node whose turn it is, as its row says |
| NodeRegistry.RoundRobinPicksEachOnce | src/cluster/node_registry.cpp:330-331 | k consecutive turns over k ties take each once |
| NodeRegistry.Registry.LocateBurst | src/cluster/node_registry.cpp:326-332 | k consecutive `locate` calls on an unchanged registry with k ties return each tied node once, the cursor not wrapping |
| Json.JsonEscape | src/dispatch/transcoder_dispatch_manager.cpp:18-32 | the loop computes the escaping |
| Json.StringRoundTrip | src/dispatch/transcoder_agent.cpp:42-73 | an escaped string is read back iff it holds no control octet but the three with names; else refused |
| Json.NumberRoundTrip | src/dispatch/transcoder_agent.cpp:75-84 | a printed number is read back within its field's limit |
| JobWire.RenditionReadsBack | src/dispatch/transcoder_agent.cpp:131-160 | one rendition is read back iff its strings can be carried |
| JobWire.RenditionsReadBack | src/dispatch/transcoder_agent.cpp:162-172 | so is the list |
| JobWire.JobRoundTrip | src/dispatch/transcoder_agent.cpp:269-325 | parsing the printed body of a valid assignment gives it back iff its rendition names can be carried; else nothing |
| JsonValues.SkipsValue | src/dispatch/transcoder_agent.cpp:86-117 | of any JSON value, however nested, exactly that value is skipped |
| JsonValues.UnknownMemberIgnored | src/dispatch/transcoder_agent.cpp:313-317 | a member the agent has no field for, with any value, changes nothing |
| JsonValues.AcceptedJobIsSane | src/dispatch/transcoder_agent.cpp:174-246 | no accepted job publishes under its source's key or twice under one, and every number lies within its bounds |
| JsonValues.RenditionOnTheWire | src/dispatch/transcoder_dispatch_manager.cpp:110-113 | the text of a rendition, member by member |
| JsonValues.AssignmentOnTheWire | src/dispatch/transcoder_dispatch_manager.cpp:172-178 | the text of an assignment, member by member |
| JsonValues.OriginOnTheWire | src/dispatch/transcoder_dispatch_manager.cpp:172-178 | its last three members |
| JobParser.JsonCursor.constructor | src/dispatch/transcoder_agent.cpp:21 | the cursor starts before the whole text |
| JobParser.JsonCursor.Whitespace | src/dispatch/transcoder_agent.cpp:23-28 | skips exactly the leading spaces |
| JobParser.JsonCursor.TakeChar | src/dispatch/transcoder_agent.cpp:30-35 | takes the character iff it comes next |
| JobParser.JsonCursor.AtEnd | src/dispatch/transcoder_agent.cpp:37-40 | whether only spaces are left |
| JobParser.JsonCursor.String | src/dispatch/transcoder_agent.cpp:42-46 | the string that comes next, or none |
| JobParser.JsonCursor.Body | src/dispatch/transcoder_agent.cpp:47-73 | the loop over a string's characters |
| JobParser.JsonCursor.UnsignedNumber | src/dispatch/transcoder_agent.cpp:75-84 | the number that comes next, within 64 bits |
| JobParser.JsonCursor.SetNumber | src/dispatch/transcoder_agent.cpp:123-129 | and within its field |
| JobParser.JsonCursor.Skip | src/dispatch/transcoder_agent.cpp:86-102 | any value is skipped, the scan terminates |
| JobParser.JsonCursor.SkipContainer | src/dispatch/transcoder_agent.cpp:105-117 | so is a container |
| JobParser.JsonCursor.NextKey | src/dispatch/transcoder_agent.cpp:135-139 | the head of an object's loop |
| JobParser.TakeRenditionField | src/dispatch/transcoder_agent.cpp:140-158 | one member of a rendition |
| JobParser.ParseRendition | src/dispatch/transcoder_agent.cpp:131-160 | the loop over a rendition |
| JobParser.ParseRenditions | src/dispatch/transcoder_agent.cpp:162-172 | the loop over the list |
| JobParser.TakeField | src/dispatch/transcoder_agent.cpp:287-317 | one member of the assignment |
| JobParser.ParseAssignment | src/dispatch/transcoder_agent.cpp:269-325 | the running parser computes the function of the round trip |
| JobParser.PutRendition | src/dispatch/transcoder_dispatch_manager.cpp:110-113 | one rendition, written member by member through the escaping |
| JobParser.RenditionsToJson | src/dispatch/transcoder_dispatch_manager.cpp:104-117 | the printer loop computes the list's text |
| JobParser.RenditionsAppend | src/dispatch/transcoder_dispatch_manager.cpp:104-117 | what follows the list in the body is simply appended to that text |
| JobParser.PrintBody | src/dispatch/transcoder_dispatch_manager.cpp:172-178 | the running printer computes the body of the round trip |
| JobParser.PrintAndParse | src/dispatch/transcoder_agent.cpp:269-325 | printer then parser: the very assignment iff its rendition names can be carried, else nothing |
| AnnexB.SplitNals | src/hls/rendition_feed.cpp:37-67 | the two-index scan terminates and computes the units |
| AnnexB.FindCode | src/hls/rendition_feed.cpp:43-56 | the next start code of either length |
| AnnexB.SplitOfJoin | src/hls/rendition_feed.cpp:37-67 | what the splitter makes of any joined non-empty units without an embedded start code: each one, but for a last zero a short start code takes |
| AnnexB.SplitUndoesJoinExactly | src/hls/rendition_feed.cpp:37-67 | such units, joined with any mix of start codes, are recovered exactly iff none that ends in a zero is followed by a 3-byte start code |
| AnnexB.SplitUndoesJoin | src/hls/rendition_feed.cpp:37-67 | in particular when no unit ends in a zero |
| AnnexB.TrailingZeroIsLost | src/hls/rendition_feed.cpp:43-53 | a zero before a short start code is taken for the beginning of a long one |
| AnnexB.BuildSample | src/hls/rendition_feed.cpp:132-154 | header, then each carried unit after its length; written iff there was one |
| AnnexB.SampleReadsBack | src/hls/rendition_feed.cpp:150-151 | reading the lengths back gives the units |
| AnnexB.StreamToSampleAndBack | src/hls/rendition_feed.cpp:132-154 | from stream to sample and back: the units without SPS, PPS and AUD, in order |
| AvcTags.ReadBigEndian | src/media/h264/avc.cpp:16-22 | the loop computes the number |
| AvcTags.TagReadsBack | src/media/h264/avc.cpp:33-56 | a sample's frame type and packet type are read back, and its composition time iff it fits 24 bits with its sign |
| AvcTags.ToMsTruncates | src/hls/rendition_feed.cpp:29 | ticks to milliseconds, towards zero |
| AvcTags.ReadParameterSets | src/media/h264/avc.cpp:70-91 | the loops over the parameter sets, truncated ones refused |
| AvcTags.ParseDecoderConfig | src/media/h264/avc.cpp:58-96 | the parser computes the reading of the record |
| AvcTags.ConfigReadsBack | src/hls/rendition_feed.cpp:106-127 | the record written reads back as its two parameter sets, with their profile and level |
| AvcTags.ConfigBodyReadsBack | src/hls/rendition_feed.cpp:106-127 | so does the message that carries it |
| AvcTags.AvccToAnnexB | src/media/h264/avc.cpp:98-146 | the copying loop: delimiter, parameter sets on a keyframe, and the units but those the muxer supplies itself |
| AvcTags.SplitsLongCoded | src/media/h264/avc.cpp:24-29 | behind 4-byte start codes every unit is found again |
| RenditionFeeds.RenditionFeed.constructor | include/rtmp_server/hls/rendition_feed.hpp:22 | nothing sent yet |
| RenditionFeeds.RenditionFeed.FindSets | src/hls/rendition_feed.cpp:85-92 | the first unit of either kind |
| RenditionFeeds.RenditionFeed.PushVideo | src/hls/rendition_feed.cpp:78-155 | a configuration when it is new, then the sample when there is a slice |
| RenditionFeeds.RenditionFeed.MarkDiscontinuity | include/rtmp_server/hls/rendition_feed.hpp:37-43 | the gap is passed on and the next configuration is sent again |
| RenditionFeeds.UnitsAreSound | src/hls/rendition_feed.cpp:37-67 | whatever the stream, a unit cut from it is not empty and has no start code inside |
| RenditionFeeds.PushedInStep | src/hls/rendition_feed.cpp:78-155 | the segmenter holds the parameter sets the feed last sent |
| RenditionFeeds.AccessUnitSurvives | src/hls/rendition_feed.cpp:78-155 | over every run, gaps included, what the segmenter muxes for an access unit is a delimiter, on a keyframe the parameter sets it holds, and the access unit's slices unchanged and in order; those sets are the access unit's own whenever it brings a complete pair |
| ThreadPool.ReturnedCallsRanEachIndexOnce | src/core/thread_pool.cpp:53-70 | in every interleaving a call returns only after each index ran exactly once |
| ThreadPool.CounterAndFunctionPointer | src/core/thread_pool.cpp:32-51 | `outstanding_` is queued plus running, and no worker uses a function whose call has returned |
| ThreadPool.BlockedCallerMakesProgress | src/core/thread_pool.cpp:60-69 | while the caller waits some worker can step, and every step brings the end nearer |

## Left out

- Trick-play (I-frame) playlists, master playlists, DASH, statistics counters, and the rewriting of child URIs: siblings of
  what is modelled, or counters nothing depends on.
- Null entries in segment and part lists: every entry exists.
- 64-bit wraparound of sequence numbers, byte counters and the timeline base; rounding of durations through `double`
  (durations are printed from whole milliseconds).
- Encryption: a sealed segment or part is an arbitrary result of the encryptor; nothing is said about whether the
  advertised key decrypts it.
- AAC tag parsing, TS muxing and presentation times: in the segmenter a message carries the packets its write appends; the
  parsing of H.264 tags is modelled beside it, in `AvcTags`. Each write is taken to append at least one 188-byte packet; an
  AAC access unit over 65535 bytes, for which the muxer writes nothing, is not modelled.
- Low latency together with stall repeat; stall repeat and encryption in the `StreamSink` pipeline.
- Stores swapped under a registered stream, and unregistering: one store per entry in `BlockingReload`.
- Input buffered while a connection is parked on a deferred response; the connection model is for handlers that answer
  at once, and the parked protocol is `DeferredResponses`.
- Sockets, pollers, deadlines, the forwarded client address, and the text of response heads (a response carries it).
- Retries after an interrupted system call.
- Authorization, caching headers and cookies around the session redirect.
- Heartbeats, removal, persistence and expiry of cluster nodes: placement reads whatever the table holds.
- Dispatch bookkeeping across jobs, and reading renditions back from the database.
- Audio in `RenditionFeed`, and access units of 2^32 octets or more, whose lengths do not fit their fields.
- Which of several segments under one name the store's index holds: the lookups are stated for distinct names.
- The destructor and core pinning of the thread pool; callers are one at a time.
- SessionRedirect.RedirectIsFixpoint: takes a client to send a Location back octet for octet up to a `#`; a bare carriage
  return or line feed, which the request parser accepts in a target, may be replaced or refused on the way (section 2.2 of
  RFC 9112).
- PlaylistSheet.SheetReadsBack: is for URIs of parts and hints without double quotes, since an attribute could not carry
  others.
- JsonValues.SkipsValue: is for values printed without spaces.
- Playlist.PlaylistReadsBack: the reader keeps one key, so the keys of a window are taken to share one KEYFORMAT, as one
  encryptor's do; a key of another format would stay in force beside it (section 4.3.2.4 of RFC 8216). It is for names and
  prefixes without line breaks and URIs that do not start like a tag, and key attributes without quotes, since a player
  could not read others.
