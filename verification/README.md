# Verification of wiremux

A Dafny 4.11 model of the parts of wiremux that are hardest to get right, with proofs of what they promise. Check it with
`dafny verify dfyconfig.toml`.

| module | models |
|---|---|
| `SingleFlight`, `Azure`, `AzureRuns`, `AzureAnswers`, `AzureTokens` | the shared token refresh (slot, watch channel, leader and followers) and `get_token` on top of it, as atomic steps of any number of calls, `mark_stale`, and futures dropped at their await points |
| `Utf8`, `Characters`, `Sse`, `SseLines`, `SseFormat` | lossy UTF-8 decoding, the incremental frame reader with its size limits, and the frame printer |
| `Gate`, `GateRuns` | the same-wire gate of the proxy: hold-back, error rewriting, and what holds over whole runs |
| `GateFinish` | what ends a stream at the gate, told from the frames of its body |
| `GateOutput`, `GateStrands`, `GateNext`, `GateVendor`, `GateEnd` | what a reader of the gate's output sees: of the body, of the frames that come next, of vendor errors, of errors sent by its driver |
| `Mapped`, `MappedLaw` | the mapped stream and its driver, and what it sends, from the answers of its parts |
| `Live`, `LiveRuns`, `LiveLaw` | the client stream and its pulls, and what it delivers, from the answers of its parts |
| `Json`, `OidcStore`, `Selection` | JSON pointers (RFC 6901) and the `oidc-auth-json` store: entry selection, login, logout |
| `Percent`, `Userinfo`, `Redaction`, `Pkce`, `PkceParams` | percent decoding to a fixed point, userinfo checks and redaction, the PKCE authorization URL and callback |
| `Text`, `Placeholders`, `References` | string helpers; the catalog's placeholder rewriting against environment substitution |
| `Calendar`, `Rfc3339`, `Zones` | civil dates, the RFC 3339 printer, both parsers, and the date of AWS signatures |

Objects that the program updates in place are classes, proved against functions on values; the results are lemmas about
those functions. Loops are methods with invariants. Decoders, assemblers, encoders, frame classification, error text and
promotion of frameless bodies are function-valued parameters, so results hold for all of them.

## What the code does, where one might expect something else

- A comment or unknown field that arrives in two reads, on the Responses wire after the first frame, leaves its first half
  held and forwards the second: the next frame is glued to it and lost for the reader of the output
  (`GateOutput.SplitCommentLosesFrame`). `GateRuns.Strands` is the check on the gate and a chunk before its push. No chunk
  strands bytes exactly when every frame that could arrive on its own next is seen (`GateNext.NextIsSeenIffNothingStrands`),
  and exactly when such a frame and a failed one after it end the output with one error
  (`GateNext.StopIsSeenIffNothingStrands`). One output may still read right when a chunk strands bytes: they do harm only to
  what comes next.
- A line that ends in two carriage returns loses one when its frame is printed again (`GateOutput.DoubledCrIsLost`).
  `GateRuns.Mangles` is the check on a chunk; with `Strands` it is the exact condition under which a chunk keeps the output
  in step (`GateRuns.InStepIffKept`). Bodies without such a line are never mangled (`GateRuns.NoDoubledCrNoMangling`).
- A vendor error cut inside its data by two reads, on the other wires after the first frame: its start has been forwarded
  when the whole of it is printed, and the reader of the output sees a frame that is not the error
  (`GateVendor.SplitErrorIsGarbled`). If nothing open was forwarded the error is seen (`GateVendor.FirstErrorShows`).
- An open frame with only `id:` or `retry:` lines is not part of the bytes held for it, so once closed it is missing from
  the output (`GateNext.HeldBlankIsLost`; `SseFormat.ScanPendingBytes` has the exact condition). Results about the Responses
  output ignore frames without event and data.
- An error appended to a truncated body is glued to an open line or an open frame (`GateEnd.CutOffErrorIsGlued`;
  `GateEnd.AppendedErrorIsSeen` and `GateEnd.AppendedErrorShows` have the exact condition).
- A transport error behind a failed frame is a second error for the reader (`GateEnd.TransportErrorIsLast`).
- The client delivers an error in the frame that only the end of the body closes behind the assembler's tail, and any other
  ahead of it, dropping the tail (`LiveLaw.Delivers`).
- On the Responses wire a terminal frame with `[DONE]` for its data is forgotten if its read is printed again
  (`GateFinish.DroppedEndIsForgotten`; `GateFinish.FinishTells` says exactly which frames count).
- The date parsers never look at the characters between the fields (`Zones.OnlyFieldsCount`), and a zone of fewer than five
  characters counts as none (`Zones.StampWithZone`).
- When a chunk breaks a size limit the reader drops the frames of that chunk, so beyond the limits items depend on the
  cut (`LiveRuns.BrokenBodyDependsOnCut`, `Mapped.BrokenBodyDependsOnCut`, with exact conditions).
- A leader dropped while it holds the force flag loses the mark (`AzureRuns.DroppedLeaderLosesMark`,
  `AzureRuns.ForgetsOnlyByDrop`). A call that looks at the flag during a forced refresh that fails, and at the slot after
  it, takes the stale token from the cache (`AzureRuns.FailedPostServesStale`). `AzureRuns.FastPathIsFresh` says exactly
  which calls a mark slips past. After a drop the next leader may answer the stale token too
  (`AzureAnswers.DroppedLeaderMisleadsNext`; `AzureAnswers.LeaderAnswerIsFresh` says exactly which).
- The date parsers take days 1 to 31 in every month and count past its end: the 30th of February is the 2nd of March
  (`Rfc3339.ThirtiethOfFebruary`). They take instants before 1970 for the epoch (`Rfc3339.LastSecondOf1969`). A date that was
  taken prints back exactly if the calendar has it and its year is 1970 or later (`Rfc3339.TakenPrintsBackIfLegal`).
- The authorization URL always appends `?`, so a configured URL with a query or a fragment is not understood
  (`Pkce.AuthUrlReadsBack`).

## Model

| member | source | states |
|---|---|---|
| `AzureRuns.OneLeader` | crates/wiremux-auth/src/helpers.rs:99-146 | In every run of any number of calls, drops included, the slot is taken exactly while some call leads and has not cleared it, and that call is the only one; so at most one refresh runs at a time. |
| `AzureRuns.ClearsOwnSlot` | crates/wiremux-auth/src/helpers.rs:121-146 | A leader, completing or dropped, only ever empties the slot of its own channel. |
| `AzureRuns.FollowersGetTheAnswer` | crates/wiremux-auth/src/helpers.rs:149-160 | A follower whose leader is done wakes with exactly that leader's token or error (an abort included); until then it waits, and its leader is still leading or about to send: no follower waits on a dead leader. The branch that answers `token refresh cancelled` is never taken. |
| `AzureRuns.MarkIsRemembered` | crates/wiremux-auth/src/providers/azure.rs:199-225 | In every run in which no leader holding the force flag was dropped, a mark newer than the cached token is remembered: the flag is up, or the live leader owes the forced refresh. |
| `AzureRuns.ForgetsOnlyByDrop` | crates/wiremux-auth/src/providers/azure.rs:203-225 | A step of a run forgets an unanswered mark if and only if it drops a leader that holds the flag while nobody has raised it again. |
| `AzureRuns.FastPathIsFresh` | crates/wiremux-auth/src/providers/azure.rs:203-215 | In every run a token the fast path takes from the cache was asked for after every mark that came before the call, if and only if no mark slipped past that call: it found the flag down when the mark was forgotten or the leader that took it had just failed, or that leader failed or was dropped between its two looks. |
| `AzureRuns.QuietRunsSlipNothing` | crates/wiremux-auth/src/providers/azure.rs:203-225 | In a run without a failed forced POST and without a dropped forced leader no mark slips past any call. |
| `AzureRuns.FailedPostServesStale` | crates/wiremux-auth/src/providers/azure.rs:203-225 | A concrete run in which nobody is dropped: the forced POST fails while another call stands between its look at the flag and its look at the slot, and that call gets the token that was marked stale before it began. |
| `AzureRuns.MarksPayForRefreshes` | crates/wiremux-auth/src/providers/azure.rs:199-225 | In every run the forced refreshes started, and the flag if it is up, are paid for one by one by the flag the run starts with, a mark, or a flag given back after a failure: no mark is spent twice. |
| `AzureRuns.DroppedLeaderLosesMark` | crates/wiremux-auth/src/providers/azure.rs:203-225 | A concrete run, without any failed POST: a leader dropped during its POST loses the mark, and the next call gets the token that was marked stale before it began. |
| `AzureAnswers.LeaderAnswerIsFresh` | crates/wiremux-auth/src/providers/azure.rs:216-225 | In every run the token a leader answers to its own caller was asked for after every mark that came before the call, if and only if the call was not misled: it found the flag down at its swap although the cached token was stale for it, and took that token. |
| `AzureAnswers.OnlyLostMarksMislead` | crates/wiremux-auth/src/providers/azure.rs:216-225 | In a run in which no leader holding the flag was dropped no call is misled, failed POSTs included. |
| `AzureAnswers.DroppedLeaderMisleadsNext` | crates/wiremux-auth/src/providers/azure.rs:216-225 | A concrete run without a failed POST: after a leader with the flag was dropped, the next leader answers the token that was marked stale before its call. |
| `AzureTokens.FastLook` | crates/wiremux-auth/src/providers/azure.rs:203-215 | The look at the cache and the slot ends on the fast path with the cached token if that token is alive and the slot is free, and else goes on to claim the slot. |
| `AzureTokens.LeaderLook` | crates/wiremux-auth/src/providers/azure.rs:108-120 | A leader without the flag answers a living cached token; with the flag, without a token, or with an expired one it posts. |
| `AzureTokens.FastTokenWasAlive` | crates/wiremux-auth/src/providers/azure.rs:203-215 | In every run a call on the fast path got there by a look that found its token in the cache and alive, and the slot free. |
| `AzureTokens.AnswerHasSource` | crates/wiremux-auth/src/providers/azure.rs:108-135 | In every run what a leader has for its callers is a living token that it found in the cache, or the answer of its own POST. |
| `AzureTokens.CacheWasPosted` | crates/wiremux-auth/src/providers/azure.rs:108-135 | In every run a cached token is one that a POST of that run brought. |
| `AzureTokens.RefreshedTokenIsServed` | crates/wiremux-auth/src/providers/azure.rs:199-225 | From every state in which a leader has just got its token, nobody looks and the flag is down: the leader can write, clear and send, and the next call gets that very token on the fast path. |
| `SingleFlight.InFlight.Claim` | crates/wiremux-auth/src/helpers.rs:99-111 | Free slot: the caller leads on a new channel. Taken slot: it follows, with a receiver made under the same lock. |
| `SingleFlight.InFlight.Send` | crates/wiremux-auth/src/helpers.rs:121-129 | A value reaches the channel only while someone holds a receiver. |
| `SingleFlight.RefreshLeader.Complete` | crates/wiremux-auth/src/helpers.rs:121-134 | Empties the slot first, then sends the result with errors as text. |
| `SingleFlight.RefreshLeader.Drop` | crates/wiremux-auth/src/helpers.rs:131-145 | Unless finished, empties the slot and sends the abort. |
| `Sse.SseFrameReader.Feed` | crates/wiremux/src/stream/sse.rs:30-64 | The chunk-at-a-time reader gives the frames of the byte-at-a-time one, or the first size limit the bytes break, and a reset reader. |
| `Sse.SseFrameReader.Finish` | crates/wiremux/src/stream/sse.rs:93-104 | The end of the body closes the unfinished line and the open frame, or breaks the data limit. |
| `Sse.SseFrameReader.ReadLines` | crates/wiremux/src/stream/sse.rs:30-64 | The loop over the lines of the buffer, against the byte-at-a-time reader. |
| `Sse.ScanConcat` | crates/wiremux/src/stream/sse.rs:30-64 | Reading two chunks is reading their concatenation: the cut does not show in frames or state. |
| `Sse.BreakConcat` | crates/wiremux/src/stream/sse.rs:30-64 | The limits break at the same byte, however the body is cut. |
| `SseLines.ReadsField` | crates/wiremux/src/stream/sse.rs:106-140 | Every field line in all its spellings, with and without a carriage return: what `event`, `data`, `id`, `retry` and any other name do; one space behind the colon does not count, and a name alone is a field with an empty value. |
| `SseLines.ReadsCommentAndBlank` | crates/wiremux/src/stream/sse.rs:106-154 | A comment changes nothing; a blank line closes the frame with its event and its data lines joined, if a field was seen. |
| `SseLines.LimitsAre` | crates/wiremux/src/stream/sse.rs:30-64 | A line of more than 16 MiB is refused, and so is data that, joined, is longer than that; nothing shorter is. |
| `SseLines.OnlyDataIsCounted` | crates/wiremux/src/stream/sse.rs:117-140 | No line of another field is refused for its value. |
| `SseLines.EndIsBlankLine` | crates/wiremux/src/stream/sse.rs:92-104 | The end of a body is read like two line feeds, unless its last line ends in two carriage returns. |
| `SseLines.BodyEndsInBlankLine` | crates/wiremux/src/stream/sse.rs:92-104 | So the frames of a body are those of the body with a blank line behind it. |
| `Characters.KeepsCharacter` | crates/wiremux/src/stream/sse.rs:47-51 | Lossy decoding keeps the encoding of every Unicode scalar value. |
| `Characters.ReplacesOthers` | crates/wiremux/src/stream/sse.rs:47-51 | Where none stands, the longest start of one, or else a single byte, becomes one replacement character. |
| `SseFormat.PiecesAreParts` | crates/wiremux/src/proxy.rs:2113-2127 | The lines the printer prints are the parts of the data between its line feeds. |
| `SseFormat.FormatSse` | crates/wiremux/src/proxy.rs:2113-2127 | The printing loop against the printed form of a frame. |
| `SseFormat.FormatReadsBack` | crates/wiremux/src/proxy.rs:2113-2127 | A printed frame reads back as itself exactly when neither its event nor a line of its data ends in a carriage return. |
| `SseFormat.ScanPendingBytes` | crates/wiremux/src/stream/sse.rs:75-85 | The printed open frame closes nothing, and takes a fresh reader to where the printing reader stands exactly when none of its lines ends in a carriage return and it has an event or data; without the latter the fresh reader still follows. |
| `SseFormat.ScanEmitsText` | crates/wiremux/src/stream/sse.rs:106-154 | What a reader emits is text, and has no line ending in a carriage return when no input line ends in two. |
| `SseFormat.EndOfBodyEmitsText` | crates/wiremux/src/stream/sse.rs:93-104 | So is the frame closed by the end of the body. |
| `SseFormat.FollowsScan` | crates/wiremux/src/stream/sse.rs:75-85 | A reader that only missed an `id:` or `retry:` line gives the same frames, blank ones aside. |
| `Gate.SameWireGate.Push` | crates/wiremux/src/proxy.rs:1101-1214 | The object goes through the gate's states: what is held, forwarded or refused for each chunk. |
| `Gate.SameWireGate.Finish` | crates/wiremux/src/proxy.rs:1216-1257 | The four ways a stream ends, from the flags and what is held. |
| `GateFinish.FinishTells` | crates/wiremux/src/proxy.rs:1216-1290 | The answer to every body within the limits that shows a frame, told by its frames alone: nothing more behind a failed frame, the error of one that the end of the body closes, the reader's error, the end, or the missing end; and the tail that goes before it. |
| `GateFinish.DoneIffEndShown` | crates/wiremux/src/proxy.rs:1216-1271 | Wires other than Responses: such a body is done exactly when one of its frames is terminal or a vendor error, and gets the error of a missing end exactly when none is. |
| `GateFinish.CompleteBodyPasses` | crates/wiremux/src/proxy.rs:1310-1384 | Without a vendor error the driver sends exactly the body if one of its frames is terminal, and the body and that error if none is. |
| `GateFinish.NotedIffEnds` | crates/wiremux/src/proxy.rs:1142-1208 | An end counts exactly when the body shows one; on the Responses wire if no terminal frame has `[DONE]` for its data. |
| `GateFinish.DroppedEndIsForgotten` | crates/wiremux/src/proxy.rs:1142-1160 | Responses wire: such a frame is forgotten if its read also starts the next line, and counts if it does not. |
| `GateFinish.FramelessEnd` | crates/wiremux/src/proxy.rs:1273-1306 | A body without a frame ends in its vendor error, or the completion it holds, or the error of a missing end. |
| `GateFinish.ErrorReads` | crates/wiremux/src/proxy.rs:1896-1908 | An error is read as one frame of the event `error`. |
| `GateFinish.RefusedFor` | crates/wiremux/src/proxy.rs:1101-1113 | When the next chunk is refused, and with which message; a chunk that is kept although it breaks a limit starts the reader afresh. |
| `GateFinish.FailureMeaning` | crates/wiremux/src/proxy.rs:1116-1123 | The failed frame a read stops at is the first that the decoder calls failed, on the Responses wire only. |
| `GateFinish.PrintsAllButDone` | crates/wiremux/src/proxy.rs:1124-1131 | What is printed again is every frame but `[DONE]`, in order. |
| `GateFinish.SeesAllButDone` | crates/wiremux/src/proxy.rs:1124-1131 | The results about what a reader sees leave out frames without event and data, and `[DONE]`, and no others. |
| `GateRuns.PassesBytesThrough` | crates/wiremux/src/proxy.rs:1101-1214 | Wires other than Responses, no vendor error: forwarded bytes and held bytes are the input so far, nothing is forwarded and at most the limit is held before the first frame, nothing is held after it. |
| `GateRuns.PassesWholeBody` | crates/wiremux/src/proxy.rs:1216-1257 | At the end of such a body what was forwarded and the tail are the whole input; a replacement or promotion means nothing was forwarded. |
| `GateRuns.NothingHeldAfterError` | crates/wiremux/src/proxy.rs:1174-1208 | Once a vendor error was seen nothing is held, in every run. |
| `GateRuns.OnlyPrintedFramesAfterError` | crates/wiremux/src/proxy.rs:1174-1208 | From a vendor error on, whatever the later chunks, what is forwarded is exactly the printed form of the frames the reader closes from them, up to a chunk it refuses: those before the first failed frame, less `[DONE]`, and its error; none of them is `[DONE]`. A run that dropped the rest or failed forwards nothing. |
| `GateRuns.EndAfterError` | crates/wiremux/src/proxy.rs:1229-1254 | The finish of such a run adds nothing, or the printed form of the frame the end of the body closes, if that is no prefix of `[DONE]`. |
| `GateRuns.AcceptedIffInTime` | crates/wiremux/src/proxy.rs:1101-1113 | Within the reader's limits no chunk is refused exactly when the chunks stay within the gate's limit together until a frame closes. |
| `GateRuns.VendorErrorIffShown` | crates/wiremux/src/proxy.rs:1116-1188 | Within the limits the gate's error flag is up exactly when a frame of the body so far is a vendor error or, on the Responses wire, a failed frame. |
| `GateRuns.InStepIffKept` | crates/wiremux/src/proxy.rs:1101-1214 | Responses wire, every body within the limits: after every chunk a reader of the output has seen the frames of the body so far, or those before the first failed one and its error, and the held bytes take it on to where the body stands, if and only if no chunk ended a held line without closing a frame and none printed a line again that ends in a carriage return. |
| `GateRuns.NoDoubledCrNoMangling` | crates/wiremux/src/proxy.rs:1101-1214 | A body in which no line ends in two carriage returns is never mangled, however it is cut. |
| `GateStrands.StrandedHidesOne` | crates/wiremux/src/proxy.rs:1174-1186 | Behind stranded bytes, whatever they are, a reader cannot see both of two different plain frames: what it sees does not depend on the frame. |
| `GateNext.NextIsSeenIffNothingStrands` | crates/wiremux/src/proxy.rs:1101-1214 | Nothing mangled: no chunk of a run strands bytes if and only if, wherever the run is between frames, every frame that could arrive on its own next is seen by a reader of the output; any two plain frames are enough to tell. |
| `GateNext.StopIsSeenIffNothingStrands` | crates/wiremux/src/proxy.rs:1101-1257 | And if and only if every such frame with a failed frame after it ends the whole output as it should: the frames before the failed one, then one error. |
| `GateNext.HeldBlankIsLost` | crates/wiremux/src/proxy.rs:1142-1165 | Reads of any plain frame with the start of a frame that has only an id, then of its end: the body shows two frames, a reader of the output only the first. |
| `GateOutput.OutputEndsInError` | crates/wiremux/src/proxy.rs:1124-1141 | The bytes of the error for the first failed frame are the last of the whole output, wherever reads cut that frame and even if only the end of the body closes it, whatever was stranded or mangled before. |
| `GateOutput.DroppedEndsInError` | crates/wiremux/src/proxy.rs:1124-1141 | Of every run that dropped the rest, beyond the limits too: the output ends in one error and the end of the body adds nothing. |
| `GateOutput.OutputStopsAtFailedFrame` | crates/wiremux/src/proxy.rs:1101-1257 | As long as no chunk strands or mangles, the whole output for a body with a failed frame, wherever reads cut it and even if only the end of the body closes it, reads as the frames before it and one error frame, blank frames and `[DONE]` aside. |
| `GateOutput.OutputReadsAsBody` | crates/wiremux/src/proxy.rs:1101-1257 | Of a body without a vendor error and without stranded or mangled chunks, what was forwarded and what is held reads as the whole body. |
| `GateOutput.SplitCommentLosesFrame` | crates/wiremux/src/proxy.rs:1157-1172 | Every pair of ordinary frames with a comment between them, read as frame, colon, line feed, frame: the output ends in the first frame and its reader never sees the second. |
| `GateOutput.DoubledCrIsLost` | crates/wiremux/src/proxy.rs:1142-1160 | Every data line that ends in two carriage returns, read with the start of the next frame: the body shows a frame that ends in a carriage return, a reader of the output one that does not. |
| `GateVendor.ClosedAfterError` | crates/wiremux/src/proxy.rs:1180-1208 | Every wire: once a vendor error was seen, what has been sent is closed. |
| `GateVendor.FirstErrorShows` | crates/wiremux/src/proxy.rs:1180-1208 | Wires other than Responses: if nothing open was forwarded, the frames of the read that brings the first vendor error are seen behind those of the body, as printed, which is as they were exactly when they are clean. |
| `GateVendor.SplitErrorIsGarbled` | crates/wiremux/src/proxy.rs:1157-1208 | Every one-line vendor error and every cut of its data, after another frame: the reader of the output sees a frame that holds its start and then all of it again. |
| `GateEnd.PassthroughSse` | crates/wiremux/src/proxy.rs:1310-1384 | The driver's loop over the reads: what it sends for accepted and refused chunks, a transport error, or the four ways the gate ends. |
| `GateEnd.AppendedFrameReads` | crates/wiremux/src/proxy.rs:1373-1382 | A frame with an event name printed behind any open reader closes one frame, and that is the printed one exactly when no data is open and no line, or one that swallows the event line while the open event has that name. |
| `GateEnd.ErrorAfterVendorError` | crates/wiremux/src/proxy.rs:1343-1382 | Every wire: once a vendor error was seen, an appended error and a transport error are always seen. |
| `GateEnd.AppendedErrorIsSeen` | crates/wiremux/src/proxy.rs:1373-1382 | Wires other than Responses, no vendor error in the body: the error appended to a body that broke off is read as that error exactly under this condition on where the body stopped. |
| `GateEnd.CutOffErrorIsGlued` | crates/wiremux/src/proxy.rs:1373-1382 | Every body that breaks off in a data line after a frame: the appended error is read as two more lines of that data. |
| `GateEnd.AppendedErrorShows` | crates/wiremux/src/proxy.rs:1373-1382 | The Responses wire, nothing stranded or mangled: the same condition. |
| `GateEnd.TransportErrorIsSeen` | crates/wiremux/src/proxy.rs:1343-1358 | Wires other than Responses, no vendor error in the body: before a frame has closed a transport error is all that is sent; after that it is seen under the same condition. |
| `GateEnd.TransportErrorIsLast` | crates/wiremux/src/proxy.rs:1343-1358 | Responses wire, nothing stranded or mangled: a transport error is always seen behind all that is to be seen of the body; behind a failed frame it is a second error. |
| `GateEnd.RefusedChunkIsSeen` | crates/wiremux/src/proxy.rs:1337-1342 | Responses wire, nothing stranded or mangled: the error for a refused chunk is seen behind the frames of the body and ends the output, whatever comes later; after a failed frame no chunk is refused. |
| `Mapped.MappedStream.PushFrames` | crates/wiremux/src/proxy.rs:1438-1475 | Frames are decoded, assembled and encoded in turn; the first error cuts off the rest. |
| `Mapped.MappedStream.TakeAssemblerTail` | crates/wiremux/src/proxy.rs:1477-1490 | The assembler's tail goes through the encoder once. |
| `Mapped.MappedStream.FinishEncoder` | crates/wiremux/src/proxy.rs:1492-1501 | The encoder's closing frames come only after a terminal frame. |
| `Mapped.MapConcat` | crates/wiremux/src/proxy.rs:1438-1475 | Pushing two batches is pushing their concatenation. |
| `Mapped.MapStream` | crates/wiremux/src/proxy.rs:1504-1596 | The whole driver loop: what it sends for a list of reads and an end. |
| `MappedLaw.SendsAnswers` | crates/wiremux/src/proxy.rs:1438-1596 | For every body within the limits and every decoder, assembler and encoder, with their states and answers written out as sequences: what is sent is, in order, the frames the encoder gives for the assembled events with a slot, then the first error in the order of processing, or the transport's or the reader's, or the encoded tail of the assembler and the encoder's closing frames. An encoder error in the tail stands alone, and without a terminal frame the missing end stands for the closing frames. |
| `Mapped.SentDependsOnBytes` | crates/wiremux/src/proxy.rs:1504-1596 | Within the reader's limits what the driver sends, errors and closing frames included, depends on the bytes of the body and not on the reads, for every decoder, assembler and encoder. |
| `Mapped.BrokenBodyDependsOnCut` | crates/wiremux/src/proxy.rs:1504-1596 | Beyond the limits every cut sends just the reader's error exactly when the frames before the broken limit send nothing else. |
| `Mapped.NoTerminalEndsInError` | crates/wiremux/src/proxy.rs:1492-1596 | A body without a terminal frame ends in an error, however it was read, beyond the limits too. |
| `Live.LiveStream.PushFrames` | crates/wiremux/src/client.rs:709-732 | Frames become pending events; the first error stops the stream. |
| `Live.LiveStream.PullLive` | crates/wiremux/src/client.rs:751-889 | A pull terminates and takes exactly the first of the items the stream still has to deliver. |
| `Live.LiveStream.DeliverAll` | crates/wiremux/src/client.rs:734-749 | Pulling until the stream is done gives exactly those items. |
| `LiveLaw.Delivers` | crates/wiremux/src/client.rs:709-889 | For every body within the limits and every decoder and assembler, with their states and answers written out as sequences: the items are, in order, what the assembler gives for the decoded events up to the first frame that is an error, then that error, or the transport's, or the assembler's tail and, without a terminal frame, an error. An error in the frame that only the end of the body closes comes behind the tail. |
| `LiveLaw.DeliversDecoded` | crates/wiremux/src/client.rs:709-889 | With a decoder that never fails and an assembler that passes events on, the items are the decoded events of the body's frames in order, then the tail. |
| `LiveLaw.FramelessItems` | crates/wiremux/src/client.rs:776-889 | A body without a frame of up to 64 KiB, or up to 16 MiB if it starts as JSON, is looked at again as a whole: its events, or one error. |
| `LiveLaw.FramelessTextItems` | crates/wiremux/src/client.rs:776-889 | One none of whose reads starts as JSON is looked at again by its first 64 KiB. |
| `LiveLaw.JsonStarts` | crates/wiremux/src/client.rs:1038-1043 | What starts as JSON: white space, then a brace or a bracket. |
| `LiveRuns.SameItemsForEveryCut` | crates/wiremux/src/client.rs:751-889 | Any two cuts of a body that shows a frame and is within the reader's limits give the same items, for every decoder and assembler. |
| `LiveRuns.BrokenBodyDependsOnCut` | crates/wiremux/src/client.rs:751-889 | Beyond the limits every cut gives just the reader's error exactly when the frames before the broken limit deliver nothing else. |
| `LiveRuns.AtMostOneError` | crates/wiremux/src/client.rs:734-749 | From any point of any stream there is at most one error, and it is the last item. |
| `LiveRuns.PendingComesFirst` | crates/wiremux/src/client.rs:751-889 | Events decoded before an error come out ahead of it. |
| `LiveRuns.QuietEndNeedsTerminal` | crates/wiremux/src/client.rs:751-889 | A stream that showed a frame ends without an error only if the body holds a terminal frame. |
| `Json.PointerGet` | crates/wiremux-auth/src/writeback.rs:555-575 | The cursor loop reads what the tokens of the pointer name. |
| `OidcStore.CredentialDoc.PointerSet` | crates/wiremux-auth/src/writeback.rs:581-635 | The way down with its insertions, then the write; on a failure half-way too. |
| `Json.SetAllOrNothing` | crates/wiremux-auth/src/writeback.rs:581-635 | A write that fails leaves the document as it was. |
| `Json.SetSucceedsIff` | crates/wiremux-auth/src/writeback.rs:581-635 | A write succeeds exactly if its way leads to an object, to a place in an array, or to a value that holds nothing and gives way to a new object inside one. |
| `Json.SetReadsBack` | crates/wiremux-auth/src/writeback.rs:555-635 | A pointer that was written reads the value written. |
| `Json.SetTokensReads` | crates/wiremux-auth/src/writeback.rs:555-635 | Everything below a written path reads from the value written. |
| `Json.SetKeepsOthers` | crates/wiremux-auth/src/writeback.rs:555-635 | A pointer that parts from the written one reads as before; in an array `1`, `01` and `+1` do not part. |
| `Json.IndexReadsPrinted` | crates/wiremux-auth/src/writeback.rs:555-635 | An array index is any printed number that fits a `usize`, leading zeros and one plus allowed. |
| `Json.EscapeReadsBack` | crates/wiremux-auth/src/writeback.rs:49-51 | Unescaping undoes escaping, for every token. |
| `Json.EscapeSpells` | crates/wiremux-auth/src/writeback.rs:49-51 | `~` is written `~0`, a slash `~1`, and every other character as it is. |
| `Json.EscapeHasNoSlash` | crates/wiremux-auth/src/writeback.rs:49-51 | An escaped token is one token of a pointer. |
| `Json.FieldPointerTokens` | crates/wiremux-auth/src/writeback.rs:118-140 | The pointer to a field of an entry names that entry and that field, whatever the entry is called. |
| `OidcStore.CredentialDoc.ApplyTokens` | crates/wiremux-auth/src/writeback.rs:361-407 | The four writes in turn, each stopping at its first error. |
| `OidcStore.EntryWrite` | crates/wiremux-auth/src/writeback.rs:361-407 | With the pointers of an entry the write fails exactly when the token is blank or an array stands in the entry's place; otherwise the document is the old one with that entry replaced, and the entry keeps its other fields. |
| `OidcStore.LoginWritesEntry` | crates/wiremux-auth/src/writeback.rs:227-278 | A login saves the store it found with the selected entry written and nothing else touched. |
| `OidcStore.LoginReadsBack` | crates/wiremux-auth/src/writeback.rs:118-140 | Pointers computed from the saved document read the access token, the refresh token if one came, the expiry, and the token URL if one is configured. |
| `OidcStore.SelectIsUnambiguous` | crates/wiremux-auth/src/writeback.rs:53-96 | Another entry than the wanted key is taken only when it is the one candidate; an error means there are two. |
| `Selection.SelectsItsOwn` | crates/wiremux-auth/src/writeback.rs:53-96 | A profile with an entry of its own name, or to which no entry belongs, uses that name. |
| `Selection.SelectsTheOnlyOne` | crates/wiremux-auth/src/writeback.rs:53-96 | Else the only entry that belongs to it: `want@name`, with a name that is not empty and holds neither `::` nor a slash, or any entry of the issuer if the profile names no client. |
| `Selection.RefusesTwo` | crates/wiremux-auth/src/writeback.rs:53-96 | Two are refused. |
| `Selection.ProfileName` | crates/wiremux-auth/src/writeback.rs:25-47 | A profile is named by the scheme and host of its authorization URL, or of its token URL if that has none, and its client. |
| `Selection.OriginIs` | crates/wiremux-auth/src/writeback.rs:33-47 | The issuer of a URL is its scheme and host, whatever the path. |
| `Selection.OtherSchemes` | crates/wiremux-auth/src/writeback.rs:33-47 | A URL of another scheme has none. |
| `Selection.LoginSucceedsIff` | crates/wiremux-auth/src/writeback.rs:118-278 | Exactly when a login is saved. |
| `Selection.LoginSaves` | crates/wiremux-auth/src/writeback.rs:118-278 | What a login saves, field by field: the tokens that came, as texts under their names, in the profile's entry; everything else as it was. |
| `Selection.LogoutSucceedsIff` | crates/wiremux-auth/src/writeback.rs:284-327 | A logout succeeds exactly if the profile's entry is there, and leaves every other. |
| `Selection.RefusesWrites` | crates/wiremux-auth/src/writeback.rs:361-381 | A blank token, a document that is no object and a pointer to the whole document are refused before anything is written. |
| `Selection.ExpiryIsWritten` | crates/wiremux-auth/src/writeback.rs:420-452 | An expiry is written as a date where a date stands or is asked for, else as milliseconds or seconds that stop at the end of 64 bits. |
| `Selection.ExpiryReads` | crates/wiremux-auth/src/helpers.rs:927-959 | A written date parses as the clock plus the lifetime, of ten years at most, up to the end of year 9999. |
| `OidcStore.SelectAgain` | crates/wiremux-auth/src/writeback.rs:59-96 | Writing the entry that was selected does not change the selection. |
| `OidcStore.LoginThenLogout` | crates/wiremux-auth/src/writeback.rs:284-327 | A logout after a login takes out exactly the entry the login wrote. |
| `OidcStore.CredentialDoc.RemoveStoreEntry` | crates/wiremux-auth/src/writeback.rs:312-327 | Removes the selected entry, or refuses and changes nothing; says when the file is to go. |
| `Percent.PercentDecode` | crates/wiremux-auth/src/helpers.rs:646-669 | The index loop against one decode pass. |
| `Percent.PercentDecodeUntilStable` | crates/wiremux-auth/src/helpers.rs:632-643 | The loop's `len + 1` passes always reach the stable text. |
| `Percent.StableIsUnique` | crates/wiremux-auth/src/helpers.rs:632-669 | The stable text holds no `%HH`, and replacing triples in any order until none is left reaches that same text. |
| `Percent.ContractKeepsNormal` | crates/wiremux-auth/src/helpers.rs:646-669 | Whichever triple is replaced first, the end is the same. |
| `Redaction.PassReads` | crates/wiremux-auth/src/helpers.rs:646-669 | A percent sign before two hexadecimal digits of either case is the byte they spell; every other byte stands for itself. |
| `Redaction.StableSplits` | crates/wiremux-auth/src/helpers.rs:632-643 | Decoding never reaches across a byte that is neither a percent sign nor a digit. |
| `Percent.NoPassShowsAt` | crates/wiremux-auth/src/helpers.rs:632-643 | If the stable text shows no `@`, no number of passes does. |
| `Userinfo.PercentDecodeBytes` | crates/wiremux/src/ingest.rs:941-958 | The catalog's own loop makes the same pass. |
| `Userinfo.CatalogAuthorityHasUserinfo` | crates/wiremux/src/ingest.rs:910-939 | The check is true exactly when decoding the authority until stable shows an `@`. |
| `Userinfo.HostHidesUserinfo` | crates/wiremux-auth/src/helpers.rs:615-626 | The host left by the redaction shows no `@` after any number of passes; one cut out of userinfo is fully decoded and holds no delimiter. |
| `Redaction.KeepsHost` | crates/wiremux-auth/src/helpers.rs:615-626 | Behind any userinfo, however it is spelt, the host is left, decoded and cut at the first delimiter. |
| `Redaction.RedactsUrl` | crates/wiremux-auth/src/helpers.rs:596-608 | Of a URL with a plain host exactly its scheme and host are left, whatever userinfo stands before it and whatever path, query or fragment behind it. |
| `Userinfo.LossyStaysNormal` | crates/wiremux-auth/src/helpers.rs:615-626 | Lossy decoding makes no new `%HH`. |
| `Userinfo.RedactedHasNoUserinfo` | crates/wiremux-auth/src/helpers.rs:596-608 | A redacted URL keeps its scheme, passes the catalog's check, and is left alone by a second redaction. |
| `Pkce.PercentEncode` | crates/wiremux-auth/src/helpers.rs:910-925 | The encoding loop against the encoded form. |
| `Pkce.UrlDecode` | crates/wiremux/src/cli.rs:419-448 | The decoding loop, `+` and a sign before a single digit included. |
| `Pkce.EncodeReadsBack` | crates/wiremux/src/cli.rs:419-448 | Encoded text decodes to itself. |
| `PkceParams.EncodeParts` | crates/wiremux-auth/src/helpers.rs:910-925 | Letters, digits and `-._~` are encoded as they are, and every other byte as a percent sign and two capital digits. |
| `PkceParams.DecodeReads` | crates/wiremux/src/cli.rs:419-448 | A plus is a space; a percent sign takes two digits, or a plus and one; every other byte stands for itself. |
| `Pkce.BuildAuthUrl` | crates/wiremux-auth/src/pkce.rs:79-112 | The URL is the configured one, a question mark, the engine's parameters and the extras that are not reserved, encoded, in order. |
| `Pkce.PlainUrlReadsBack` | crates/wiremux-auth/src/pkce.rs:79-112 | For a configured URL without a fragment: splitting and decoding the query gives exactly those pairs if and only if the configured URL has no question mark. |
| `Pkce.AuthUrlReadsBack` | crates/wiremux-auth/src/pkce.rs:79-112 | For every state, splitting and decoding the query gives exactly those pairs if and only if the configured URL has no question mark and no fragment. |
| `PkceParams.UrlSays` | crates/wiremux-auth/src/pkce.rs:79-112 | Parameter by parameter, in order: what a server reads in the query of the URL that is built. |
| `PkceParams.KeptIs` | crates/wiremux-auth/src/pkce.rs:100-141 | Extras are sent in their order, without those of the 19 reserved names in any case. |
| `PkceParams.ReservedIs` | crates/wiremux-auth/src/pkce.rs:118-141 | A key is reserved exactly if it is one of those names but for the case of its letters. |
| `Pkce.ParamsStandOnce` | crates/wiremux-auth/src/pkce.rs:118-141 | Every key stands once: no extra repeats an engine parameter, in any spelling. |
| `Pkce.CallbackFromQuery` | crates/wiremux/src/cli.rs:369-403 | The loop answers from the last value of each of the four keys. |
| `Pkce.CallbackReadsBack` | crates/wiremux/src/cli.rs:369-403 | A query printed from pairs is understood by the last value the pairs give a key. |
| `PkceParams.CallbackTells` | crates/wiremux/src/cli.rs:369-403 | For every printed query: granted exactly with a last code and a last state that are not empty; else denied if it names or describes an error; else the code is missing, or the state. |
| `Placeholders.RewriteCatalogPlaceholders` | crates/wiremux/src/ingest.rs:687-717 | The rewriting loop against the recursive form. |
| `Placeholders.SubstString` | crates/wiremux-auth/src/profile/envsubst.rs:34-56 | The substitution loop against the recursive form. |
| `Placeholders.IdentPrefixLen` | crates/wiremux-auth/src/profile/envsubst.rs:93-108 | The identifier loop finds the identifier the text starts with. |
| `Placeholders.RewriteKeepsMeaning` | crates/wiremux/src/ingest.rs:687-717 | For every text and environment, substitution gives the same text, or unsets in both, before and after the rewriting. |
| `Placeholders.SubstitutionSplits` | crates/wiremux-auth/src/profile/envsubst.rs:34-82 | No reference reaches over a closing brace. |
| `Placeholders.RewriteTwice` | crates/wiremux/src/ingest.rs:687-717 | Rewriting twice is rewriting once. |
| `References.RewritesReference` | crates/wiremux/src/ingest.rs:687-717 | Behind a text in which no reference is open, `${name}` becomes `{env:name}` for every name. |
| `References.NoReferenceIsLeft` | crates/wiremux/src/ingest.rs:687-717 | No `${name}` is left in a rewritten text, but inside a longer `{env:...}`. |
| `References.PlainTextStays` | crates/wiremux/src/ingest.rs:687-717 | Text without a dollar sign or `{env:` stays as it is. |
| `References.SubstitutesReference` | crates/wiremux-auth/src/profile/envsubst.rs:34-82 | The three spellings of a reference are replaced by the value of the variable; unset or blank, the whole text is unset. |
| `References.PlainTextIsKept` | crates/wiremux-auth/src/profile/envsubst.rs:34-56 | Text without a reference is kept. |
| `References.IdentIsName` | crates/wiremux-auth/src/profile/envsubst.rs:84-108 | A name is a letter or underscore, then letters, digits and underscores. |
| `Calendar.CivilIsLegalAndCounts` | crates/wiremux-auth/src/helpers.rs:939-959 | Every day number has a legal civil date, and the day count undoes it. |
| `Calendar.CountNamesDate` | crates/wiremux-auth/src/helpers.rs:1035-1048 | Every legal date is the civil date of its day count. |
| `Calendar.CountOrdersDates` | crates/wiremux-auth/src/helpers.rs:1035-1048 | The day count orders legal dates as the calendar does. |
| `Calendar.OnlyLegalDatesStand` | crates/wiremux-auth/src/helpers.rs:1035-1048 | A year, month and day is the civil date of its day count exactly if the calendar has it. |
| `Zones.CenturyYears` | crates/wiremux-auth/src/helpers.rs:1035-1048 | In the day count a year divisible by 100 has a leap day only if it is divisible by 400. |
| `Calendar.DayCountsAgree` | crates/wiremux/src/aws_creds.rs:793-803 | The truncating count is the Euclidean one, for every year, month and day. |
| `Calendar.CivilFormsAgree` | crates/wiremux/src/aws_sign.rs:147-158 | The second civil-date form names the same day. |
| `Rfc3339.InstantOf` | crates/wiremux-auth/src/helpers.rs:939-959 | Date and clock of an instant are in range and stand for its seconds. |
| `Rfc3339.FormatReadsBack` | crates/wiremux-auth/src/helpers.rs:939-1032 | A printed instant parses to itself exactly up to 9999-12-31T23:59:59Z. |
| `Rfc3339.TakenPrintsBackIfLegal` | crates/wiremux-auth/src/helpers.rs:961-1032 | A printed date and clock with a year below 10000 and a day from 1 to 31 is parsed, and prints back as it was exactly if its date is legal and its year is 1970 or later. |
| `Rfc3339.ThirtiethOfFebruary` | crates/wiremux-auth/src/helpers.rs:961-1032 | The 30th of February 2023 parses as the 2nd of March. |
| `Rfc3339.LastSecondOf1969` | crates/wiremux-auth/src/helpers.rs:961-1032 | The last second of 1969 parses as the epoch, which prints as another text. |
| `Rfc3339.FormatKeepsOrder` | crates/wiremux-auth/src/helpers.rs:939-959 | Up to there the order of printed dates is the order of time. |
| `Rfc3339.ParsersAgree` | crates/wiremux/src/aws_creds.rs:778-828 | Both parsers take the same texts and give them the same instant. |
| `Zones.ZonesAreTaken` | crates/wiremux-auth/src/helpers.rs:961-1032 | A date reads as its seconds without a zone or with `Z`, less a zone ahead of UTC and plus one behind it, never below the epoch; the fraction and the zone's colon do not count. |
| `Zones.StampWithZone` | crates/wiremux-auth/src/helpers.rs:998-1032 | A date, a fraction and any zone that can be read give the seconds of the date less the zone; a zone of fewer than five characters counts as none. |
| `Zones.RangesAreChecked` | crates/wiremux-auth/src/helpers.rs:961-1000 | Two-digit fields are taken exactly in their ranges; the first out of range is the error, month before day before clock. |
| `Zones.SignsAreRead` | crates/wiremux-auth/src/helpers.rs:961-1032 | A plus before a number does not count; a minus negates a year or a part of a zone, and makes any other field unreadable. |
| `Zones.OnlyFieldsCount` | crates/wiremux-auth/src/helpers.rs:961-1032 | The characters between the fields are never looked at. |
| `Rfc3339.AmzDateIsCompact` | crates/wiremux/src/aws_sign.rs:142-163 | The signature's date is the printed date without `-` and `:`, at every clock reading. |
| `Zones.AmzDateWithSeparators` | crates/wiremux/src/aws_sign.rs:142-163 | Up to the end of year 9999 it has 16 characters, and with the separators put back it is the printed date. |

## Left out

- Converse, AWS Event Stream framing and its CRC: the gate and the drivers are modelled for text event streams.
- Decoding and encoding of vendor messages, tool-call assembly, frame classification, error text, and the promotion of bodies without a frame: parameters.
- HTTP, sockets, keychain, file locks, modes and renames; the credential file is a JSON document, or absent, or not JSON.
- JSON and TOML syntax: documents are values; numbers are reals.
- Clocks: readings are parameters. The freshness of a cached token is a choice of each step.
- Liveness: that a leader ends, that a lock is granted, that a send arrives. The protocol results are about every run, not about fairness. The lock is modelled without the queue that would only remove interleavings.
- Azure: a follower may join a leader that took the flag before the mark, so nothing is claimed about the age of a follower's token.
- `walk` over JSON values, other credential formats, device flow, header merging: each is one fold or one branch.
- OidcStore.CredentialDoc.PointerSet: goes down with a stack of containers and puts them back, where the program holds a reference into the document; aliasing is not modelled.
- Pkce.CallbackFromQuery: the text of a vendor error is not modelled, only which error and description it is made from.
- Pkce.BuildAuthUrl: takes the entries of the map in key order as a list.
- `redact_secret_looking` and the text clean-up of errors are not part of this model.
- Saturation of lengths at the machine word: a body that long does not fit in memory. Saturation of expiry times is modelled.
- GateNext.NextIsSeenIffNothingStrands: asks that no chunk mangles. A frame that was mangled is wrong from there on, unless a later line of it replaces what was lost.
